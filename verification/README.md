# dm-proxy (`dmp`) in Dafny

A model of `dmp`, a Linux device-mapper target that passes every block I/O
request through to one underlying device and counts it on the way. Each
request is counted as a read or as a write. The count goes into the target's
own counters and into one module-wide set (`global_stats`). The module-wide
counters are printed as the `volumes` report.

The model is functional. Requests are values (`Bio.Bio`). The four counters
are a record (`Stats.Stats`). Each device-mapper callback is a pure function:

- construct: `Dmp.Ctr`;
- destroy: `Trace.Dtr`;
- map one bio: `Dmp.Map`, which uses `Dmp.UpdateStats`;
- status: `Dmp.Status`.

`Trace.Step` applies one callback to a world. The world holds the
module-wide counters and the live targets. `Trace.Run` folds `Step` over a
sequence of callbacks, starting from module initialisation. The lemmas of
`Trace` relate the counters to the requests each target was served.
`Report` turns the module-wide counters into the six printed numbers and the
nine-line text. It also has a parser, which shows that the text can be read
back into the numbers.

Files:

- `bio.dfy`: requests.
- `stats.dfy`: counters and accounting.
- `dmp.dfy`: the target's callbacks.
- `report.dfy`: `volumes_show`.
- `trace.dfy`: the module over time.
- `optional.dfy`: `Option`.

Collaborators are inputs to the model:

- Whether `kzalloc` succeeds is a boolean.
- `dm_get_device` is a function from the device path to its return code and
  the opened device.
- `bio_data_dir` is the `dir` field of a request.
- `bio_sectors` is `bi_size >> 9`.
- `dm_target_offset(ti, sector)` is the kernel's `sector - ti->begin`, in
  64-bit `sector_t` arithmetic.

The error codes are the kernel's: `EINVAL` = 22 and `ENOMEM` = 12.

## Notes on the code

- `dmp_map` makes the sector relative to `ti->begin` through `dm_target_offset`. The `start` field is set to 0 at dmp.c:79 and never read, so no offset is added to a sector anywhere.
- A TABLE status query prints `dmp->dev->name`. That is the name of the device `dm_get_device` opened, not the path argument. `Dmp.Ctr` takes it from the lookup result.
- The `switch` in `dmp_status` has no default. Any other status type leaves the result buffer unwritten, and `Dmp.Status` returns `None` for it.

## Model

| member | source | states |
|---|---|---|
| Bio.Sectors | dmp.c:134 | A bio has sectors exactly when its byte length is at least one 512-byte sector. |
| Stats.Account | dmp.c:109-119 | A READ adds 1 to `read_reqs` and `bi_size` to `read_bytes`. Any other direction adds them to the write pair. The other pair is unchanged, and no counter decreases. |
| Stats.AccountAllIsTally | dmp.c:105-120 | After any request sequence, the read counters equal the number and total size of the READ requests. The write counters equal those of all other requests. |
| Stats.OfDirPartition | dmp.c:109-119 | Every request is counted exactly once: the read and write counts add up to the number of requests. The byte sums add up to their total size. |
| Stats.AccountAllMonotone | dmp.c:105-120 | Counting more requests never lowers any counter. |
| Stats.AccountAllPrefix | dmp.c:105-120 | The counters after a prefix of a request sequence are at most the counters after the whole sequence. |
| Stats.AccountAllAppend | dmp.c:105-120 | Counting two sequences one after the other gives the same counters as counting their concatenation. |
| Stats.NoWrapBelow | dmp.c:165-170 | From zero, at most 2^32 requests keep the request total and the byte total below 2^64. Over such runs the source's u64 arithmetic never wraps. |
| Dmp.Ctr | dmp.c:47-89 | Success happens exactly when there is one argument, allocation succeeds and the lookup returns 0. A wrong count gives -EINVAL whatever allocation and lookup would do. A failed allocation gives -ENOMEM. A failed lookup returns its own code. On success, the counters are zero, `start` is 0, and one flush and one discard bio are announced. |
| Dmp.UpdateStats | dmp.c:105-120 | The target's counters and the global counters are bumped on the same fields by the same amounts. The context's device and start are untouched. |
| Dmp.TargetOffset | dmp.c:135 | The rewritten sector plus `begin` gives back the original sector, modulo 2^64. |
| Dmp.Map | dmp.c:125-138 | The result is always REMAPPED and the bio always goes to the underlying device. The sector is made target-relative exactly when the bio has sectors or is a FLUSH; otherwise it is unchanged. Direction, op and size are kept, and the request is counted. |
| Dmp.MapRoundTrip | dmp.c:133-135 | For every sector and `begin`, adding `begin` back to the forwarded sector modulo 2^64 restores the original sector when it was rewritten. A sector that was not rewritten is forwarded unchanged. |
| Dmp.Status | dmp.c:143-157 | INFO yields the empty string and TABLE the underlying device's name. Any other query writes nothing. |
| Dmp.CtrThenStatus | dmp.c:73-80 | A target built from a path that the lookup resolves reports that device's name for TABLE and an empty INFO. |
| Report.Avg | dmp.c:172-174 | The average is the floor of bytes per request, or 0 when no request was counted, so there is no division by zero. |
| Report.Summarize | dmp.c:165-174 | The totals are read plus write. Each average, for read, write and total separately, is the floor of bytes over requests, or 0 when that count is 0. |
| Report.TotalAvgBetween | dmp.c:169-174 | When both directions counted requests, the total average lies between the read average and the write average. |
| Report.TotalAvgOfReadsOnly | dmp.c:169-174 | With no write requests and no write bytes counted, the total average equals the read average. |
| Report.Decimal | dmp.c:178 | `%llu` prints a non-empty string of decimal digits with no newline and no leading zero, except for 0 itself. |
| Report.DecimalUnique | dmp.c:178 | Every digit string without a leading zero is exactly what `%llu` prints for the number it denotes. So the printed form of each number is unique. |
| Report.DecimalRoundTrip | dmp.c:178 | The printed digits read back as the number that was printed. |
| Report.SplitUnlines | dmp.c:176-185 | Newline-terminated lines without newlines in them split back into the same lines. |
| Report.ReportRoundTrip | dmp.c:176-188 | The report is nine lines: read, write and total, in that order. Each has a `reqs` line and an `avg size` line. Parsing the text gives back the six numbers. |
| Report.ParseNumber | dmp.c:178 | A number is read back only from the exact digits `%llu` prints: a non-empty digit string with no leading zero, except for 0 itself. |
| Report.ParseReportExact | dmp.c:176-188 | The parser accepts a text for a summary exactly when the text is the report printed for it, including the final newline. |
| Report.ReportTextInjective | dmp.c:176-188 | Different summaries are printed as different texts. |
| Report.VolumesShow | dmp.c:162-189 | The report text for the module-wide counters parses back to exactly their summary. |
| Trace.Step | dmp.c:94-138 | A request to a live target changes only the global counters and that target's counters: its `begin`, device and `start` are kept. A request or a destruction addressed to a target that is not live changes nothing. A successful construction adds exactly the constructed target under the next name. Construction and destruction change no counter. Destruction removes only that target. No counter decreases. |
| Trace.FreshUnserved | dmp.c:66-69 | A target not yet constructed has been served nothing, so it starts from zero. |
| Trace.InstanceStats | dmp.c:105-120 | Each live target's counters are exactly the accounting of the bios it was served since construction. |
| Trace.InstanceCounts | dmp.c:105-120 | A live target's read counters equal the number and total size of its READ bios; its write counters equal those of the rest. Its request counts add up to the number of bios it was served. |
| Trace.GlobalStats | dmp.c:112-118 | The global counters are the accounting of every bio any target was served. |
| Trace.GlobalCounts | dmp.c:112-118 | The global read counters equal the number and total size of all READ bios served; the write counters equal those of all other bios. |
| Trace.GlobalIsSumOfTargets | dmp.c:94-120 | The global counters equal the field-wise sum of the contributions of every target ever constructed, destroyed ones included. |
| Trace.GlobalMonotone | dmp.c:105-120 | No sequence of further callbacks lowers a global counter. |
| Trace.InstanceMonotone | dmp.c:105-120 | No sequence of further callbacks lowers a counter of a target that is still live. |
| Trace.Dtr | dmp.c:94-100 | Destroying a live target releases its own underlying device. It removes only that target. The global counters, the other targets and the next name are unchanged. |
| Trace.CreateThenDestroy | dmp.c:73-100 | A target constructed from a path that the lookup resolves, then destroyed, releases exactly the looked-up device. The global counters and the set of live targets are as they were before the construction. |
| Trace.ReportOfReadsOnly | dmp.c:169-174 | On any trace where no write request was served, the report's total average equals its read average. |
| Trace.ReportTotalIsServed | dmp.c:165-169 | The report's total request count equals the number of bios served by all targets. |

## Left out

- Module init and exit (dmp.c:217-267) are left out: registration with device-mapper, creating the `dmp` kobject and the `stat` sysfs group, and removing them. Init rolls back in reverse order: a kobject failure unregisters the target, and a sysfs-group failure puts the kobject and then unregisters. The zeroing of `global_stats` at init is modelled as `Trace.Init`.
- The `lock` field of `struct dmp_stats` is initialised and never taken, so it has no behaviour to model.
- Concurrency and memory ordering of the `atomic64_*` calls are left out. Each callback is one step of a sequential trace. This is exact for the counters, because atomic increments lose no update. A concurrent reader can see the four fields out of step; the model does not represent that.
- Stats.Account: does not model u64 wrap-around of the counters, because they are unbounded naturals. `Stats.NoWrapBelow` bounds the runs where this makes no difference.
- Report.Summarize: does not model u64 wrap-around of `total_reqs` and `total_bytes` (dmp.c:169-170), for the same reason.
- The buffer sizes of `sprintf`/`scnprintf` (`maxlen`, `PAGE_SIZE`) are left out, including truncation of a long device name at `maxlen`.
- `dm_put_device` and `kfree` in `dmp_dtr` are reduced to the device `Trace.Dtr` returns and to dropping the target from the live set.
- `bio_data_dir` is not derived from the bio's op. Which direction the kernel gives a FLUSH or DISCARD bio is decided outside dmp.c. The model takes the direction as given and counts every non-READ direction as a write.
- The assignments to `ti->private` and `ti->error` are outside the model, apart from the error message, which is part of `Dmp.CtrResult`.
- Callbacks addressed to a target that is not live are ignored by `Trace.Step`. Device-mapper never issues them.
