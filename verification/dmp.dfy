/**
  The device-mapper proxy target itself: its per-target context
  (`struct dmp_c`), the constructor, the per-request map
  callback with its statistics update, and the status callback.

  The kernel collaborators are inputs: whether `kzalloc` succeeds is a
  boolean, `dm_get_device` is a function from the device path to its return
  code and the device it opened, and `dm_target_offset` is the kernel's
  definition `sector - ti->begin` in `sector_t` arithmetic.
 */
module Dmp {
  import opened Bio
  import opened Stats
  import opened Optional

  /** Linux error numbers (include/uapi/asm-generic/errno-base.h). */
  const EINVAL: int := 22
  const ENOMEM: int := 12

  /** An opened underlying device (`struct dm_dev`): its name and block device. */
  datatype Device = Device(name: string, bdev: BlockDev)

  /** `struct dmp_c`: the underlying device, a start sector and private counters. */
  datatype Instance = Instance(dev: Device, start: U64, stats: Stats)

  /** A constructed `struct dm_target`: where it begins in the mapped device, and its context. */
  datatype Target = Target(begin: U64, inst: Instance)

  /** What `dm_get_device` returns: 0 and an opened device, or a non-zero error code. */
  datatype GetDevice = GetDevice(r: int, dev: Device)

  /**
    The outcome of `dmp_ctr`: the new context together with the flush and
    discard bio counts it announces to device-mapper, or the returned error
    code with the message left in `ti->error`.
   */
  datatype CtrResult =
    | Constructed(inst: Instance, numFlushBios: nat, numDiscardBios: nat)
    | CtrFailed(r: int, error: string)

  /** The int `dmp_ctr` returns: 0 on success. */
  function ReturnCode(res: CtrResult): (r: int)
  {
    match res
    case Constructed(_, _, _) => 0
    case CtrFailed(r, _) => r
  }

  /**
    `dmp_ctr`: exactly one argument, the path of the underlying device. A
    wrong count fails before allocation or lookup; a failed allocation
    fails before lookup; a failed lookup hands back its own error code.
   */
  function Ctr(argv: seq<string>, allocOk: bool, getDevice: string -> GetDevice): (res: CtrResult)
    ensures res.Constructed? <==> |argv| == 1 && allocOk && getDevice(argv[0]).r == 0
    ensures ReturnCode(res) == 0 <==> res.Constructed?
    ensures |argv| != 1 ==> res == CtrFailed(-EINVAL, "Invalid argument count")
    ensures |argv| == 1 && !allocOk ==> res == CtrFailed(-ENOMEM, "Cannot allocate context")
    ensures |argv| == 1 && allocOk && getDevice(argv[0]).r != 0 ==>
      res == CtrFailed(getDevice(argv[0]).r, "Device lookup failed")
    ensures res.Constructed? ==>
      && res.inst.dev == getDevice(argv[0]).dev
      && res.inst.stats == Zero
      && res.inst.start == 0
      && res.numFlushBios == 1
      && res.numDiscardBios == 1
  {
    if |argv| != 1 then CtrFailed(-EINVAL, "Invalid argument count")
    else if !allocOk then CtrFailed(-ENOMEM, "Cannot allocate context")
    else
      var got := getDevice(argv[0]);
      if got.r != 0 then CtrFailed(got.r, "Device lookup failed")
      else Constructed(Instance(got.dev, 0, Zero), 1, 1)
  }

  /**
    `dmp_update_stats`: the request is counted into the target's own
    counters and into the module-wide ones, on the same two fields and by
    the same amounts; the device and start of the context are untouched.
   */
  function UpdateStats(inst: Instance, global: Stats, b: Bio): (r: (Instance, Stats))
    ensures r.0.dev == inst.dev && r.0.start == inst.start
    ensures Le(inst.stats, r.0.stats) && Le(global, r.1)
    ensures r.0.stats == Account(inst.stats, b)
    ensures r.1 == Account(global, b)
    ensures Add(r.0.stats, global) == Add(inst.stats, r.1)
  {
    (inst.(stats := Account(inst.stats, b)), Account(global, b))
  }

  /** `dm_target_offset`: the sector relative to the target's start, in `sector_t` arithmetic. */
  function TargetOffset(begin: U64, sector: U64): (r: U64)
    ensures begin <= sector ==> r + begin == sector
    ensures sector < begin ==> r + begin == sector + U64_LIMIT
  {
    (sector - begin) % U64_LIMIT
  }

  /** The return values of a map callback (include/linux/device-mapper.h). */
  datatype MapStatus = Submitted | Remapped | Kill | Requeue

  /** Everything `dmp_map` changes: the target, the global counters and the bio. */
  datatype MapOutcome = MapOutcome(target: Target, global: Stats, bio: Bio, status: MapStatus)

  /** Whether `dmp_map` rewrites the sector: the bio has sectors or is a FLUSH. */
  predicate RewritesSector(b: Bio)
  {
    Sectors(b) > 0 || b.op == OpFlush
  }

  /**
    `dmp_map`: count the request, redirect it to the underlying device, make
    its sector target-relative when it has sectors or is a FLUSH, and hand it
    back to device-mapper as remapped.
   */
  function Map(t: Target, global: Stats, b: Bio): (o: MapOutcome)
    ensures o.status == Remapped
    ensures o.bio.bdev == t.inst.dev.bdev
    ensures o.bio.dir == b.dir && o.bio.op == b.op && o.bio.size == b.size
    ensures RewritesSector(b) && t.begin <= b.sector ==> o.bio.sector + t.begin == b.sector
    ensures RewritesSector(b) ==> o.bio.sector == TargetOffset(t.begin, b.sector)
    ensures !RewritesSector(b) ==> o.bio.sector == b.sector
    ensures o.target.begin == t.begin && o.target.inst.dev == t.inst.dev
    ensures (o.target.inst, o.global) == UpdateStats(t.inst, global, b)
  {
    var (inst', global') := UpdateStats(t.inst, global, b);
    var sector := if RewritesSector(b) then TargetOffset(t.begin, b.sector) else b.sector;
    MapOutcome(t.(inst := inst'), global', b.(bdev := t.inst.dev.bdev, sector := sector), Remapped)
  }

  /** The status queries device-mapper may make; this target handles the first two. */
  datatype StatusType = StatusInfo | StatusTable | StatusIma

  /**
    `dmp_status`: INFO writes an empty string, TABLE the name of the
    underlying device; any other query leaves the buffer unwritten (`None`).
   */
  function Status(t: Target, query: StatusType): (r: Option<string>)
    ensures query == StatusInfo ==> r == Some("")
    ensures query == StatusTable ==> r == Some(t.inst.dev.name)
    ensures r.None? <==> query == StatusIma
  {
    match query
    case StatusInfo => Some("")
    case StatusTable => Some(t.inst.dev.name)
    case StatusIma => None
  }

  /**
    A target constructed from a path reports, as its table line, the name
    of the device that the lookup of that path opened, and it starts with
    all counters at zero.
   */
  lemma CtrThenStatus(argv: seq<string>, getDevice: string -> GetDevice, begin: U64)
    requires |argv| == 1 && getDevice(argv[0]).r == 0
    ensures var res := Ctr(argv, true, getDevice);
      && res.Constructed?
      && Status(Target(begin, res.inst), StatusTable) == Some(getDevice(argv[0]).dev.name)
      && Status(Target(begin, res.inst), StatusInfo) == Some("")
  {
  }

  /**
    Adding `begin` back, in `sector_t` arithmetic, to the sector of a
    remapped FLUSH or sector-carrying bio restores the sector it was sent
    to, whatever the two values are.
   */
  lemma MapRoundTrip(t: Target, global: Stats, b: Bio)
    ensures var o := Map(t, global, b);
      (o.bio.sector + (if RewritesSector(b) then t.begin else 0)) % U64_LIMIT == b.sector
  {
  }
}
