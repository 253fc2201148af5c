/**
  The four I/O counters of `struct dmp_stats` and the accounting of one
  request into them (`dmp_update_stats`). Counters are unbounded naturals;
  `NoWrapBelow` states how many requests they can take before the `u64`
  counters of the source could wrap.
 */
module Stats {
  import opened Bio

  datatype Stats = Stats(readReqs: nat, writeReqs: nat, readBytes: nat, writeBytes: nat)

  /** The state after `atomic64_set(…, 0)` on all four counters. */
  const Zero: Stats := Stats(0, 0, 0, 0)

  /** Field-wise sum of two counter sets. */
  function Add(a: Stats, b: Stats): (sum: Stats)
  {
    Stats(a.readReqs + b.readReqs, a.writeReqs + b.writeReqs,
          a.readBytes + b.readBytes, a.writeBytes + b.writeBytes)
  }

  /** Field-wise order: no counter of `a` exceeds the same counter of `b`. */
  predicate Le(a: Stats, b: Stats)
  {
    && a.readReqs <= b.readReqs
    && a.writeReqs <= b.writeReqs
    && a.readBytes <= b.readBytes
    && a.writeBytes <= b.writeBytes
  }

  /**
    One request counted into one counter set: a READ bumps the read pair,
    anything else the write pair; the other pair is left alone.
   */
  function Account(s: Stats, b: Bio): (r: Stats)
    ensures Le(s, r)
    ensures r.readReqs + r.writeReqs == s.readReqs + s.writeReqs + 1
    ensures r.readBytes + r.writeBytes == s.readBytes + s.writeBytes + b.size
    ensures b.dir == Read <==> r.readReqs == s.readReqs + 1
    ensures b.dir == Read ==> r.writeReqs == s.writeReqs && r.writeBytes == s.writeBytes
    ensures b.dir != Read ==> r.readReqs == s.readReqs && r.readBytes == s.readBytes
  {
    if b.dir == Read then
      s.(readReqs := s.readReqs + 1, readBytes := s.readBytes + b.size)
    else
      s.(writeReqs := s.writeReqs + 1, writeBytes := s.writeBytes + b.size)
  }

  /** A sequence of requests counted into `s`, in order. */
  function AccountAll(s: Stats, bios: seq<Bio>): (r: Stats)
  {
    if |bios| == 0 then s
    else Account(AccountAll(s, bios[..|bios| - 1]), bios[|bios| - 1])
  }

  /** The requests of `bios` whose direction is `d`, in order. */
  function OfDir(bios: seq<Bio>, d: Dir): (r: seq<Bio>)
    ensures |r| <= |bios|
    ensures forall i :: 0 <= i < |r| ==> r[i].dir == d && r[i] in bios
  {
    if |bios| == 0 then []
    else
      var rest := OfDir(bios[..|bios| - 1], d);
      if bios[|bios| - 1].dir == d then rest + [bios[|bios| - 1]] else rest
  }

  /** The sum of the byte lengths of `bios`. */
  function SizeSum(bios: seq<Bio>): (total: nat)
  {
    if |bios| == 0 then 0 else SizeSum(bios[..|bios| - 1]) + bios[|bios| - 1].size
  }

  /** The counters that `bios` would produce from zero, stated without `Account`. */
  function Tally(bios: seq<Bio>): (t: Stats)
  {
    Stats(|OfDir(bios, Read)|, |OfDir(bios, Write)|,
          SizeSum(OfDir(bios, Read)), SizeSum(OfDir(bios, Write)))
  }

  /**
    After any request sequence the read counters hold the number and the
    total size of the READ requests, the write counters those of all others.
   */
  lemma {:induction false} AccountAllIsTally(s: Stats, bios: seq<Bio>)
    ensures AccountAll(s, bios) == Add(s, Tally(bios))
  {
    if |bios| > 0 {
      AccountAllIsTally(s, bios[..|bios| - 1]);
    }
  }

  /** Every request is counted exactly once: as a read or as a write. */
  lemma {:induction false} OfDirPartition(bios: seq<Bio>)
    ensures |OfDir(bios, Read)| + |OfDir(bios, Write)| == |bios|
    ensures SizeSum(OfDir(bios, Read)) + SizeSum(OfDir(bios, Write)) == SizeSum(bios)
  {
    if |bios| > 0 {
      var init, last := bios[..|bios| - 1], bios[|bios| - 1];
      OfDirPartition(init);
      SizeSumAppend(OfDir(init, Read), [last]);
      SizeSumAppend(OfDir(init, Write), [last]);
      assert [last][..0] == [];
    }
  }

  lemma {:induction false} SizeSumAppend(a: seq<Bio>, b: seq<Bio>)
    ensures SizeSum(a + b) == SizeSum(a) + SizeSum(b)
    decreases |b|
  {
    if |b| > 0 {
      assert (a + b)[..|a + b| - 1] == a + b[..|b| - 1];
      SizeSumAppend(a, b[..|b| - 1]);
    } else {
      assert a + b == a;
    }
  }

  /** Counting more requests never lowers a counter. */
  lemma {:induction false} AccountAllMonotone(s: Stats, bios: seq<Bio>)
    ensures Le(s, AccountAll(s, bios))
  {
    if |bios| > 0 {
      AccountAllMonotone(s, bios[..|bios| - 1]);
    }
  }

  /** Counting `a` then `b` is counting `a + b`. */
  lemma {:induction false} AccountAllAppend(s: Stats, a: seq<Bio>, b: seq<Bio>)
    ensures AccountAll(s, a + b) == AccountAll(AccountAll(s, a), b)
    decreases |b|
  {
    if |b| == 0 {
      assert a + b == a;
    } else {
      assert (a + b)[..|a + b| - 1] == a + b[..|b| - 1];
      AccountAllAppend(s, a, b[..|b| - 1]);
    }
  }

  /** Counting a longer request sequence never yields lower counters than a prefix of it. */
  lemma AccountAllPrefix(s: Stats, a: seq<Bio>, b: seq<Bio>)
    requires a <= b
    ensures Le(AccountAll(s, a), AccountAll(s, b))
  {
    var rest := b[|a|..];
    assert b == a + rest;
    AccountAllAppend(s, a, rest);
    AccountAllMonotone(AccountAll(s, a), rest);
  }

  /** Counting into a sum is counting into one summand: the update is additive. */
  lemma AccountAdd(s: Stats, t: Stats, b: Bio)
    ensures Account(Add(s, t), b) == Add(Account(s, b), t)
  {
  }

  /** A request of at most `U32_LIMIT - 1` bytes adds at most that much. */
  lemma {:induction false} SizeSumBound(bios: seq<Bio>)
    ensures SizeSum(bios) <= |bios| * (U32_LIMIT - 1)
  {
    if |bios| > 0 {
      SizeSumBound(bios[..|bios| - 1]);
    }
  }

  /**
    Starting from zero, at most 2^32 requests keep every counter, and both
    totals the report computes, below 2^64: over such a sequence the `u64`
    arithmetic of the source never wraps and agrees with this model.
   */
  lemma NoWrapBelow(bios: seq<Bio>)
    requires |bios| <= U32_LIMIT
    ensures var t := AccountAll(Zero, bios);
      && t.readReqs + t.writeReqs < U64_LIMIT
      && t.readBytes + t.writeBytes < U64_LIMIT
  {
    AccountAllIsTally(Zero, bios);
    OfDirPartition(bios);
    SizeSumBound(bios);
    assert |bios| * (U32_LIMIT - 1) <= U32_LIMIT * (U32_LIMIT - 1);
  }
}
