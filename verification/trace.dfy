/**
  The module as a whole over time: the module-wide counters
  (`global_stats`) and the live targets, driven by a sequence of
  device-mapper callbacks — construct, destroy, map one bio. Each callback is
  one step; the atomic counter updates of the source never lose an
  increment, so a sequential trace is exact for the counters.

  Targets are named by the order of their successful construction. A
  callback for a target that is not live is outside what device-mapper does;
  the model ignores it.
 */
module Trace {
  import opened Bio
  import opened Stats
  import opened Dmp
  import Report

  type Id = nat

  datatype Event =
    | Create(begin: U64, argv: seq<string>, allocOk: bool, getDevice: string -> GetDevice)
    | Destroy(id: Id)
    | Request(id: Id, bio: Bio)

  /** The module-wide counters, the live targets, and the name the next target will get. */
  datatype World = World(global: Stats, live: map<Id, Target>, nextId: Id)

  /** After module initialisation: global counters at zero, no targets. */
  const Init: World := World(Zero, map[], 0)

  /** Every live target carries a name already handed out. */
  predicate Good(w: World)
  {
    forall id :: id in w.live ==> id < w.nextId
  }

  /** Whether `e` is a request that reaches a live target of `w`. */
  predicate Delivered(w: World, e: Event)
  {
    e.Request? && e.id in w.live
  }

  /**
    `dmp_dtr` on target `id`: its underlying device is handed to
    `dm_put_device` and its context is freed. Neither the module-wide
    counters nor any other target change; what the destroyed target counted
    stays in the module-wide counters.
   */
  function Dtr(w: World, id: Id): (r: (World, Device))
    requires Good(w) && id in w.live
    ensures r.1 == w.live[id].inst.dev
    ensures r.0.global == w.global && r.0.nextId == w.nextId
    ensures r.0.live.Keys == w.live.Keys - {id}
    ensures forall j :: j in r.0.live ==> r.0.live[j] == w.live[j]
    ensures Good(r.0)
  {
    (w.(live := w.live - {id}), w.live[id].inst.dev)
  }

  /**
    One callback. A request counts into the global counters and its target's
    own ones and touches no other target; constructing and destroying never
    touch any counter; nothing lowers a counter.
   */
  function Step(w: World, e: Event): (r: World)
    requires Good(w)
    ensures Good(r)
    ensures w.nextId <= r.nextId
    ensures !e.Create? ==> r.nextId == w.nextId
    ensures Le(w.global, r.global)
    ensures !Delivered(w, e) ==> r.global == w.global
    ensures Delivered(w, e) ==> r.global == Account(w.global, e.bio)
    ensures Delivered(w, e) ==>
      && r.live.Keys == w.live.Keys
      && r.live[e.id] == w.live[e.id].(inst := w.live[e.id].inst.(
           stats := Account(w.live[e.id].inst.stats, e.bio)))
    ensures e.Request? && !Delivered(w, e) ==> r == w
    ensures e.Destroy? && e.id !in w.live ==> r == w
    ensures forall j :: j in w.live && j in r.live && !(Delivered(w, e) && e.id == j) ==>
      r.live[j] == w.live[j]
    ensures e.Destroy? ==> r.live.Keys == w.live.Keys - {e.id} && r.nextId == w.nextId
    ensures e.Create? ==>
      (if Ctr(e.argv, e.allocOk, e.getDevice).Constructed?
       then r.live.Keys == w.live.Keys + {w.nextId} && r.nextId == w.nextId + 1
            && r.live[w.nextId] == Target(e.begin, Ctr(e.argv, e.allocOk, e.getDevice).inst)
            && r.live[w.nextId].inst.stats == Zero
       else r == w)
  {
    match e
    case Create(begin, argv, allocOk, getDevice) =>
      (match Ctr(argv, allocOk, getDevice)
       case Constructed(inst, _, _) =>
         w.(live := w.live[w.nextId := Target(begin, inst)], nextId := w.nextId + 1)
       case CtrFailed(_, _) => w)
    case Destroy(id) =>
      if id in w.live then Dtr(w, id).0 else w
    case Request(id, bio) =>
      if id in w.live then
        var o := Map(w.live[id], w.global, bio);
        w.(global := o.global, live := w.live[id := o.target])
      else w
  }

  /** The world after a sequence of callbacks from module initialisation. */
  function Run(t: seq<Event>): (w: World)
    ensures Good(w)
  {
    if |t| == 0 then Init else Step(Run(t[..|t| - 1]), t[|t| - 1])
  }

  /** The bios of `t` that reached target `id`, in order. */
  function Served(t: seq<Event>, id: Id): (bios: seq<Bio>)
  {
    if |t| == 0 then []
    else
      var init, e := t[..|t| - 1], t[|t| - 1];
      Served(init, id) + (if Delivered(Run(init), e) && e.id == id then [e.bio] else [])
  }

  /** The bios of `t` that reached any target, in order. */
  function AllServed(t: seq<Event>): (bios: seq<Bio>)
  {
    if |t| == 0 then []
    else
      var init, e := t[..|t| - 1], t[|t| - 1];
      AllServed(init) + (if Delivered(Run(init), e) then [e.bio] else [])
  }

  /** `f(0) + … + f(n - 1)`, field-wise. */
  function SumUpTo(f: Id -> Stats, n: nat): (sum: Stats)
  {
    if n == 0 then Zero else Add(SumUpTo(f, n - 1), f(n - 1))
  }

  /** The counters each target contributed over `t`: what its served bios add up to. */
  function Contribution(t: seq<Event>): (c: Id -> Stats)
  {
    (id: Id) => AccountAll(Zero, Served(t, id))
  }

  lemma AccountAllSnoc(s: Stats, bios: seq<Bio>, b: Bio)
    ensures AccountAll(s, bios + [b]) == Account(AccountAll(s, bios), b)
  {
    assert (bios + [b])[..|bios|] == bios;
  }

  /** A name not yet handed out has been served nothing. */
  lemma {:induction false} FreshUnserved(t: seq<Event>, id: Id)
    requires id >= Run(t).nextId
    ensures Served(t, id) == []
  {
    if |t| > 0 {
      var init := t[..|t| - 1];
      FreshUnserved(init, id);
    }
  }

  /**
    The counters of every live target are exactly those of the bios it was
    served since its construction.
   */
  lemma {:induction false} InstanceStats(t: seq<Event>, id: Id)
    requires id in Run(t).live
    ensures Run(t).live[id].inst.stats == AccountAll(Zero, Served(t, id))
  {
    var init, e := t[..|t| - 1], t[|t| - 1];
    var w := Run(init);
    assert Run(t) == Step(w, e);
    if id in w.live {
      InstanceStats(init, id);
      if Delivered(w, e) && e.id == id {
        assert Served(t, id) == Served(init, id) + [e.bio];
        AccountAllSnoc(Zero, Served(init, id), e.bio);
      } else {
        assert Run(t).live[id] == w.live[id];
        assert Served(t, id) == Served(init, id) + [];
        assert Served(t, id) == Served(init, id);
      }
    } else {
      assert e.Create? && id == w.nextId;
      FreshUnserved(init, id);
    }
  }

  /**
    After any trace, a live target's read counters hold the number and total
    size of the READ bios it was served, its write counters those of all the
    others.
   */
  lemma InstanceCounts(t: seq<Event>, id: Id)
    requires id in Run(t).live
    ensures Run(t).live[id].inst.stats == Tally(Served(t, id))
    ensures var s := Run(t).live[id].inst.stats;
      s.readReqs + s.writeReqs == |Served(t, id)|
  {
    InstanceStats(t, id);
    AccountAllIsTally(Zero, Served(t, id));
    OfDirPartition(Served(t, id));
  }

  /** The module-wide counters are those of every bio any target was served. */
  lemma {:induction false} GlobalStats(t: seq<Event>)
    ensures Run(t).global == AccountAll(Zero, AllServed(t))
  {
    if |t| > 0 {
      var init, e := t[..|t| - 1], t[|t| - 1];
      GlobalStats(init);
      assert Run(t) == Step(Run(init), e);
      if Delivered(Run(init), e) {
        AccountAllSnoc(Zero, AllServed(init), e.bio);
      } else {
        assert Run(t).global == Run(init).global;
        assert AllServed(t) == AllServed(init) + [];
        assert AllServed(t) == AllServed(init);
      }
    }
  }

  /**
    After any trace, the module-wide read counters hold the number and total
    size of all READ bios served, the write counters those of all others.
   */
  lemma GlobalCounts(t: seq<Event>)
    ensures Run(t).global == Tally(AllServed(t))
  {
    GlobalStats(t);
    AccountAllIsTally(Zero, AllServed(t));
  }

  lemma {:induction false} SumUpToFrame(f: Id -> Stats, g: Id -> Stats, n: nat)
    requires forall j :: 0 <= j < n ==> f(j) == g(j)
    ensures SumUpTo(f, n) == SumUpTo(g, n)
  {
    if n > 0 {
      SumUpToFrame(f, g, n - 1);
    }
  }

  /** Counting one bio into one summand counts it into the sum. */
  lemma {:induction false} SumUpToBump(f: Id -> Stats, g: Id -> Stats, n: nat, id: Id, b: Bio)
    requires id < n
    requires forall j :: 0 <= j < n && j != id ==> g(j) == f(j)
    requires g(id) == Account(f(id), b)
    ensures SumUpTo(g, n) == Account(SumUpTo(f, n), b)
  {
    if id == n - 1 {
      SumUpToFrame(f, g, n - 1);
      AccountAdd(f(id), SumUpTo(f, n - 1), b);
    } else {
      SumUpToBump(f, g, n - 1, id, b);
      AccountAdd(SumUpTo(f, n - 1), f(n - 1), b);
    }
  }

  /**
    The module-wide counters are the field-wise sum of the contributions of
    every target ever constructed, destroyed ones included: destroying a
    target takes nothing out of them.
   */
  lemma {:induction false} GlobalIsSumOfTargets(t: seq<Event>)
    ensures Run(t).global == SumUpTo(Contribution(t), Run(t).nextId)
  {
    if |t| > 0 {
      var init, e := t[..|t| - 1], t[|t| - 1];
      assert t == init + [e];
      GlobalIsSumOfTargets(init);
      if Delivered(Run(init), e) {
        SumAfterDelivered(init, e);
      } else {
        SumAfterOther(init, e);
      }
    }
  }

  /** What one more callback does to each target's served bios. */
  lemma ServedSnoc(init: seq<Event>, e: Event, j: Id)
    ensures Served(init + [e], j) ==
      Served(init, j) + (if Delivered(Run(init), e) && e.id == j then [e.bio] else [])
    ensures Run(init + [e]) == Step(Run(init), e)
  {
    assert (init + [e])[..|init|] == init;
  }

  /** What one more callback does to each target's contribution. */
  lemma ContributionSnoc(init: seq<Event>, e: Event, j: Id)
    ensures Contribution(init + [e])(j) ==
      if Delivered(Run(init), e) && e.id == j then Account(Contribution(init)(j), e.bio)
      else Contribution(init)(j)
  {
    ServedSnoc(init, e, j);
    if Delivered(Run(init), e) && e.id == j {
      AccountAllSnoc(Zero, Served(init, j), e.bio);
    } else {
      assert Served(init + [e], j) == Served(init, j) + [];
      assert Served(init + [e], j) == Served(init, j);
    }
  }

  lemma SumAfterDelivered(init: seq<Event>, e: Event)
    requires Delivered(Run(init), e)
    requires Run(init).global == SumUpTo(Contribution(init), Run(init).nextId)
    ensures Run(init + [e]).global == SumUpTo(Contribution(init + [e]), Run(init + [e]).nextId)
  {
    var w := Run(init);
    var n := w.nextId;
    var f, g := Contribution(init), Contribution(init + [e]);
    ServedSnoc(init, e, e.id);
    var w' := Run(init + [e]);
    assert w'.global == Account(w.global, e.bio) && w'.nextId == n;
    forall j | 0 <= j < n && j != e.id
      ensures g(j) == f(j)
    {
      ContributionSnoc(init, e, j);
    }
    ContributionSnoc(init, e, e.id);
    SumUpToBump(f, g, n, e.id, e.bio);
  }

  /** A callback that delivers no bio leaves every target's contribution as it was. */
  lemma ContributionsUnchanged(init: seq<Event>, e: Event)
    requires !Delivered(Run(init), e)
    ensures forall j: Id :: Contribution(init + [e])(j) == Contribution(init)(j)
  {
    forall j: Id
      ensures Contribution(init + [e])(j) == Contribution(init)(j)
    {
      ContributionSnoc(init, e, j);
    }
  }

  /** Appending a zero summand, or none, keeps the sum. */
  lemma SumUpToExtendZero(f: Id -> Stats, g: Id -> Stats, n: nat, m: nat)
    requires forall j :: 0 <= j < n ==> g(j) == f(j)
    requires m == n || (m == n + 1 && g(n) == Zero)
    ensures SumUpTo(g, m) == SumUpTo(f, n)
  {
    SumUpToFrame(f, g, n);
  }

  lemma SumAfterOther(init: seq<Event>, e: Event)
    requires !Delivered(Run(init), e)
    requires Run(init).global == SumUpTo(Contribution(init), Run(init).nextId)
    ensures Run(init + [e]).global == SumUpTo(Contribution(init + [e]), Run(init + [e]).nextId)
  {
    var n := Run(init).nextId;
    ServedSnoc(init, e, 0);
    var w' := Run(init + [e]);
    assert w'.global == Run(init).global;
    assert w'.nextId == n || w'.nextId == n + 1;
    ContributionsUnchanged(init, e);
    if w'.nextId != n {
      FreshUnserved(init, n);
    }
    SumUpToExtendZero(Contribution(init), Contribution(init + [e]), n, w'.nextId);
  }

  /** No callback ever lowers a module-wide counter. */
  lemma {:induction false} GlobalMonotone(t: seq<Event>, u: seq<Event>)
    ensures Le(Run(t).global, Run(t + u).global)
    decreases |u|
  {
    if |u| == 0 {
      assert t + u == t;
    } else {
      var u' := u[..|u| - 1];
      assert (t + u)[..|t + u| - 1] == t + u';
      GlobalMonotone(t, u');
    }
  }

  /** What a target was served so far stays the start of what it is served later. */
  lemma {:induction false} ServedExtends(t: seq<Event>, u: seq<Event>, id: Id)
    ensures Served(t, id) <= Served(t + u, id)
    decreases |u|
  {
    if |u| == 0 {
      assert t + u == t;
    } else {
      var u' := u[..|u| - 1];
      assert (t + u)[..|t + u| - 1] == t + u';
      ServedExtends(t, u', id);
    }
  }

  /** No callback ever lowers a counter of a target that is still live. */
  lemma InstanceMonotone(t: seq<Event>, u: seq<Event>, id: Id)
    requires id in Run(t).live && id in Run(t + u).live
    ensures Le(Run(t).live[id].inst.stats, Run(t + u).live[id].inst.stats)
  {
    InstanceStats(t, id);
    InstanceStats(t + u, id);
    ServedExtends(t, u, id);
    AccountAllPrefix(Zero, Served(t, id), Served(t + u, id));
  }

  /** The report's total request count is the number of bios served by all targets. */
  lemma ReportTotalIsServed(t: seq<Event>)
    ensures Report.Summarize(Run(t).global).totalReqs == |AllServed(t)|
  {
    GlobalCounts(t);
    OfDirPartition(AllServed(t));
  }

  /**
    A target constructed from a path that the lookup resolves, and then
    destroyed, releases exactly the device the lookup opened, leaves the
    module-wide counters as they were, and is no longer live.
   */
  lemma CreateThenDestroy(w: World, begin: U64, argv: seq<string>, getDevice: string -> GetDevice)
    requires Good(w)
    requires |argv| == 1 && getDevice(argv[0]).r == 0
    ensures var w1 := Step(w, Create(begin, argv, true, getDevice));
      && w.nextId in w1.live
      && Dtr(w1, w.nextId).1 == getDevice(argv[0]).dev
      && Dtr(w1, w.nextId).0.global == w.global
      && Dtr(w1, w.nextId).0.live.Keys == w.live.Keys
  {
  }

  /**
    Over any trace no write request means no write bytes, so when only
    reads were served the report's total average is its read average.
   */
  lemma ReportOfReadsOnly(t: seq<Event>)
    requires Run(t).global.writeReqs == 0
    ensures Report.Summarize(Run(t).global).totalAvg == Report.Summarize(Run(t).global).readAvg
  {
    GlobalCounts(t);
    assert OfDir(AllServed(t), Write) == [];
    Report.TotalAvgOfReadsOnly(Run(t).global);
  }
}
