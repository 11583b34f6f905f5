/** subdev.c: the pool of subdevices, who holds them, and their removal. */
module Subdev {
  import opened Errno
  import opened FdtTree

  /** struct xrt_subdev_holder */
  datatype Holder = Holder(dev: int, refs: nat)

  // ---- holders of one subdevice --------------------------------------------------------

  /** xrt_subdev_find_holder */
  function IndexOf(hs: seq<Holder>, dev: int): (i: int)
    ensures -1 <= i < |hs|
    ensures i >= 0 ==> hs[i].dev == dev
  {
    if hs == [] then -1
    else if hs[0].dev == dev then 0
    else var r := IndexOf(hs[1..], dev); if r < 0 then -1 else r + 1
  }

  function Refs(hs: seq<Holder>, dev: int): nat {
    var i := IndexOf(hs, dev);
    if i < 0 then 0 else hs[i].refs
  }

  function Remove<T>(s: seq<T>, i: int): seq<T>
    requires 0 <= i < |s|
  {
    s[..i] + s[i + 1..]
  }

  /** xrt_subdev_hold */
  function Hold(hs: seq<Holder>, dev: int): seq<Holder> {
    var i := IndexOf(hs, dev);
    if i < 0 then hs + [Holder(dev, 1)] else hs[i := Holder(dev, hs[i].refs + 1)]
  }

  /** xrt_subdev_release, by a holder. */
  function Release(hs: seq<Holder>, dev: int): seq<Holder> {
    var i := IndexOf(hs, dev);
    if i < 0 then hs
    else if hs[i].refs <= 1 then Remove(hs, i)
    else hs[i := Holder(dev, hs[i].refs - 1)]
  }

  /** Entries are for different devices and have a positive count. */
  predicate Clean(hs: seq<Holder>) {
    hs == [] || (hs[0].refs > 0 && IndexOf(hs[1..], hs[0].dev) < 0 && Clean(hs[1..]))
  }

  /** What a first entry adds to a list. */
  lemma ConsIs(h: Holder, t: seq<Holder>, e: int)
    ensures Refs([h] + t, e) == if h.dev == e then h.refs else Refs(t, e)
    ensures IndexOf([h] + t, e) < 0 <==> h.dev != e && IndexOf(t, e) < 0
    ensures Clean([h] + t) <==> h.refs > 0 && IndexOf(t, h.dev) < 0 && Clean(t)
    ensures IndexOf(t, e) < 0 ==> Refs(t, e) == 0
  {
    assert ([h] + t)[1..] == t;
  }

  lemma HoldIs(h: Holder, t: seq<Holder>, dev: int)
    ensures Hold([h] + t, dev) == if h.dev == dev then [Holder(dev, h.refs + 1)] + t else [h] + Hold(t, dev)
  {
    assert ([h] + t)[1..] == t;
  }

  lemma IndexCons(h: Holder, t: seq<Holder>, e: int)
    ensures IndexOf([h] + t, e) == if h.dev == e then 0 else if IndexOf(t, e) < 0 then -1 else IndexOf(t, e) + 1
  {
    assert ([h] + t)[1..] == t;
  }

  lemma RemoveHead(h: Holder, t: seq<Holder>)
    ensures Remove([h] + t, 0) == t
  {
  }

  lemma RemoveCons(h: Holder, t: seq<Holder>, i: int)
    requires 0 <= i < |t|
    ensures Remove([h] + t, i + 1) == [h] + Remove(t, i)
  {
  }

  lemma ReleaseIs(h: Holder, t: seq<Holder>, dev: int)
    ensures Release([h] + t, dev) ==
            if h.dev != dev then [h] + Release(t, dev)
            else if h.refs <= 1 then t else [Holder(dev, h.refs - 1)] + t
  {
    hide IndexOf, Remove;
    IndexCons(h, t, dev);
    var i := IndexOf(t, dev);
    if h.dev == dev {
      RemoveHead(h, t);
    } else if i >= 0 {
      RemoveCons(h, t, i);
    }
  }

  lemma {:induction false} HoldCounts(hs: seq<Holder>, dev: int, e: int)
    requires Clean(hs)
    ensures Clean(Hold(hs, dev))
    ensures Refs(Hold(hs, dev), e) == Refs(hs, e) + if e == dev then 1 else 0
    ensures IndexOf(Hold(hs, dev), e) < 0 <==> IndexOf(hs, e) < 0 && e != dev
    decreases |hs|
  {
    if hs == [] {
      assert Hold(hs, dev) == [Holder(dev, 1)];
    } else {
      hide Hold, Refs, IndexOf, Clean;
      var h, t := hs[0], hs[1..];
      assert hs == [h] + t;
      HoldIs(h, t, dev);
      ConsIs(h, t, e);
      ConsIs(h, t, dev);
      if h.dev == dev {
        ConsIs(Holder(dev, h.refs + 1), t, e);
      } else {
        HoldCounts(t, dev, e);
        HoldCounts(t, dev, h.dev);
        ConsIs(h, Hold(t, dev), e);
      }
    }
  }

  lemma {:induction false} ReleaseCounts(hs: seq<Holder>, dev: int, e: int)
    requires Clean(hs)
    ensures Clean(Release(hs, dev))
    ensures Refs(Release(hs, dev), e) == Refs(hs, e) - if e == dev && Refs(hs, dev) > 0 then 1 else 0
    ensures IndexOf(hs, e) < 0 ==> IndexOf(Release(hs, dev), e) < 0
    decreases |hs|
  {
    if hs != [] {
      hide Release, Refs, IndexOf, Clean;
      var h, t := hs[0], hs[1..];
      assert hs == [h] + t;
      ReleaseIs(h, t, dev);
      ConsIs(h, t, e);
      ConsIs(h, t, dev);
      if h.dev != dev {
        ReleaseCounts(t, dev, e);
        ReleaseCounts(t, dev, h.dev);
        ConsIs(h, Release(t, dev), e);
      } else if h.refs > 1 {
        ConsIs(Holder(dev, h.refs - 1), t, e);
      }
    }
  }

  /** An entry exists exactly for a device with a positive count. */
  lemma {:induction false} EntryIff(hs: seq<Holder>, e: int)
    requires Clean(hs)
    ensures IndexOf(hs, e) >= 0 <==> Refs(hs, e) > 0
    decreases |hs|
  {
    if hs != [] {
      EntryIff(hs[1..], e);
    }
  }

  // ---- the pool -----------------------------------------------------------------------------

  /** struct xrt_subdev; the key stands for the address of its device. */
  datatype Sub = Sub(key: nat, id: int, inst: int, holders: seq<Holder>)

  datatype Event = Got(key: nat, dev: int) | Given(key: nat, dev: int) | Unlinked(key: nat)

  /** struct xrt_subdev_pool: the newest subdevice first; those whose remover
      waits for holders; and the history. */
  datatype Pool = Pool(devs: seq<Sub>, closing: bool, waiting: set<nat>, next: nat, log: seq<Event>)

  const EMPTY_POOL: Pool := Pool([], false, {}, 0, [])

  function Pos(devs: seq<Sub>, key: nat): (i: int)
    ensures -1 <= i < |devs|
    ensures i >= 0 ==> devs[i].key == key
  {
    if devs == [] then -1
    else if devs[0].key == key then 0
    else var r := Pos(devs[1..], key); if r < 0 then -1 else r + 1
  }

  /** xrt_subdev_pool_add of a subdevice that could be created. */
  function Added(p: Pool, id: int, inst: int): Pool {
    if p.closing then p else p.(devs := [Sub(p.next, id, inst, [])] + p.devs, next := p.next + 1)
  }

  /** xrt_subdev_pool_get_impl, once the match is found. */
  function GetAt(p: Pool, i: int, dev: int): Pool
    requires 0 <= i < |p.devs|
  {
    var s := p.devs[i];
    p.(devs := p.devs[i := s.(holders := Hold(s.holders, dev))], log := p.log + [Got(s.key, dev)])
  }

  function Get(p: Pool, key: nat, dev: int): Pool {
    var i := Pos(p.devs, key);
    if i < 0 then p else GetAt(p, i, dev)
  }

  /** xrt_subdev_pool_put_impl */
  function GiveBack(p: Pool, key: nat, dev: int): Pool {
    var i := Pos(p.devs, key);
    if i < 0 || IndexOf(p.devs[i].holders, dev) < 0 then p
    else
      var s := p.devs[i];
      p.(devs := p.devs[i := s.(holders := Release(s.holders, dev))], log := p.log + [Given(key, dev)])
  }

  /** The remover's check, under the lock: unlink, or keep waiting. */
  function Check(p: Pool, key: nat): Pool {
    var i := Pos(p.devs, key);
    if i < 0 then p
    else if p.devs[i].holders != [] then p.(waiting := p.waiting + {key})
    else p.(devs := Remove(p.devs, i), waiting := p.waiting - {key}, log := p.log + [Unlinked(key)])
  }

  /** xrt_subdev_pool_del up to the point where it first drops the lock. */
  function DelBegin(p: Pool, key: nat): Pool {
    if p.closing then p else Check(p, key)
  }

  /** A waiting remover that was woken up looks again. */
  function DelResume(p: Pool, key: nat): Pool {
    if key in p.waiting then Check(p, key) else p
  }

  /** A waiting remover that was killed drops all holders. */
  function Killed(p: Pool, key: nat): Pool {
    var i := Pos(p.devs, key);
    if key !in p.waiting || i < 0 then p
    else p.(devs := p.devs[i := p.devs[i].(holders := [])])
  }

  datatype Step =
    | Add(id: int, inst: int)
    | GetStep(key: nat, dev: int)
    | PutStep(key: nat, dev: int)
    | Del(key: nat)
    | Wake(key: nat)
    | Kill(key: nat)

  function Apply(p: Pool, s: Step): Pool {
    match s
    case Add(id, inst) => Added(p, id, inst)
    case GetStep(key, dev) => Get(p, key, dev)
    case PutStep(key, dev) => GiveBack(p, key, dev)
    case Del(key) => DelBegin(p, key)
    case Wake(key) => DelResume(p, key)
    case Kill(key) => Killed(p, key)
  }

  function Run(p: Pool, steps: seq<Step>): Pool
    decreases |steps|
  {
    if steps == [] then p else Run(Apply(p, steps[0]), steps[1..])
  }

  /** Successful gets of a subdevice by a device, minus its puts. */
  function Balance(log: seq<Event>, key: nat, dev: int): int {
    if log == [] then 0
    else
      var e := log[|log| - 1];
      Balance(log[..|log| - 1], key, dev) +
      if e == Got(key, dev) then 1 else if e == Given(key, dev) then -1 else 0
  }

  lemma BalanceGrows(log: seq<Event>, e: Event, key: nat, dev: int)
    ensures Balance(log + [e], key, dev) ==
            Balance(log, key, dev) + if e == Got(key, dev) then 1 else if e == Given(key, dev) then -1 else 0
  {
    assert (log + [e])[..|log|] == log;
  }

  /** References a device has to a subdevice, if the subdevice is linked. */
  function HeldBy(devs: seq<Sub>, key: nat, dev: int): nat {
    var i := Pos(devs, key);
    if i < 0 then 0 else Refs(devs[i].holders, dev)
  }

  predicate AllClean(devs: seq<Sub>, next: nat) {
    forall i :: 0 <= i < |devs| ==> Clean(devs[i].holders) && devs[i].key < next
  }

  predicate Distinct(devs: seq<Sub>) {
    forall i, j :: 0 <= i < j < |devs| ==> devs[i].key != devs[j].key
  }

  predicate Shape(p: Pool) {
    AllClean(p.devs, p.next) && Distinct(p.devs)
  }

  /** References a device got and did not give back, but no longer has. */
  function Gap(p: Pool, key: nat, dev: int): int {
    Balance(p.log, key, dev) - HeldBy(p.devs, key, dev)
  }

  /** Each count is the gets minus the puts, and a subdevice that is no longer
      linked has been given back by everyone. */
  ghost predicate Sound(p: Pool) {
    Shape(p) && forall key: nat, dev: int :: Gap(p, key, dev) == 0
  }

  /** References that a step takes away behind the back of their owner. */
  function Dropped(p: Pool, s: Step, key: nat, dev: int): nat {
    if s == Kill(key) && key in p.waiting then HeldBy(p.devs, key, dev) else 0
  }

  /** A kill of a waiting remover whose subdevice is still held. */
  predicate Hits(p: Pool, s: Step) {
    s.Kill? && s.key in p.waiting && Pos(p.devs, s.key) >= 0 && p.devs[Pos(p.devs, s.key)].holders != []
  }

  lemma {:induction false} PosIs(devs: seq<Sub>, i: int)
    requires 0 <= i < |devs| && Distinct(devs)
    ensures Pos(devs, devs[i].key) == i
    decreases i
  {
    if i > 0 {
      PosIs(devs[1..], i - 1);
    }
  }

  lemma {:induction false} PosNone(devs: seq<Sub>, key: nat)
    requires Pos(devs, key) < 0
    ensures forall i :: 0 <= i < |devs| ==> devs[i].key != key
    decreases |devs|
  {
    if devs != [] {
      PosNone(devs[1..], key);
      forall i | 0 <= i < |devs| ensures devs[i].key != key {
        if i > 0 {
          assert devs[i] == devs[1..][i - 1];
        }
      }
    }
  }

  lemma {:induction false} PosOutside(devs: seq<Sub>, key: nat)
    requires forall i :: 0 <= i < |devs| ==> devs[i].key != key
    ensures Pos(devs, key) < 0
    decreases |devs|
  {
    if devs != [] {
      PosOutside(devs[1..], key);
    }
  }

  /** New holders for one subdevice. */
  lemma HeldAfter(devs: seq<Sub>, i: int, hs: seq<Holder>, key: nat, dev: int)
    requires 0 <= i < |devs| && Distinct(devs)
    ensures var e := devs[i := devs[i].(holders := hs)];
            && Distinct(e)
            && HeldBy(e, key, dev) == if key == devs[i].key then Refs(hs, dev) else HeldBy(devs, key, dev)
  {
    var e := devs[i := devs[i].(holders := hs)];
    if key == devs[i].key {
      PosIs(e, i);
    } else {
      var j := Pos(devs, key);
      if j >= 0 {
        PosIs(e, j);
      } else {
        PosNone(devs, key);
        PosOutside(e, key);
      }
    }
  }

  lemma HeldWithout(devs: seq<Sub>, i: int, key: nat, dev: int)
    requires 0 <= i < |devs| && Distinct(devs)
    ensures var e := Remove(devs, i);
            && Distinct(e)
            && HeldBy(e, key, dev) == if key == devs[i].key then 0 else HeldBy(devs, key, dev)
  {
    var e := Remove(devs, i);
    var j := Pos(devs, key);
    if key == devs[i].key {
      PosIs(devs, i);
      PosOutside(e, key);
    } else if j < 0 {
      PosNone(devs, key);
      PosOutside(e, key);
    } else {
      assert e[if j < i then j else j - 1] == devs[j];
      PosIs(e, if j < i then j else j - 1);
    }
  }

  lemma HeldNew(devs: seq<Sub>, s: Sub, key: nat, dev: int)
    requires s.holders == [] && forall i :: 0 <= i < |devs| ==> devs[i].key != s.key
    requires Distinct(devs)
    ensures Distinct([s] + devs)
    ensures HeldBy([s] + devs, key, dev) == HeldBy(devs, key, dev)
  {
    var e := [s] + devs;
    assert e[1..] == devs;
    PosOutside(devs, s.key);
  }

  lemma GetGap(p: Pool, i: int, dev: int, key: nat, e: int)
    requires Shape(p) && 0 <= i < |p.devs|
    ensures Shape(GetAt(p, i, dev)) && Gap(GetAt(p, i, dev), key, e) == Gap(p, key, e)
  {
    hide Refs, Hold, Clean, HeldBy, Balance, IndexOf, Pos;
    var s := p.devs[i];
    HeldHere(p.devs, i);
    BalanceGrows(p.log, Got(s.key, dev), key, e);
    HoldCounts(s.holders, dev, e);
    HeldAfter(p.devs, i, Hold(s.holders, dev), key, e);
  }

  lemma HeldHere(devs: seq<Sub>, i: int)
    requires 0 <= i < |devs| && Distinct(devs)
    ensures forall e :: HeldBy(devs, devs[i].key, e) == Refs(devs[i].holders, e)
  {
    PosIs(devs, i);
  }

  lemma PutGap(p: Pool, k: nat, dev: int, key: nat, e: int)
    requires Shape(p)
    ensures Shape(GiveBack(p, k, dev)) && Gap(GiveBack(p, k, dev), key, e) == Gap(p, key, e)
  {
    hide Refs, Release, Clean, Balance, HeldBy, IndexOf, Pos;
    var i := Pos(p.devs, k);
    if i >= 0 {
      var s := p.devs[i];
      EntryIff(s.holders, dev);
      if IndexOf(s.holders, dev) >= 0 {
        HeldHere(p.devs, i);
        BalanceGrows(p.log, Given(k, dev), key, e);
        ReleaseCounts(s.holders, dev, e);
        HeldAfter(p.devs, i, Release(s.holders, dev), key, e);
      }
    }
  }

  lemma CheckGap(p: Pool, k: nat, key: nat, e: int)
    requires Shape(p)
    ensures Shape(Check(p, k)) && Gap(Check(p, k), key, e) == Gap(p, key, e)
  {
    hide Refs, Clean, Balance, Pos, HeldBy;
    var i := Pos(p.devs, k);
    if i >= 0 && p.devs[i].holders == [] {
      HeldHere(p.devs, i);
      BalanceGrows(p.log, Unlinked(k), key, e);
      HeldWithout(p.devs, i, key, e);
      NobodyHolds(p.devs[i].holders, e);
    }
  }

  lemma NobodyHolds(hs: seq<Holder>, e: int)
    requires hs == []
    ensures Refs(hs, e) == 0
  {
  }

  lemma AddGap(p: Pool, id: int, inst: int, key: nat, e: int)
    requires Shape(p)
    ensures Shape(Added(p, id, inst)) && Gap(Added(p, id, inst), key, e) == Gap(p, key, e)
  {
    hide Refs, Balance, HeldBy;
    if !p.closing {
      HeldNew(p.devs, Sub(p.next, id, inst, []), key, e);
    }
  }

  lemma KillGap(p: Pool, k: nat, key: nat, e: int)
    requires Shape(p)
    ensures Shape(Killed(p, k))
    ensures Gap(Killed(p, k), key, e) == Gap(p, key, e) + Dropped(p, Kill(k), key, e)
  {
    hide Refs, Balance, HeldBy, Pos;
    var i := Pos(p.devs, k);
    if k in p.waiting && i >= 0 {
      HeldAfter(p.devs, i, [], key, e);
      NobodyHolds([], e);
    } else if k in p.waiting {
      NotHeld(p.devs, k, e);
    }
  }

  lemma NotHeld(devs: seq<Sub>, key: nat, dev: int)
    requires Pos(devs, key) < 0
    ensures HeldBy(devs, key, dev) == 0
  {
  }

  /** What one step does to the gap of one subdevice and one device. */
  lemma StepGap(p: Pool, s: Step, key: nat, dev: int)
    requires Shape(p)
    ensures Shape(Apply(p, s)) && Gap(Apply(p, s), key, dev) == Gap(p, key, dev) + Dropped(p, s, key, dev)
  {
    hide Shape, Gap, HeldBy, Check, GiveBack;
    match s
    case Add(id, inst) => AddGap(p, id, inst, key, dev);
    case GetStep(k, d) =>
      if Pos(p.devs, k) >= 0 {
        GetGap(p, Pos(p.devs, k), d, key, dev);
      }
    case PutStep(k, d) => PutGap(p, k, d, key, dev);
    case Del(k) => CheckGap(p, k, key, dev);
    case Wake(k) => CheckGap(p, k, key, dev);
    case Kill(k) => KillGap(p, k, key, dev);
  }

  /** Somebody loses references to a hit, and nobody to any other step. */
  lemma DroppedIff(p: Pool, s: Step)
    requires Shape(p)
    ensures Hits(p, s) <==> exists key: nat, dev :: Dropped(p, s, key, dev) > 0
  {
    hide Balance;
    if Hits(p, s) {
      var hs := p.devs[Pos(p.devs, s.key)].holders;
      assert Clean(hs) && IndexOf(hs, hs[0].dev) == 0;
      assert Dropped(p, s, s.key, hs[0].dev) > 0;
    } else {
      forall key: nat, dev ensures Dropped(p, s, key, dev) == 0 {
        if s == Kill(key) && key in p.waiting && Pos(p.devs, key) >= 0 {
          NobodyHolds(p.devs[Pos(p.devs, key)].holders, dev);
        }
      }
    }
  }

  /** A step keeps every count exact if and only if it is not a hit. */
  lemma StepSound(p: Pool, s: Step)
    requires Sound(p)
    ensures Sound(Apply(p, s)) <==> !Hits(p, s)
  {
    hide Shape, Gap, Apply, Dropped, Hits;
    StepGap(p, s, 0, 0);
    DroppedIff(p, s);
    forall key: nat, dev ensures Gap(Apply(p, s), key, dev) == Dropped(p, s, key, dev) {
      StepGap(p, s, key, dev);
      assert Gap(p, key, dev) == 0;
    }
  }

  /** References lost in the course of a run. */
  function Lost(p: Pool, steps: seq<Step>, key: nat, dev: int): nat
    decreases |steps|
  {
    if steps == [] then 0 else Dropped(p, steps[0], key, dev) + Lost(Apply(p, steps[0]), steps[1..], key, dev)
  }

  /** No step of the run is a hit. */
  predicate Spared(p: Pool, steps: seq<Step>)
    decreases |steps|
  {
    steps == [] || (!Hits(p, steps[0]) && Spared(Apply(p, steps[0]), steps[1..]))
  }

  lemma {:induction false} RunGap(p: Pool, steps: seq<Step>, key: nat, dev: int)
    requires Shape(p)
    ensures Shape(Run(p, steps)) && Gap(Run(p, steps), key, dev) == Gap(p, key, dev) + Lost(p, steps, key, dev)
    decreases |steps|
  {
    hide Shape, Gap, Apply, Dropped;
    if steps != [] {
      StepGap(p, steps[0], key, dev);
      RunGap(Apply(p, steps[0]), steps[1..], key, dev);
    }
  }

  /** Over every interleaving of adds, gets, puts, removals and kills, although the
      remover drops the lock while it waits: at the end counts are exact, and what
      was unlinked had been given back by everyone, if and only if no kill hit a
      remover whose subdevice was still held. No later step repairs a hit. */
  lemma {:induction false} RunSound(p: Pool, steps: seq<Step>)
    requires Sound(p)
    ensures Sound(Run(p, steps)) <==> Spared(p, steps)
    decreases |steps|
  {
    hide Shape, Gap, Apply, Dropped, Hits;
    if steps != [] {
      var s, q := steps[0], Apply(p, steps[0]);
      StepSound(p, s);
      if Hits(p, s) {
        DroppedIff(p, s);
        var key: nat, dev :| Dropped(p, s, key, dev) > 0;
        RunGap(p, steps, key, dev);
        assert Gap(p, key, dev) == 0 && Gap(Run(p, steps), key, dev) > 0;
      } else {
        RunSound(q, steps[1..]);
      }
    }
  }

  /** Said of one subdevice and one device, from the start, for every run: the
      count is the gets minus the puts minus what kills took away, and there is an
      entry exactly if that is positive. */
  lemma CountsAreExact(steps: seq<Step>, key: nat, dev: int)
    ensures var p := Run(EMPTY_POOL, steps);
            var i := Pos(p.devs, key);
            var rest := Balance(p.log, key, dev) - Lost(EMPTY_POOL, steps, key, dev);
            if i < 0 then rest == 0
            else Refs(p.devs[i].holders, dev) == rest && (IndexOf(p.devs[i].holders, dev) >= 0 <==> rest > 0)
  {
    hide Apply, Balance, Run, Lost;
    RunGap(EMPTY_POOL, steps, key, dev);
    var p := Run(EMPTY_POOL, steps);
    assert Gap(EMPTY_POOL, key, dev) == 0 by {
      EmptySound();
    }
    if Pos(p.devs, key) >= 0 {
      EntryIff(p.devs[Pos(p.devs, key)].holders, dev);
    }
  }

  lemma EmptySound()
    ensures Sound(EMPTY_POOL)
  {
  }

  /** The moment of unlinking, from any state: nobody holds the subdevice. */
  lemma UnlinkedUnheld(p: Pool, s: Step, key: nat, dev: int)
    requires Sound(p) && Pos(p.devs, key) >= 0 && Pos(Apply(p, s).devs, key) < 0
    ensures HeldBy(p.devs, key, dev) == 0 && Balance(p.log, key, dev) == 0
  {
    hide Balance, Clean, Hold, Release;
    assert Gap(p, key, dev) == 0;
    match s
    case Add(_, _) =>
    case GetStep(k, d) =>
      StillThere(p.devs, k, key, if Pos(p.devs, k) < 0 then [] else Hold(p.devs[Pos(p.devs, k)].holders, d));
    case PutStep(k, d) =>
      StillThere(p.devs, k, key, if Pos(p.devs, k) < 0 then [] else Release(p.devs[Pos(p.devs, k)].holders, d));
    case Kill(k) => StillThere(p.devs, k, key, []);
    case Del(k) => GoneByCheck(p, k, key, dev);
    case Wake(k) => GoneByCheck(p, k, key, dev);
  }

  lemma StillThere(devs: seq<Sub>, k: nat, key: nat, hs: seq<Holder>)
    requires Distinct(devs) && Pos(devs, key) >= 0
    ensures Pos(devs, k) >= 0 ==> Pos(devs[Pos(devs, k) := devs[Pos(devs, k)].(holders := hs)], key) >= 0
  {
    if Pos(devs, k) >= 0 {
      var e := devs[Pos(devs, k) := devs[Pos(devs, k)].(holders := hs)];
      HeldAfter(devs, Pos(devs, k), hs, key, 0);
      assert e[Pos(devs, key)].key == key;
      PosIs(e, Pos(devs, key));
    }
  }

  lemma GoneByCheck(p: Pool, k: nat, key: nat, dev: int)
    requires Sound(p) && Pos(p.devs, key) >= 0 && Pos(Check(p, k).devs, key) < 0
    ensures HeldBy(p.devs, key, dev) == 0
  {
    var i, j := Pos(p.devs, k), Pos(p.devs, key);
    if k != key {
      var e := Remove(p.devs, i);
      HeldWithout(p.devs, i, key, dev);
      assert e[if j < i then j else j - 1] == p.devs[j];
      PosIs(e, if j < i then j else j - 1);
      assert false;
    }
  }

  /** A kill signal breaks it: the subdevice goes while a device still counts on
      its reference. */
  lemma KillUnlinksHeld()
    ensures var p := Run(EMPTY_POOL, [Add(1, 0), GetStep(0, 7), Del(0), Kill(0), Wake(0)]);
            p.devs == [] && Balance(p.log, 0, 7) == 1
  {
    var a := Apply(EMPTY_POOL, Add(1, 0));
    assert a == Pool([Sub(0, 1, 0, [])], false, {}, 1, []);
    var b := Apply(a, GetStep(0, 7));
    assert Hold([], 7) == [Holder(7, 1)];
    assert b == Pool([Sub(0, 1, 0, [Holder(7, 1)])], false, {}, 1, [Got(0, 7)]);
    var c := Apply(b, Del(0));
    assert c == b.(waiting := {0});
    var d := Apply(c, Kill(0));
    assert d == c.(devs := [Sub(0, 1, 0, [])]);
    var e := Apply(d, Wake(0));
    assert e == Pool([], false, {}, 1, [Got(0, 7), Unlinked(0)]);
    var steps := [Add(1, 0), GetStep(0, 7), Del(0), Kill(0), Wake(0)];
    assert steps[1..] == [GetStep(0, 7), Del(0), Kill(0), Wake(0)];
    assert steps[1..][1..] == [Del(0), Kill(0), Wake(0)];
    assert steps[1..][1..][1..] == [Kill(0), Wake(0)];
    assert steps[1..][1..][1..][1..] == [Wake(0)];
    assert Run(EMPTY_POOL, steps) == Run(a, steps[1..]) == Run(b, steps[1..][1..]) == Run(c, steps[1..][1..][1..])
        == Run(d, [Wake(0)]);
    assert [Wake(0)][1..] == [];
    assert Run(d, [Wake(0)]) == Run(e, []) == e;
    BalanceGrows([Got(0, 7)], Unlinked(0), 0, 7);
    BalanceGrows([], Got(0, 7), 0, 7);
    assert [] + [Got(0, 7)] == [Got(0, 7)] && [Got(0, 7)] + [Unlinked(0)] == e.log;
  }

  // ---- the pool object ------------------------------------------------------------------

  /** Where XRT_SUBDEV_MATCH_PREV and MATCH_NEXT lead, or -1: next is towards the
      oldest. Without a starting point they mean the last and the first entry. */
  function Neighbor(devs: seq<Sub>, prev: bool, at: Option<nat>): (i: int)
    ensures -1 <= i < |devs|
  {
    match at
    case None => if devs == [] then -1 else if prev then |devs| - 1 else 0
    case Some(key) =>
      var j := Pos(devs, key);
      if j < 0 then -1
      else if prev then j - 1
      else if j + 1 < |devs| then j + 1 else -1
  }

  predicate IsKind(s: Sub, id: int, inst: int) {
    s.id == id && s.inst == inst
  }

  /** The first subdevice of that kind and instance, which is the one removed. */
  function Match(devs: seq<Sub>, id: int, inst: int): (i: int)
    ensures -1 <= i < |devs|
    ensures i >= 0 ==> IsKind(devs[i], id, inst)
    ensures forall j :: 0 <= j < (if i < 0 then |devs| else i) ==> !IsKind(devs[j], id, inst)
  {
    if devs == [] then -1
    else if IsKind(devs[0], id, inst) then 0
    else var r := Match(devs[1..], id, inst); if r < 0 then -1 else r + 1
  }

  /** The last one, which is the one a get returns: its loop has no break. */
  function LastMatch(devs: seq<Sub>, id: int, inst: int): (i: int)
    ensures -1 <= i < |devs|
    ensures i >= 0 ==> IsKind(devs[i], id, inst)
    ensures forall j :: i < j < |devs| ==> !IsKind(devs[j], id, inst)
  {
    if devs == [] then -1
    else if IsKind(devs[|devs| - 1], id, inst) then |devs| - 1
    else LastMatch(devs[..|devs| - 1], id, inst)
  }

  /** Removal and get mean the same subdevice exactly if no two answer. */
  lemma SameMatchIff(devs: seq<Sub>, id: int, inst: int)
    ensures Match(devs, id, inst) == LastMatch(devs, id, inst) <==>
            forall i, j :: 0 <= i < j < |devs| ==> !(IsKind(devs[i], id, inst) && IsKind(devs[j], id, inst))
  {
    var i, j := Match(devs, id, inst), LastMatch(devs, id, inst);
    if i != j {
      assert i < j && IsKind(devs[i], id, inst) && IsKind(devs[j], id, inst);
    }
  }

  function Keys(devs: seq<Sub>): seq<nat> {
    seq(|devs|, i requires 0 <= i < |devs| => devs[i].key)
  }

  /** Getting and putting back leaves no trace among the holders. */
  lemma {:induction false} HoldRelease(hs: seq<Holder>, dev: int)
    requires Clean(hs)
    ensures Release(Hold(hs, dev), dev) == hs
    decreases |hs|
  {
    if hs == [] {
      assert Hold(hs, dev) == [Holder(dev, 1)];
    } else {
      hide Hold, Release, Refs, IndexOf, Clean;
      var h, t := hs[0], hs[1..];
      assert hs == [h] + t;
      HoldIs(h, t, dev);
      ConsIs(h, t, dev);
      if h.dev == dev {
        ReleaseIs(Holder(dev, h.refs + 1), t, dev);
      } else {
        HoldRelease(t, dev);
        ReleaseIs(h, Hold(t, dev), dev);
      }
    }
  }

  class SubdevPool {
    var devs: seq<Sub>
    var closing: bool
    // stands for the addresses new subdevices get
    var next: nat
    ghost var waiting: set<nat>
    ghost var log: seq<Event>

    constructor ()
      ensures Abs() == EMPTY_POOL
    {
      devs, closing, next, waiting, log := [], false, 0, {}, [];
    }

    ghost function Abs(): Pool
      reads this
    {
      Pool(devs, closing, waiting, next, log)
    }

    /** xrt_subdev_pool_add; made tells whether the subdevice could be created. */
    method Add(id: int, inst: int, made: bool) returns (ret: int)
      requires inst >= 0
      modifies this
      ensures Abs() == if made then Added(old(Abs()), id, inst) else old(Abs())
      ensures ret == if !made then EINVAL else if old(closing) then ENODEV else inst
    {
      if !made {
        return EINVAL;
      }
      if closing {
        return ENODEV;
      }
      devs := [Sub(next, id, inst, [])] + devs;
      next := next + 1;
      return inst;
    }

    /** xrt_subdev_find_holder */
    method FindHolder(i: nat, dev: int) returns (h: int)
      requires i < |devs|
      ensures h == IndexOf(devs[i].holders, dev)
    {
      var hs := devs[i].holders;
      h := 0;
      while h < |hs|
        invariant 0 <= h <= |hs|
        invariant IndexOf(hs, dev) == (var r := IndexOf(hs[h..], dev); if r < 0 then -1 else r + h)
      {
        assert hs[h..][1..] == hs[h + 1..];
        if hs[h].dev == dev {
          return;
        }
        h := h + 1;
      }
      h := -1;
    }

    /** xrt_subdev_hold */
    method HoldSub(i: nat, dev: int)
      requires i < |devs|
      modifies this
      ensures Abs() == GetAt(old(Abs()), i, dev)
    {
      var s := devs[i];
      var h := FindHolder(i, dev);
      if h < 0 {
        s := s.(holders := s.holders + [Holder(dev, 1)]);
      } else {
        s := s.(holders := s.holders[h := Holder(dev, s.holders[h].refs + 1)]);
      }
      devs := devs[i := s];
      log := log + [Got(s.key, dev)];
    }

    method FindKey(key: nat) returns (i: int)
      ensures i == Pos(devs, key)
    {
      i := 0;
      while i < |devs|
        invariant 0 <= i <= |devs|
        invariant Pos(devs, key) == (var r := Pos(devs[i..], key); if r < 0 then -1 else r + i)
      {
        assert devs[i..][1..] == devs[i + 1..];
        if devs[i].key == key {
          return;
        }
        i := i + 1;
      }
      i := -1;
    }

    /** xrt_subdev_pool_get with MATCH_PREV or MATCH_NEXT. */
    method GetNeighbor(prev: bool, at: Option<nat>, dev: int) returns (ret: int, key: nat)
      modifies this
      ensures var i := Neighbor(old(devs), prev, at);
              if i < 0 then ret == ENOENT && Abs() == old(Abs())
              else ret == 0 && key == old(devs)[i].key && Abs() == GetAt(old(Abs()), i, dev)
    {
      key := 0;
      var i := -1;
      if at.None? {
        if devs != [] {
          i := if prev then |devs| - 1 else 0;
        }
      } else {
        var j := FindKey(at.value);
        if j >= 0 {
          i := if prev then j - 1 else if j + 1 < |devs| then j + 1 else -1;
        }
      }
      if i < 0 {
        return ENOENT, key;
      }
      key := devs[i].key;
      HoldSub(i, dev);
      ret := 0;
    }

    /** xrt_subdev_pool_get with a match on kind and instance. */
    method GetMatch(id: int, inst: int, dev: int) returns (ret: int, key: nat)
      modifies this
      ensures var i := LastMatch(old(devs), id, inst);
              if i < 0 then ret == ENOENT && Abs() == old(Abs())
              else ret == 0 && key == old(devs)[i].key && Abs() == GetAt(old(Abs()), i, dev)
    {
      key := 0;
      var i := FindLast(id, inst);
      if i < 0 {
        return ENOENT, key;
      }
      key := devs[i].key;
      HoldSub(i, dev);
      ret := 0;
    }

    /** The loop of xrt_subdev_pool_get_impl for such a match. */
    method FindLast(id: int, inst: int) returns (i: int)
      ensures i == LastMatch(devs, id, inst)
    {
      i := -1;
      var j := 0;
      while j < |devs|
        invariant 0 <= j <= |devs|
        invariant i == LastMatch(devs[..j], id, inst)
      {
        assert devs[..j + 1][..j] == devs[..j];
        if IsKind(devs[j], id, inst) {
          i := j;
        }
        j := j + 1;
      }
      assert devs[..j] == devs;
    }

    method FindMatch(id: int, inst: int) returns (i: int)
      ensures i == Match(devs, id, inst)
    {
      i := 0;
      while i < |devs|
        invariant 0 <= i <= |devs|
        invariant Match(devs, id, inst) == (var r := Match(devs[i..], id, inst); if r < 0 then -1 else r + i)
      {
        assert devs[i..][1..] == devs[i + 1..];
        if IsKind(devs[i], id, inst) {
          return;
        }
        i := i + 1;
      }
      i := -1;
    }

    /** xrt_subdev_pool_put; the result tells whether the caller was a holder. */
    method PutSub(key: nat, dev: int) returns (ret: int)
      modifies this
      ensures Abs() == GiveBack(old(Abs()), key, dev)
      ensures ret == (if Pos(old(devs), key) < 0 then ENOENT
                      else if IndexOf(old(devs)[Pos(old(devs), key)].holders, dev) < 0 then EINVAL else 0)
    {
      var i := FindKey(key);
      if i < 0 {
        return ENOENT;
      }
      var h := FindHolder(i, dev);
      if h < 0 {
        return EINVAL;
      }
      var s := devs[i];
      if s.holders[h].refs <= 1 {
        s := s.(holders := Remove(s.holders, h));
      } else {
        s := s.(holders := s.holders[h := Holder(dev, s.holders[h].refs - 1)]);
      }
      devs := devs[i := s];
      log := log + [Given(key, dev)];
      return 0;
    }

    /** xrt_subdev_pool_del up to the point where it would wait; waits tells
        whether it does. */
    method DelFrom(id: int, inst: int) returns (ret: int, waits: bool)
      requires Distinct(devs)
      modifies this
      ensures var i := Match(old(devs), id, inst);
              if old(closing) then ret == 0 && !waits && Abs() == old(Abs())
              else if i < 0 then ret == ENOENT && !waits && Abs() == old(Abs())
              else ret == 0 && waits == (old(devs)[i].holders != []) && Abs() == Check(old(Abs()), old(devs)[i].key)
    {
      if closing {
        return 0, false;
      }
      var i := FindMatch(id, inst);
      if i < 0 {
        return ENOENT, false;
      }
      PosIs(devs, i);
      var s := devs[i];
      if s.holders != [] {
        waiting := waiting + {s.key};
        return 0, true;
      }
      devs := Remove(devs, i);
      log := log + [Unlinked(s.key)];
      waiting := waiting - {s.key};
      return 0, false;
    }

    /** xrt_subdev_pool_handle_event, while nobody adds or removes: every
        subdevice sees the event once, the newest first, and is not held after. */
    method HandleEvent(owner: int) returns (seen: seq<nat>)
      requires Sound(Abs())
      modifies this
      ensures Sound(Abs()) && Abs() == old(Abs()).(log := log)
      ensures Unlinks(log) == Unlinks(old(log))
      ensures seen == Keys(devs)
    {
      hide Balance, Refs, Hold, Release, Clean, Unlinks, Sound, Pos, GetAt, GiveBack;
      seen := [];
      ghost var p0, n := Abs(), 0;
      FirstNeighbor(devs);
      GotOne(p0, 0, owner);
      var ret, tgt := GetNeighbor(false, None, owner);
      while ret == 0
        invariant 0 <= n <= |p0.devs| && (ret == 0 || ret == ENOENT)
        invariant ret == 0 <==> n < |p0.devs|
        invariant Sound(Abs())
        invariant if n < |p0.devs| then Holding(p0, Abs(), n, owner) && tgt == p0.devs[n].key
                  else Abs() == p0.(log := log)
        invariant Unlinks(log) == Unlinks(p0.log)
        invariant seen == Keys(p0.devs[..n])
        decreases |p0.devs| - n
      {
        seen := seen + [tgt];
        assert seen == Keys(p0.devs[..n + 1]);
        CleanAt(p0, n);
        GaveOne(p0, Abs(), n, owner);
        var r := PutSub(tgt, owner);
        NextNeighbor(p0.devs, n);
        GotOne(Abs(), n + 1, owner);
        n := n + 1;
        ret, tgt := GetNeighbor(false, Some(tgt), owner);
      }
      assert p0.devs[..n] == p0.devs;
    }
  }

  lemma FirstNeighbor(devs: seq<Sub>)
    ensures Neighbor(devs, false, None) == if devs == [] then -1 else 0
  {
  }

  lemma NextNeighbor(devs: seq<Sub>, i: int)
    requires 0 <= i < |devs| && Distinct(devs)
    ensures Neighbor(devs, false, Some(devs[i].key)) == if i + 1 < |devs| then i + 1 else -1
    ensures Neighbor(devs, true, Some(devs[i].key)) == i - 1
  {
    PosIs(devs, i);
  }

  /** q is p with one more reference of dev to the i-th subdevice. */
  ghost predicate Holding(p: Pool, q: Pool, i: int, dev: int) {
    && 0 <= i < |p.devs|
    && q == p.(devs := p.devs[i := p.devs[i].(holders := Hold(p.devs[i].holders, dev))], log := q.log)
  }

  lemma GotOne(p: Pool, i: int, dev: int)
    requires Sound(p)
    ensures 0 <= i < |p.devs| ==>
      && Sound(GetAt(p, i, dev)) && Holding(p, GetAt(p, i, dev), i, dev)
      && Unlinks(GetAt(p, i, dev).log) == Unlinks(p.log)
    ensures Distinct(p.devs)
  {
    hide Balance, Refs, Hold, Clean;
    if 0 <= i < |p.devs| {
      PosIs(p.devs, i);
      StepSound(p, GetStep(p.devs[i].key, dev));
      UnlinksGrow(p.log, Got(p.devs[i].key, dev));
    }
  }

  lemma CleanAt(p: Pool, i: int)
    requires Sound(p) && 0 <= i < |p.devs|
    ensures Clean(p.devs[i].holders) && Distinct(p.devs)
  {
  }

  /** Giving it back restores the pool. */
  lemma GaveOne(p: Pool, q: Pool, i: int, dev: int)
    requires Sound(q) && Holding(p, q, i, dev) && Clean(p.devs[i].holders) && Distinct(p.devs)
    ensures var r := GiveBack(q, p.devs[i].key, dev);
            Sound(r) && r == p.(log := r.log) && Unlinks(r.log) == Unlinks(q.log)
  {
    hide Balance, Refs, Hold, Release, Clean, HeldBy;
    var s := p.devs[i];
    PosIs(q.devs, i);
    HoldCounts(s.holders, dev, dev);
    HoldRelease(s.holders, dev);
    StepSound(q, PutStep(s.key, dev));
    UnlinksGrow(q.log, Given(s.key, dev));
    var r := GiveBack(q, s.key, dev);
    assert r.devs == p.devs;
  }

  lemma UnlinksGrow(log: seq<Event>, e: Event)
    ensures Unlinks(log + [e]) == Unlinks(log) + if e.Unlinked? then [e.key] else []
  {
    assert (log + [e])[..|log|] == log;
  }

  /** Keys in the order in which they were unlinked. */
  function Unlinks(log: seq<Event>): seq<nat> {
    if log == [] then []
    else
      var e := log[|log| - 1];
      Unlinks(log[..|log| - 1]) + if e.Unlinked? then [e.key] else []
  }
}
