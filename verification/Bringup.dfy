/** xroot.c: bringing up groups in the background while more are created, as
    steps of creators, of the one worker and of others that hold groups. */
module Bringup {
  import opened FdtTree
  import Subdev
  import Xroot

  /** Where xroot_bringup_group_work is: not running, about to look for the next
      group after the given one, holding a group, about to put it back after its
      initialisation, which some leaf may have failed, or past that with a pending
      count it has not dropped yet. */
  datatype Worker =
    | Idle
    | Walking(at: Option<nat>)
    | Visiting(group: nat)
    | Leaving(group: nat, isNew: bool, bad: bool)
    | Finishing(group: nat)

  /** adding: creations between counting and joining the pool; joined: creations
      that still have to schedule the work; counting: failed creations that are no
      longer pending and not yet counted as failed; signalled: bringup_comp was
      completed when the counter last became zero, and it is still zero. */
  datatype State = State(pool: Subdev.Pool, adding: nat, joined: nat, scheduled: bool, worker: Worker,
                         created: set<nat>, inits: seq<nat>, pending: int, counting: nat, failed: nat, signalled: bool)

  const BOOT: State := State(Subdev.EMPTY_POOL, 0, 0, false, Idle, {}, [], 0, 0, 0, false)

  datatype Step =
    | Announce
    | Join(inst: int)
    | Fail
    | Count
    | Schedule
    | Start
    | Take
    | Init(ok: bool)
    | Put
    | Drop
    | Others(s: Subdev.Step)

  function Apply(s: State, step: Step): State {
    match step
    // xroot_create_group; Fail and Count are for a group that could not be created
    case Announce => s.(adding := s.adding + 1, pending := s.pending + 1, signalled := false)
    case Join(inst) =>
      if s.adding == 0 then s
      else s.(adding := s.adding - 1, joined := s.joined + 1, pool := Subdev.Added(s.pool, Xroot.GRP, inst))
    case Fail =>
      if s.adding == 0 then s
      else s.(adding := s.adding - 1, pending := s.pending - 1, counting := s.counting + 1)
    case Count => if s.counting == 0 then s else s.(counting := s.counting - 1, failed := s.failed + 1)
    case Schedule => if s.joined == 0 then s else s.(joined := s.joined - 1, scheduled := true)
    // the work queue
    case Start => if s.scheduled && s.worker.Idle? then s.(scheduled := false, worker := Walking(None)) else s
    // xroot_bringup_group_work
    case Take =>
      if !s.worker.Walking? then s
      else
        // XROOT_GROUP_FIRST
        var i := Subdev.Neighbor(s.pool.devs, true, s.worker.at);
        if i < 0 then s.(worker := Idle)
        else s.(pool := Subdev.GetAt(s.pool, i, Xroot.ROOT), worker := Visiting(s.pool.devs[i].key))
    case Init(ok) =>
      if !s.worker.Visiting? then s
      else
        var g := s.worker.group;
        // XRT_GROUP_INIT_CHILDREN answers EEXIST for a group that has its leaves
        if g in s.created then s.(worker := Leaving(g, false, false))
        else s.(created := s.created + {g}, inits := s.inits + [g], worker := Leaving(g, true, !ok))
    case Put =>
      if !s.worker.Leaving? then s
      else
        var g := s.worker.group;
        s.(pool := Subdev.GiveBack(s.pool, g, Xroot.ROOT),
           worker := if s.worker.isNew then Finishing(g) else Walking(Some(g)),
           failed := s.failed + if s.worker.bad then 1 else 0)
    case Drop =>
      if !s.worker.Finishing? then s
      else
        // atomic_dec_and_test
        s.(pending := s.pending - 1, worker := Walking(Some(s.worker.group)), signalled := s.pending - 1 == 0)
    // anybody who takes or puts back a hold
    case Others(t) => if t.GetStep? || t.PutStep? then s.(pool := Subdev.Apply(s.pool, t)) else s
  }

  function Run(s: State, steps: seq<Step>): State
    decreases |steps|
  {
    if steps == [] then s else Run(Apply(s, steps[0]), steps[1..])
  }

  /** The groups of the pool, the oldest first. */
  function Oldest(devs: seq<Subdev.Sub>): seq<nat> {
    seq(|devs|, i requires 0 <= i < |devs| => devs[|devs| - 1 - i].key)
  }

  /** Groups that are completely brought up. */
  function Ready(s: State): int {
    |s.inits| - if s.worker.Finishing? || (s.worker.Leaving? && s.worker.isNew) then 1 else 0
  }

  /** The newest group comes first in the list. */
  predicate Listed(p: Subdev.Pool) {
    !p.closing && p.next == |p.devs| && forall i :: 0 <= i < |p.devs| ==> p.devs[i].key == |p.devs| - 1 - i
  }

  predicate PlaceOk(s: State) {
    match s.worker
    case Idle => |s.inits| < |s.pool.devs| ==> s.scheduled || s.joined > 0
    case Walking(at) => at.Some? ==> at.value < |s.inits|
    case Visiting(g) => g <= |s.inits| && g < |s.pool.devs|
    case Leaving(g, isNew, bad) => g < |s.inits| && (isNew ==> g + 1 == |s.inits|) && (bad ==> isNew)
    case Finishing(g) => g + 1 == |s.inits|
  }

  /** In every state: the initialised groups are the oldest of the list, once each,
      in the order of the list; the counter is the groups announced but not fully
      brought up; and a group that is not initialised has a walk ahead of it. */
  ghost predicate Ordered(s: State) {
    && Listed(s.pool) && |s.inits| <= |s.pool.devs|
    && (forall i :: 0 <= i < |s.inits| ==> s.inits[i] == i)
    && (forall g: nat :: g in s.created <==> g < |s.inits|)
    && s.pending == s.adding + |s.pool.devs| - Ready(s)
    && (s.signalled ==> s.pending == 0)
    && PlaceOk(s)
  }

  /** Holds change neither the groups nor their order. */
  lemma HoldsListed(p: Subdev.Pool, t: Subdev.Step)
    requires Listed(p) && (t.GetStep? || t.PutStep?)
    ensures var q := Subdev.Apply(p, t); Listed(q) && |q.devs| == |p.devs|
  {
    hide Subdev.Hold, Subdev.Release, Subdev.IndexOf, Subdev.Pos;
  }

  lemma ListedPos(devs: seq<Subdev.Sub>, key: nat)
    requires forall i :: 0 <= i < |devs| ==> devs[i].key == |devs| - 1 - i
    ensures Subdev.Pos(devs, key) == if key < |devs| then |devs| - 1 - key else -1
  {
    if key < |devs| {
      Subdev.PosIs(devs, |devs| - 1 - key);
    } else {
      Subdev.PosOutside(devs, key);
    }
  }

  /** XROOT_GROUP_FIRST leads to the oldest group, then to the next newer one. */
  lemma NextGroup(p: Subdev.Pool, at: Option<nat>)
    requires Listed(p)
    ensures var g := if at.None? then 0 else at.value + 1;
            var i := Subdev.Neighbor(p.devs, true, at);
            if i < 0 then at.Some? && at.value < |p.devs| ==> g == |p.devs| else p.devs[i].key == g && g < |p.devs|
    ensures at.None? ==> (Subdev.Neighbor(p.devs, true, at) < 0 <==> p.devs == [])
  {
    if at.Some? {
      ListedPos(p.devs, at.value);
    }
  }

  lemma TakeOrdered(s: State)
    requires Ordered(s) && s.worker.Walking?
    ensures Ordered(Apply(s, Take))
  {
    hide Subdev.Neighbor, Subdev.Hold;
    NextGroup(s.pool, s.worker.at);
  }

  lemma PutOrdered(s: State)
    requires Ordered(s) && s.worker.Leaving?
    ensures Ordered(Apply(s, Put))
  {
    HoldsListed(s.pool, Subdev.PutStep(s.worker.group, Xroot.ROOT));
    assert Subdev.Apply(s.pool, Subdev.PutStep(s.worker.group, Xroot.ROOT)) ==
           Subdev.GiveBack(s.pool, s.worker.group, Xroot.ROOT);
    hide Subdev.GiveBack, Subdev.Apply, Listed;
  }

  lemma StepOrdered(s: State, step: Step)
    requires Ordered(s)
    ensures Ordered(Apply(s, step))
  {
    hide Subdev.Neighbor, Subdev.GetAt, Subdev.GiveBack, Subdev.Apply;
    match step
    case Take =>
      if s.worker.Walking? {
        TakeOrdered(s);
      }
    case Init(_) =>
      if s.worker.Visiting? {
        var t := Apply(s, step);
        assert forall i :: 0 <= i < |t.inits| ==> t.inits[i] == i;
      }
    case Put =>
      if s.worker.Leaving? {
        PutOrdered(s);
      }
    case Others(t) =>
      if t.GetStep? || t.PutStep? {
        HoldsListed(s.pool, t);
      }
    case _ =>
  }

  lemma {:induction false} RunOrdered(s: State, steps: seq<Step>)
    requires Ordered(s)
    ensures Ordered(Run(s, steps))
    decreases |steps|
  {
    hide Ordered, Apply;
    if steps != [] {
      StepOrdered(s, steps[0]);
      RunOrdered(Apply(s, steps[0]), steps[1..]);
    }
  }

  lemma BootOrdered()
    ensures Ordered(BOOT)
  {
  }

  predicate Quiescent(s: State) {
    s.adding == 0 && s.joined == 0 && s.counting == 0 && !s.scheduled && s.worker.Idle?
  }

  lemma OrderedMeans(s: State)
    requires Ordered(s)
    ensures Quiescent(s) ==> s.pending == 0 && s.inits == Oldest(s.pool.devs)
    ensures |s.inits| <= |s.pool.devs| && s.inits == Oldest(s.pool.devs)[..|s.inits|]
    ensures s.pending == s.adding + |s.pool.devs| - Ready(s) && s.pending >= 0
    ensures s.pending == 0 <==> s.adding == 0 && Ready(s) == |s.pool.devs|
  {
  }

  /** Over every interleaving, also with groups created and held by others during
      the walk: the pending counter is the groups announced but not fully brought
      up; the groups initialised so far are the oldest of the list, in its order;
      and when nothing is under way any more, every group of the list was
      initialised exactly once and the counter is zero. */
  lemma AllBroughtUp(steps: seq<Step>)
    ensures var s := Run(BOOT, steps);
            && (Quiescent(s) ==> s.pending == 0 && s.inits == Oldest(s.pool.devs))
            && |s.inits| <= |s.pool.devs| && s.inits == Oldest(s.pool.devs)[..|s.inits|]
            && s.pending == s.adding + |s.pool.devs| - Ready(s) && s.pending >= 0
            && (s.pending == 0 <==> s.adding == 0 && Ready(s) == |s.pool.devs|)
  {
    hide Apply, Run, Ordered, Ready, Oldest;
    BootOrdered();
    RunOrdered(BOOT, steps);
    OrderedMeans(Run(BOOT, steps));
  }

  // ---- the completion -----------------------------------------------------------------------

  predicate Lowers(s: State, step: Step) {
    Apply(s, step).pending < s.pending
  }

  /** The last step of a run that lowered the counter. */
  function LastLowering(s: State, steps: seq<Step>): Option<Step>
    decreases |steps|
  {
    if steps == [] then None
    else
      var later := LastLowering(Apply(s, steps[0]), steps[1..]);
      if later.Some? then later else if Lowers(s, steps[0]) then Some(steps[0]) else None
  }

  lemma StepSignals(s: State, step: Step)
    requires Ordered(s)
    ensures var t := Apply(s, step);
            && (Lowers(s, step) ==> step == Drop || step == Fail)
            && (Lowers(s, step) && t.pending == 0 ==> (t.signalled <==> step == Drop))
            && (!Lowers(s, step) && t.pending == 0 ==> s.pending == 0 && t.signalled == s.signalled)
            && (!Lowers(s, step) ==> t.pending - s.pending >= t.adding + |t.pool.devs| - s.adding - |s.pool.devs|)
  {
    hide Subdev.Neighbor, Subdev.GetAt, Subdev.GiveBack, Subdev.Apply, Listed, PlaceOk;
    StepOrdered(s, step);
    if step.Others? && (step.s.GetStep? || step.s.PutStep?) {
      HoldsCount(s.pool, step.s);
    }
    if step.Take? && s.worker.Walking? && Subdev.Neighbor(s.pool.devs, true, s.worker.at) >= 0 {
      var i := Subdev.Neighbor(s.pool.devs, true, s.worker.at);
      GetCount(s.pool, i);
    }
    if step.Put? && s.worker.Leaving? {
      HoldsCount(s.pool, Subdev.PutStep(s.worker.group, Xroot.ROOT));
      PutIs(s.pool, s.worker.group);
    }
  }

  lemma HoldsCount(p: Subdev.Pool, t: Subdev.Step)
    requires t.GetStep? || t.PutStep?
    ensures |Subdev.Apply(p, t).devs| == |p.devs|
  {
    hide Subdev.Hold, Subdev.Release, Subdev.IndexOf, Subdev.Pos;
  }

  lemma GetCount(p: Subdev.Pool, i: int)
    requires 0 <= i < |p.devs|
    ensures |Subdev.GetAt(p, i, Xroot.ROOT).devs| == |p.devs|
  {
  }

  lemma PutIs(p: Subdev.Pool, g: nat)
    ensures Subdev.Apply(p, Subdev.PutStep(g, Xroot.ROOT)) == Subdev.GiveBack(p, g, Xroot.ROOT)
  {
  }

  lemma {:induction false} RunSignals(s: State, steps: seq<Step>)
    requires Ordered(s)
    ensures var t, l := Run(s, steps), LastLowering(s, steps);
            && (t.pending == 0 ==> (t.signalled <==> if l.Some? then l == Some(Drop) else s.signalled))
            && (l == None ==> t.pending - s.pending >= t.adding + |t.pool.devs| - s.adding - |s.pool.devs|)
            && (l.Some? ==> l.value == Drop || l.value == Fail)
            && (l == None && t.pending == 0 ==> s.pending == 0)
    decreases |steps|
  {
    hide Ordered, Apply;
    if steps != [] {
      StepOrdered(s, steps[0]);
      StepSignals(s, steps[0]);
      RunSignals(Apply(s, steps[0]), steps[1..]);
    }
  }

  /** Over every interleaving: when the counter is zero, xroot_wait_for_bringup has been
      woken for it if and only if the worker lowered it last. A creation that failed
      last leaves its caller waiting. */
  lemma SignalledIff(steps: seq<Step>)
    ensures var s := Run(BOOT, steps);
            s.pending == 0 ==> (s.signalled <==> LastLowering(BOOT, steps) == Some(Drop))
  {
    BootOrdered();
    RunSignals(BOOT, steps);
  }

  lemma {:induction false} NoFailLowers(s: State, steps: seq<Step>)
    requires Fail !in steps
    ensures LastLowering(s, steps) != Some(Fail)
    decreases |steps|
  {
    hide Apply;
    if steps != [] {
      NoFailLowers(Apply(s, steps[0]), steps[1..]);
    }
  }

  /** So without a failed creation it has been woken once every group is up. */
  lemma SignalledWithoutFail(steps: seq<Step>)
    requires Fail !in steps
    ensures var s := Run(BOOT, steps); s.pending == 0 && s.pool.devs != [] ==> s.signalled
  {
    hide Run, LastLowering, Apply, Ordered;
    BootOrdered();
    RunSignals(BOOT, steps);
    NoFailLowers(BOOT, steps);
  }

  lemma {:induction false} RunSplit(s: State, a: seq<Step>, b: seq<Step>)
    ensures Run(s, a + b) == Run(Run(s, a), b)
    decreases |a|
  {
    hide Apply;
    if a == [] {
      assert a + b == b;
    } else {
      assert (a + b)[0] == a[0] && (a + b)[1..] == a[1..] + b;
      RunSplit(Apply(s, a[0]), a[1..], b);
    }
  }

  lemma RunThree(s: State, x: Step, y: Step, z: Step)
    ensures Run(s, [x, y, z]) == Apply(Apply(Apply(s, x), y), z)
  {
    hide Apply;
    var t, u := Apply(s, x), Apply(Apply(s, x), y);
    assert [x, y, z][1..] == [y, z] && [y, z][1..] == [z] && [z][1..] == [];
    assert Run(u, [z]) == Run(Apply(u, z), []) == Apply(u, z);
    assert Run(t, [y, z]) == Run(u, [z]);
  }

  /** One group in the pool, to be brought up. */
  predicate OneUnderWay(s: State) {
    && |s.pool.devs| == 1 && s.pool.devs[0].key == 0 && s.pending == s.adding + 1 && !s.signalled
    && s.worker.Idle? && s.created == {} && s.inits == [] && s.joined == 1 && !s.scheduled
  }

  lemma Created()
    ensures var t := Run(BOOT, [Announce, Join(0), Announce]);
            OneUnderWay(t) && t.adding == 1 && t.counting == 0 && t.failed == 0
  {
    RunThree(BOOT, Announce, Join(0), Announce);
  }

  lemma Visited(s: State)
    requires OneUnderWay(s)
    ensures var t := Run(Run(s, [Schedule, Start, Take]), [Init(true), Put, Drop]);
            && t.pending == t.adding == s.adding && t.joined == 0 && !t.scheduled && t.inits == [0]
            && (t.signalled <==> t.pending == 0) && t.counting == s.counting && t.failed == s.failed
            && t.worker == Walking(Some(0)) && |t.pool.devs| == 1 && t.pool.devs[0].key == 0
  {
    hide Subdev.Hold, Subdev.Release, Subdev.IndexOf, Run;
    RunThree(s, Schedule, Start, Take);
    var b := Apply(Apply(s, Schedule), Start);
    assert b == s.(joined := 0, worker := Walking(None));
    assert Subdev.Neighbor(b.pool.devs, true, None) == 0;
    var c := Apply(b, Take);
    assert c.worker == Visiting(0) && c.created == {};
    RunThree(c, Init(true), Put, Drop);
  }

  lemma GivenUp(s: State)
    requires s.worker == Walking(Some(0)) && |s.pool.devs| == 1 && s.pool.devs[0].key == 0
    requires s.pending == 1 && s.adding == 1
    ensures var t := Apply(Apply(Apply(s, Take), Fail), Count);
            t == s.(worker := Idle, adding := 0, pending := 0, failed := s.failed + 1)
  {
    assert Subdev.Pos(s.pool.devs, 0) == 0;
  }

  /** One group is up and another could not be created: nothing is left to do, the
      counter is zero, and the completion never came. */
  lemma NeverWoken()
    ensures var steps := [Announce, Join(0), Announce] + [Schedule, Start, Take] + [Init(true), Put, Drop]
                         + [Take, Fail, Count];
            var s := Run(BOOT, steps);
            Quiescent(s) && s.pending == 0 && !s.signalled && s.inits == [0]
  {
    hide Apply, Run;
    var x, y, z := [Announce, Join(0), Announce], [Schedule, Start, Take], [Init(true), Put, Drop];
    RunSplit(BOOT, x, y);
    RunSplit(BOOT, x + y, z);
    RunSplit(BOOT, x + y + z, [Take, Fail, Count]);
    Created();
    Visited(Run(BOOT, x));
    var s := Run(BOOT, x + y + z);
    GivenUp(s);
    RunThree(s, Take, Fail, Count);
  }

  // ---- the answer ---------------------------------------------------------------------------

  /** What a step makes fail: a creation, or the leaves of a group. */
  function FailedHere(s: State, step: Step): nat {
    match step
    case Fail => if s.adding > 0 then 1 else 0
    case Init(ok) => if s.worker.Visiting? && s.worker.group !in s.created && !ok then 1 else 0
    case _ => 0
  }

  /** The creations and the groups that failed in a run. */
  function Failures(s: State, steps: seq<Step>): nat
    decreases |steps|
  {
    if steps == [] then 0 else FailedHere(s, steps[0]) + Failures(Apply(s, steps[0]), steps[1..])
  }

  /** Those that the failure count does not have yet. */
  function Uncounted(s: State): nat {
    s.counting + if s.worker.Leaving? && s.worker.bad then 1 else 0
  }

  lemma {:induction false} RunFailures(s: State, steps: seq<Step>)
    ensures var t := Run(s, steps); t.failed + Uncounted(t) == s.failed + Uncounted(s) + Failures(s, steps)
    decreases |steps|
  {
    if steps != [] {
      StepFailures(s, steps[0]);
      RunFailures(Apply(s, steps[0]), steps[1..]);
    }
  }

  lemma StepFailures(s: State, step: Step)
    ensures var t := Apply(s, step); t.failed + Uncounted(t) == s.failed + Uncounted(s) + FailedHere(s, step)
  {
    hide Subdev.Neighbor, Subdev.GetAt, Subdev.GiveBack, Subdev.Apply, Subdev.Added;
  }

  lemma NoneLeaving(s: State)
    requires Ordered(s) && s.pending == 0
    ensures Uncounted(s) == s.counting
  {
    hide Listed;
  }

  /** Over every interleaving: the failure count is the creations and the groups that
      failed, except for those on the way to being counted; when nothing is under way
      it is all of them. What xroot_wait_for_bringup answers once nothing is pending,
      that nothing failed, is right if and only if some failure has been counted or
      none is still to be. */
  lemma AnswerRightIff(steps: seq<Step>)
    ensures var s, n := Run(BOOT, steps), Failures(BOOT, steps);
            && s.failed + Uncounted(s) == n
            && (Quiescent(s) ==> s.failed == n)
            && (s.pending == 0 ==> ((s.failed == 0 <==> n == 0) <==> s.failed > 0 || s.counting == 0))
  {
    hide Apply, Run, Ordered, Failures;
    BootOrdered();
    RunOrdered(BOOT, steps);
    RunFailures(BOOT, steps);
    if Run(BOOT, steps).pending == 0 {
      NoneLeaving(Run(BOOT, steps));
    }
  }

  lemma OneRun(s: State, step: Step)
    ensures Run(s, [step]) == Apply(s, step) && Failures(s, [step]) == FailedHere(s, step)
  {
    hide Apply, FailedHere;
    assert [step][1..] == [];
    assert Run(Apply(s, step), []) == Apply(s, step) && Failures(Apply(s, step), []) == 0;
  }

  /** A creation has failed but is not counted yet when the last group comes up: the
      waiter is woken and told that nothing failed. */
  lemma EarlyAnswer()
    ensures var steps := [Announce, Join(0), Announce] + [Fail] + [Schedule, Start, Take] + [Init(true), Put, Drop];
            var s := Run(BOOT, steps);
            s.signalled && s.pending == 0 && s.failed == 0 && Failures(BOOT, steps) == 1
  {
    hide Apply, Run, Failures;
    var x, y, z := [Announce, Join(0), Announce], [Schedule, Start, Take], [Init(true), Put, Drop];
    RunSplit(BOOT, x, [Fail]);
    RunSplit(BOOT, x + [Fail], y);
    RunSplit(BOOT, x + [Fail] + y, z);
    Created();
    var s := Run(BOOT, x);
    OneRun(s, Fail);
    Refused(s);
    Visited(Apply(s, Fail));
    RunFailures(BOOT, x + [Fail] + y + z);
  }

  lemma Refused(s: State)
    requires OneUnderWay(s) && s.adding == 1 && s.counting == 0 && s.failed == 0
    ensures var t := Apply(s, Fail); OneUnderWay(t) && t.adding == 0 && t.counting == 1 && t.failed == 0
  {
  }

  // ---- progress -------------------------------------------------------------------------

  /** What one worker still has to do before it stops, if nobody creates. */
  ghost function Left(s: State): nat
    requires Ordered(s)
  {
    match s.worker
    case Idle => 0
    case Walking(at) => 4 * (|s.pool.devs| - if at.None? then 0 else at.value + 1) + 1
    case Visiting(g) => 4 * (|s.pool.devs| - g - 1) + 4
    case Leaving(g, _, _) => 4 * (|s.pool.devs| - g - 1) + 3
    case Finishing(g) => 4 * (|s.pool.devs| - g - 1) + 2
  }

  /** The step the worker takes next. */
  function WorkerStep(w: Worker, ok: bool): Step
    requires !w.Idle?
  {
    match w
    case Walking(_) => Take
    case Visiting(_) => Init(ok)
    case Leaving(_, _, _) => Put
    case Finishing(_) => Drop
  }

  lemma WalkingOn(p: Subdev.Pool, at: Option<nat>)
    requires Listed(p) && (at.Some? ==> at.value < |p.devs|)
    ensures var i := Subdev.Neighbor(p.devs, true, at);
            i >= 0 ==>
              && i < |p.devs| && p.devs[i].key == (if at.None? then 0 else at.value + 1) < |p.devs|
              && |Subdev.GetAt(p, i, Xroot.ROOT).devs| == |p.devs|
  {
    hide Subdev.Neighbor, Subdev.GetAt;
    NextGroup(p, at);
    var i := Subdev.Neighbor(p.devs, true, at);
    if i >= 0 {
      GetCount(p, i);
    }
  }

  /** The walk ends: each of its own steps brings it closer. */
  lemma WorkerAdvances(s: State, ok: bool)
    requires Ordered(s) && !s.worker.Idle?
    ensures var t := Apply(s, WorkerStep(s.worker, ok));
            Ordered(t) && Left(t) < Left(s)
  {
    hide Subdev.Neighbor, Subdev.GetAt, Subdev.GiveBack, Subdev.Apply, Listed;
    StepOrdered(s, WorkerStep(s.worker, ok));
    if s.worker.Walking? {
      WalkingOn(s.pool, s.worker.at);
    } else if s.worker.Leaving? {
      HoldsCount(s.pool, Subdev.PutStep(s.worker.group, Xroot.ROOT));
      PutIs(s.pool, s.worker.group);
    }
  }
}
