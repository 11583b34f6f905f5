/** xroot.c: the groups of a root device, their ordered removal and their
    bring-up. */
module Xroot {
  import opened Errno
  import opened FdtTree
  import opened Subdev

  /** The root device as a holder, and the kind of all its subdevices. */
  const ROOT := 0
  const GRP := 1

  /** Groups only, with different instance numbers. */
  predicate Groups(devs: seq<Sub>) {
    && (forall i :: 0 <= i < |devs| ==> devs[i].id == GRP && devs[i].inst >= 0)
    && forall i, j :: 0 <= i < j < |devs| ==> devs[i].inst != devs[j].inst
  }

  /** No hold is outstanding. */
  predicate Unheld(devs: seq<Sub>) {
    forall i :: 0 <= i < |devs| ==> devs[i].holders == []
  }

  lemma {:induction false} MatchIs(devs: seq<Sub>, i: int)
    requires 0 <= i < |devs| && Groups(devs)
    ensures Match(devs, GRP, devs[i].inst) == i
    decreases i
  {
    if i > 0 {
      MatchIs(devs[1..], i - 1);
    }
  }

  /** With different instances, the first match is the last. */
  lemma OneMatch(devs: seq<Sub>, inst: int)
    requires Groups(devs)
    ensures LastMatch(devs, GRP, inst) == Match(devs, GRP, inst)
  {
    SameMatchIff(devs, GRP, inst);
  }

  /** One more hold changes neither kinds nor instances. */
  lemma HoldingGroups(p: Pool, q: Pool, i: int)
    requires Holding(p, q, i, ROOT)
    ensures Groups(q.devs) <==> Groups(p.devs)
    ensures |q.devs| == |p.devs|
    ensures forall j :: 0 <= j < |p.devs| ==> q.devs[j].inst == p.devs[j].inst && q.devs[j].key == p.devs[j].key
    ensures forall j :: 0 <= j < |p.devs| && j != i ==> q.devs[j] == p.devs[j]
    ensures q.closing == p.closing && q.waiting == p.waiting && 0 <= i < |p.devs|
  {
    hide Hold;
    assert forall j :: 0 <= j < |p.devs| ==> q.devs[j].inst == p.devs[j].inst && q.devs[j].id == p.devs[j].id;
  }

  /** The pool with its first k entries gone. */
  function Cut(p: Pool, k: int): Pool
    requires 0 <= k <= |p.devs|
  {
    p.(devs := p.devs[k..])
  }

  lemma CutMore(p: Pool, q: Pool, k: int, i: int)
    requires 0 <= k < i < |p.devs| && Holding(Cut(p, k), q, i - k, ROOT)
    ensures Remove(q.devs, 0) == q.devs[1..]
    ensures Holding(Cut(p, k + 1), q.(devs := q.devs[1..]), i - k - 1, ROOT)
  {
    hide Hold;
    var a := p.devs[k..];
    assert a[1..] == p.devs[k + 1..];
    assert q.devs[1..] == a[1..][i - k - 1 := q.devs[i - k]];
  }

  lemma KeysCut(devs: seq<Sub>, k: int)
    requires 0 <= k < |devs|
    ensures Keys(devs[..k]) + [devs[k].key] == Keys(devs[..k + 1])
  {
  }

  /** One entry less, somewhere. */
  lemma RemoveGroups(devs: seq<Sub>, i: int)
    requires 0 <= i < |devs| && Groups(devs)
    ensures Groups(Remove(devs, i))
  {
  }

  class Root {
    const pool: SubdevPool
    var pending: int
    var failed: nat
    // groups whose leaves were created
    var created: set<nat>
    // the same, in the order in which it happened
    ghost var inits: seq<nat>
    // those some leaf of which could not be created
    ghost var broken: seq<nat>

    constructor ()
      ensures fresh(pool) && pool.Abs() == EMPTY_POOL && pending == 0 && failed == 0
      ensures created == {} && inits == [] && broken == []
    {
      pool := new SubdevPool();
      pending, failed, created, inits, broken := 0, 0, {}, [], [];
    }

    ghost predicate Valid()
      reads this, pool
    {
      Sound(pool.Abs()) && Groups(pool.devs) && !pool.closing && pool.waiting == {}
    }

    /** xroot_group_trigger_event: children first, then everyone. */
    method TriggerEvent(inst: int)
      requires Valid()
      modifies pool
      ensures Valid() && pool.Abs() == old(pool.Abs()).(log := pool.log)
      ensures Unlinks(pool.log) == Unlinks(old(pool.log))
    {
      hide Sound, Unlinks, GetAt, GiveBack, Groups, Match, LastMatch;
      ghost var p, i := pool.Abs(), Match(pool.devs, GRP, inst);
      GotOne(p, i, ROOT);
      OneMatch(pool.devs, inst);
      var ret, key := pool.GetMatch(GRP, inst, ROOT);
      if ret != 0 {
        return;
      }
      ghost var q := pool.Abs();
      var seen := pool.HandleEvent(ROOT);
      assert Holding(p, pool.Abs(), i, ROOT);
      CleanAt(p, i);
      GaveOne(p, pool.Abs(), i, ROOT);
      var rc := pool.PutSub(key, ROOT);
    }

    /** xroot_destroy_single_group, of a group the root does not hold. */
    method DestroySingleGroup(inst: int) returns (ret: int)
      requires Valid()
      requires var i := Match(pool.devs, GRP, inst); i >= 0 ==> pool.devs[i].holders == []
      modifies pool
      ensures Valid()
      ensures var i := Match(old(pool.devs), GRP, inst);
              if i < 0 then ret == ENOENT && pool.Abs() == old(pool.Abs())
              else
                && ret == 0
                && pool.Abs() == old(pool.Abs()).(devs := Remove(old(pool.devs), i), log := pool.log)
                && Unlinks(pool.log) == Unlinks(old(pool.log)) + [old(pool.devs)[i].key]
    {
      hide Sound, Unlinks, GetAt, GiveBack, Groups, Match, LastMatch, Hold, Pos;
      ghost var p, i := pool.Abs(), Match(pool.devs, GRP, inst);
      GotOne(p, i, ROOT);
      var key;
      OneMatch(pool.devs, inst);
      ret, key := pool.GetMatch(GRP, inst, ROOT);
      if ret != 0 {
        return;
      }
      HoldingGroups(p, pool.Abs(), i);
      TriggerEvent(inst);
      assert Holding(p, pool.Abs(), i, ROOT);
      // XRT_GROUP_FINI_CHILDREN always returns 0
      ret := 0;
      CleanAt(p, i);
      GaveOne(p, pool.Abs(), i, ROOT);
      var rc := pool.PutSub(key, ROOT);
      ghost var s := pool.Abs();
      PosIs(p.devs, i);
      StepSound(s, Del(key));
      RemoveGroups(p.devs, i);
      var waits;
      if ret == 0 {
        ret, waits := pool.DelFrom(GRP, inst);
      }
      UnlinksGrow(s.log, Unlinked(key));
    }

    /** Get the newest group, read its instance, put it back. */
    method LastInstance() returns (rc: int, inst: int)
      requires Valid()
      modifies pool
      ensures Valid() && pool.Abs() == old(pool.Abs()).(log := pool.log)
      ensures Unlinks(pool.log) == Unlinks(old(pool.log))
      ensures if pool.devs == [] then rc == ENOENT else rc == 0 && inst == pool.devs[0].inst
    {
      hide Sound, Unlinks, GetAt, GiveBack, Groups, Hold, Pos;
      inst := -1;
      ghost var p := pool.Abs();
      FirstNeighbor(pool.devs);
      GotOne(p, 0, ROOT);
      var deps;
      rc, deps := pool.GetNeighbor(false, None, ROOT);
      if rc == ENOENT {
        return;
      }
      CleanAt(pool.Abs(), 0);
      PosIs(pool.devs, 0);
      var j := pool.FindKey(deps);
      inst := pool.devs[j].inst;
      CleanAt(p, 0);
      GaveOne(p, pool.Abs(), 0, ROOT);
      var r := pool.PutSub(deps, ROOT);
    }

    /** The loop of xroot_destroy_group, under a hold of the target: p is the
        pool before, i the place of the target in it. */
    method RemoveNewer(inst: int, ghost p: Pool, ghost i: int)
      requires Valid() && Unheld(p.devs) && Groups(p.devs) && Distinct(p.devs)
      requires Match(p.devs, GRP, inst) == i && Holding(p, pool.Abs(), i, ROOT)
      modifies pool
      ensures Valid() && Holding(Cut(p, i), pool.Abs(), 0, ROOT)
      ensures Unlinks(pool.log) == Unlinks(old(pool.log)) + Keys(p.devs[..i])
    {
      hide Sound, Unlinks, Match, Hold, Holding, Clean, Groups, Distinct, Unheld;
      ghost var k := 0;
      assert Cut(p, 0) == p && Keys(p.devs[..0]) == [];
      HoldingGroups(p, pool.Abs(), i);
      while true
        invariant 0 <= k <= i < |p.devs| && Valid()
        invariant Holding(Cut(p, k), pool.Abs(), i - k, ROOT)
        invariant Unlinks(pool.log) == Unlinks(old(pool.log)) + Keys(p.devs[..k])
        decreases i - k
      {
        ghost var q := pool.Abs();
        HoldingGroups(Cut(p, k), q, i - k);
        var rc, depsInst := LastInstance();
        HoldingLog(Cut(p, k), q, pool.log, i - k);
        if rc == ENOENT {
          break;
        }
        if inst == depsInst {
          TargetReached(p, pool.Abs(), k, i, inst);
          break;
        }
        ghost var t := pool.Abs();
        NewerUnheld(p, t, k, i, inst);
        MatchIs(pool.devs, 0);
        CutMore(p, t, k, i);
        KeysCut(p.devs, k);
        var r := DestroySingleGroup(depsInst);
        HoldingLog(Cut(p, k + 1), t.(devs := t.devs[1..]), pool.log, i - k - 1);
        k := k + 1;
      }
    }

    /** xroot_destroy_group: everything newer goes first, newest first, then the
        group; older groups stay as they are. */
    method DestroyGroup(inst: int) returns (ret: int)
      requires Valid() && Unheld(pool.devs)
      modifies pool
      ensures Valid() && Unheld(pool.devs)
      ensures var i := Match(old(pool.devs), GRP, inst);
              if i < 0 then ret == ENOENT && pool.Abs() == old(pool.Abs())
              else
                && ret == 0
                && pool.devs == old(pool.devs)[i + 1..]
                && Unlinks(pool.log) == Unlinks(old(pool.log)) + Keys(old(pool.devs)[..i + 1])
    {
      hide Sound, Unlinks, GetAt, GiveBack, Match, LastMatch, Hold, Holding, Release, Distinct, Clean, Groups;
      ghost var p, i := pool.Abs(), Match(pool.devs, GRP, inst);
      GotOne(p, i, ROOT);
      var target;
      OneMatch(pool.devs, inst);
      ret, target := pool.GetMatch(GRP, inst, ROOT);
      if ret != 0 {
        return;
      }
      HoldingGroups(p, pool.Abs(), i);
      RemoveNewer(inst, p, i);
      TargetAlone(p, i);
      GaveOne(Cut(p, i), pool.Abs(), 0, ROOT);
      var rc := pool.PutSub(target, ROOT);
      MatchIs(pool.devs, 0);
      KeysCut(p.devs, i);
      ret := DestroySingleGroup(inst);
      assert Remove(p.devs[i..], 0) == p.devs[i + 1..];
    }

    /** The part of xroot_remove that empties the pool. */
    method RemoveAll()
      requires Valid() && Unheld(pool.devs)
      modifies pool
      ensures Valid() && pool.devs == []
      ensures Unlinks(pool.log) == Unlinks(old(pool.log)) + Keys(old(pool.devs))
    {
      hide Sound, Unlinks, GetAt, GiveBack, Hold, Pos;
      ghost var p := pool.Abs();
      GotOne(p, |p.devs| - 1, ROOT);
      var rc, grp := pool.GetNeighbor(true, None, ROOT);
      if rc != 0 {
        assert Keys(p.devs) == [];
        return;
      }
      CleanAt(pool.Abs(), 0);
      PosIs(pool.devs, |p.devs| - 1);
      var j := pool.FindKey(grp);
      var inst := pool.devs[j].inst;
      GaveOne(p, pool.Abs(), |p.devs| - 1, ROOT);
      var r := pool.PutSub(grp, ROOT);
      MatchIs(pool.devs, |p.devs| - 1);
      assert p.devs[..|p.devs|] == p.devs;
      var ret := DestroyGroup(inst);
    }

    /** xroot_create_group; made tells whether the group device could be created.
        The caller schedules the bring-up work when the result is not negative. */
    method CreateGroup(inst: int, made: bool) returns (ret: int)
      requires Sound(pool.Abs()) && Groups(pool.devs) && inst >= 0 && Match(pool.devs, GRP, inst) < 0
      modifies this, pool
      ensures Sound(pool.Abs()) && Groups(pool.devs)
      ensures pool.Abs() == if made then Added(old(pool.Abs()), GRP, inst) else old(pool.Abs())
      ensures if !made || old(pool.closing) then
                && ret == (if made then ENODEV else EINVAL)
                && pending == old(pending) && failed == old(failed) + 1
              else ret == inst && pending == old(pending) + 1 && failed == old(failed)
      ensures created == old(created) && inits == old(inits) && broken == old(broken)
    {
      hide Sound, Groups, Match, Added;
      pending := pending + 1;
      AddedGroups(pool.Abs(), inst);
      ret := pool.Add(GRP, inst, made);
      if ret < 0 {
        pending := pending - 1;
        failed := failed + 1;
      }
    }

    /** XRT_GROUP_INIT_CHILDREN of one group: refused the second time; some leaf
        may fail. */
    method InitChildren(key: nat) returns (r: int)
      modifies this`created, this`inits, this`broken
      ensures r == EEXIST <==> key in old(created)
      ensures r == EEXIST || r == 0 || r == ECHILD
      ensures if r == EEXIST then created == old(created) && inits == old(inits)
              else created == old(created) + {key} && inits == old(inits) + [key]
      ensures broken == old(broken) + if r == ECHILD then [key] else []
    {
      if key in created {
        return EEXIST;
      }
      created := created + {key};
      inits := inits + [key];
      var bad: bool := *;
      if bad {
        broken := broken + [key];
        return ECHILD;
      }
      return 0;
    }

    /** One round of xroot_bringup_group_work at a group the walk holds: p is the
        pool without that hold, i the place of the group. */
    method VisitGroup(xdev: nat, ghost p: Pool, ghost i: int)
      requires Valid() && Holding(p, pool.Abs(), i, ROOT) && xdev == p.devs[i].key
      requires Clean(p.devs[i].holders) && Distinct(p.devs)
      modifies this, pool
      ensures Valid() && pool.Abs() == p.(log := pool.log)
      ensures var new_ := xdev !in old(created);
              && created == old(created) + {xdev}
              && inits == old(inits) + (if new_ then [xdev] else [])
              && pending == old(pending) - (if new_ then 1 else 0)
              && old(broken) <= broken && failed == old(failed) + |broken| - |old(broken)|
              && (broken == old(broken) || (new_ && broken == old(broken) + [xdev]))
    {
      hide Sound, Unlinks, GetAt, GiveBack, Match, Hold, Groups, Pos;
      HoldingGroups(p, pool.Abs(), i);
      KeyHeld(p, pool.Abs(), i);
      var inst := InstanceOf(xdev);
      var r := InitChildren(xdev);
      GaveOne(p, pool.Abs(), i, ROOT);
      var put := pool.PutSub(xdev, ROOT);
      GroupsLog(p, pool.Abs());
      if r == EEXIST {
        return;
      }
      if r != 0 {
        failed := failed + 1;
      }
      TriggerEvent(inst);
      pending := pending - 1;
    }

    /** The walk of the worker over the pool p holds its i-th group, or is at its end. */
    ghost predicate WalkAt(p: Pool, i: int, rc: int, xdev: nat)
      reads this, pool
    {
      && Valid() && Distinct(p.devs) && -1 <= i < |p.devs|
      && if i >= 0 then rc == 0 && Holding(p, pool.Abs(), i, ROOT) && xdev == p.devs[i].key
         else rc == ENOENT && pool.Abs() == p.(log := pool.log)
    }

    lemma WalkIs(p: Pool, i: int, rc: int, xdev: nat)
      requires WalkAt(p, i, rc, xdev)
      ensures Valid() && Distinct(p.devs) && -1 <= i < |p.devs| && (rc != ENOENT <==> i >= 0)
      ensures i >= 0 ==> Holding(p, pool.Abs(), i, ROOT) && xdev == p.devs[i].key && Pos(p.devs, xdev) == i
      ensures i < 0 ==> pool.Abs() == p.(log := pool.log)
    {
      hide Sound, Hold, Groups;
      if i >= 0 {
        PosIs(p.devs, i);
      }
    }

    /** XROOT_GROUP_FIRST */
    method FirstGroup() returns (rc: int, key: nat)
      requires Valid()
      modifies pool
      ensures WalkAt(old(pool.Abs()), |old(pool.devs)| - 1, rc, key)
    {
      hide Sound, Unlinks, Hold, Groups, Holding, Distinct, Neighbor;
      ghost var p := pool.Abs();
      GotOne(p, |p.devs| - 1, ROOT);
      OldestFirst(p.devs, {});
      rc, key := GetFirst(None);
      HeldValid(p, pool.Abs(), |p.devs| - 1);
    }

    /** ... and the next newer one, the hold on the last one being given back. */
    method NextGroup(xdev: nat, ghost p: Pool, ghost i: int) returns (rc: int, key: nat)
      requires Valid() && 0 <= i < |p.devs| && xdev == p.devs[i].key && pool.Abs() == p.(log := pool.log)
      modifies pool
      ensures WalkAt(p, i - 1, rc, key)
    {
      hide Sound, Unlinks, Hold, Groups, Holding, Distinct, Neighbor;
      ghost var q := pool.Abs();
      GotOne(q, i - 1, ROOT);
      NextNeighbor(p.devs, i);
      rc, key := GetFirst(Some(xdev));
      HeldValid(q, pool.Abs(), i - 1);
      HeldSince(p, q, pool.Abs(), i - 1);
    }

    /** xroot_bringup_group_work, while nobody else works on the pool: the groups
        without leaves are initialised, the oldest first. */
    method BringupGroupWork()
      requires Valid() && Unheld(pool.devs)
      modifies this, pool
      ensures Valid() && pool.Abs() == old(pool.Abs()).(log := pool.log)
      ensures inits == old(inits) + Fresh(old(pool.devs), old(created))
      ensures pending == old(pending) - |Fresh(old(pool.devs), old(created))|
      ensures old(broken) <= broken && failed == old(failed) + |broken| - |old(broken)|
      ensures Selected(broken[|old(broken)|..], Fresh(old(pool.devs), old(created)))
      ensures forall x :: x in created <==> x in old(created) || x in Fresh(old(pool.devs), old(created))
    {
      hide Sound, Unlinks, Match, Hold, Groups, Pos, Unheld, Holding, Distinct, Clean, Fresh, Selected, Progress,
        WalkAt;
      ghost var p, c0, i, done, bad := pool.Abs(), created, |pool.devs| - 1, [], [];
      NoneSelected();
      NoProgress(p.devs, c0);
      var rc, xdev := FirstGroup();
      WalkIs(p, i, rc, xdev);
      while rc != ENOENT
        invariant WalkAt(p, i, rc, xdev) && -1 <= i < |p.devs| && (rc != ENOENT <==> i >= 0)
        invariant Progress(p.devs, c0, i, done, created)
        invariant inits == old(inits) + done && pending == old(pending) - |done|
        invariant broken == old(broken) + bad && failed == old(failed) + |bad| && Selected(bad, done)
        decreases i
      {
        WalkIs(p, i, rc, xdev);
        ProgressStep(p.devs, c0, i, done, created);
        CleanUnheld(p, i);
        ghost var isNew, b0 := xdev !in created, broken;
        VisitGroup(xdev, p, i);
        SelectedMore(bad, done, xdev);
        if isNew {
          done := done + [xdev];
        }
        if broken != b0 {
          bad := bad + [xdev];
        }
        rc, xdev := NextGroup(xdev, p, i);
        i := i - 1;
        WalkIs(p, i, rc, xdev);
      }
      WalkIs(p, i, rc, xdev);
      ProgressEnd(p.devs, c0, done, created);
      assert broken[|old(broken)|..] == bad;
    }

    method GetFirst(at: Option<nat>) returns (rc: int, key: nat)
      modifies pool
      ensures var i := Neighbor(old(pool.devs), true, at);
              if i < 0 then rc == ENOENT && pool.Abs() == old(pool.Abs())
              else rc == 0 && key == old(pool.devs)[i].key && pool.Abs() == GetAt(old(pool.Abs()), i, ROOT)
    {
      rc, key := pool.GetNeighbor(true, at, ROOT);
    }

    method InstanceOf(key: nat) returns (inst: int)
      requires Pos(pool.devs, key) >= 0
      ensures inst == pool.devs[Pos(pool.devs, key)].inst
    {
      var j := pool.FindKey(key);
      inst := pool.devs[j].inst;
    }
  }

  /** Some of the entries of a list, in its order. */
  predicate Selected(s: seq<nat>, all: seq<nat>)
    decreases |all|
  {
    if all == [] then s == []
    else
      var x, rest := all[|all| - 1], all[..|all| - 1];
      Selected(s, rest) || (s != [] && s[|s| - 1] == x && Selected(s[..|s| - 1], rest))
  }

  lemma NoneSelected()
    ensures Selected([], [])
  {
  }

  lemma SelectedMore(s: seq<nat>, all: seq<nat>, x: nat)
    requires Selected(s, all)
    ensures Selected(s, all + [x]) && Selected(s + [x], all + [x])
  {
    assert (all + [x])[..|all|] == all && (s + [x])[..|s|] == s;
  }

  /** The groups that have no leaves yet, the oldest first. */
  function Fresh(devs: seq<Sub>, created: set<nat>): seq<nat> {
    if devs == [] then []
    else
      var k := devs[|devs| - 1].key;
      (if k in created then [] else [k]) + Fresh(devs[..|devs| - 1], created)
  }

  lemma OldestFirst(devs: seq<Sub>, created: set<nat>)
    ensures Neighbor(devs, true, None) == |devs| - 1
    ensures Fresh(devs[..0], created) == []
  {
  }

  /** The walk is at the i-th group and has initialised done. */
  ghost predicate Progress(devs: seq<Sub>, c0: set<nat>, i: int, done: seq<nat>, created: set<nat>)
    requires -1 <= i < |devs|
  {
    && done + Fresh(devs[..i + 1], c0) == Fresh(devs, c0)
    && (forall x :: x in created <==> x in c0 || x in done)
    && (forall j :: 0 <= j < |done| ==> Pos(devs, done[j]) > i)
  }

  lemma NoProgress(devs: seq<Sub>, c0: set<nat>)
    ensures Progress(devs, c0, |devs| - 1, [], c0)
  {
    assert devs[..|devs|] == devs;
  }

  lemma ProgressStep(devs: seq<Sub>, c0: set<nat>, i: int, done: seq<nat>, created: set<nat>)
    requires 0 <= i < |devs| && Distinct(devs) && Progress(devs, c0, i, done, created)
    ensures var x := devs[i].key;
            if x in created then Progress(devs, c0, i - 1, done, created + {x})
            else Progress(devs, c0, i - 1, done + [x], created + {x})
  {
    hide Pos, Fresh;
    FreshStep(devs, i, c0);
    PosIs(devs, i);
    assert i - 1 + 1 == i && [] + Fresh(devs[..i], c0) == Fresh(devs[..i], c0);
    assert done + ([devs[i].key] + Fresh(devs[..i], c0)) == done + [devs[i].key] + Fresh(devs[..i], c0);
  }

  lemma ProgressEnd(devs: seq<Sub>, c0: set<nat>, done: seq<nat>, created: set<nat>)
    requires Progress(devs, c0, -1, done, created)
    ensures done == Fresh(devs, c0) && forall x :: x in created <==> x in c0 || x in Fresh(devs, c0)
  {
    assert devs[..0] == [] && done + [] == done;
  }

  lemma FreshStep(devs: seq<Sub>, i: int, created: set<nat>)
    requires 0 <= i < |devs|
    ensures Fresh(devs[..i + 1], created) ==
            (if devs[i].key in created then [] else [devs[i].key]) + Fresh(devs[..i], created)
  {
    assert devs[..i + 1][..i] == devs[..i];
  }

  lemma {:induction false} MatchAll(devs: seq<Sub>, inst: int)
    requires Match(devs, GRP, inst) < 0 && Groups(devs)
    ensures forall i :: 0 <= i < |devs| ==> devs[i].inst != inst
  {
    forall i | 0 <= i < |devs| ensures devs[i].inst != inst {
      MatchIs(devs, i);
    }
  }

  lemma AddedGroups(p: Pool, inst: int)
    requires Sound(p) && Groups(p.devs) && inst >= 0 && Match(p.devs, GRP, inst) < 0
    ensures Sound(Added(p, GRP, inst)) && Groups(Added(p, GRP, inst).devs)
    ensures p.closing ==> Added(p, GRP, inst) == p
  {
    hide Sound;
    StepSound(p, Add(GRP, inst));
    MatchAll(p.devs, inst);
  }

  lemma KeyHeld(p: Pool, q: Pool, i: int)
    requires Holding(p, q, i, ROOT) && Distinct(p.devs)
    ensures Pos(q.devs, p.devs[i].key) >= 0
  {
    hide Hold;
    assert q.devs[i].key == p.devs[i].key;
    PosIs(q.devs, i);
  }

  /** The state of the walk between two groups. */
  lemma HeldValid(p: Pool, q: Pool, i: int)
    ensures Holding(p, q, i, ROOT) && Groups(p.devs) ==>
      Groups(q.devs) && q.closing == p.closing && q.waiting == p.waiting
  {
    if Holding(p, q, i, ROOT) {
      HoldingGroups(p, q, i);
    }
  }

  lemma HeldSince(p: Pool, q: Pool, r: Pool, i: int)
    requires q == p.(log := q.log)
    ensures Holding(q, r, i, ROOT) ==> Holding(p, r, i, ROOT)
  {
  }

  lemma CleanUnheld(p: Pool, i: int)
    requires Unheld(p.devs) && 0 <= i < |p.devs|
    ensures Clean(p.devs[i].holders)
  {
  }

  lemma GroupsLog(p: Pool, q: Pool)
    requires q == p.(log := q.log) && Groups(p.devs)
    ensures Groups(q.devs)
  {
  }

  lemma HoldingLog(p: Pool, q: Pool, log: seq<Event>, i: int)
    requires Holding(p, q, i, ROOT)
    ensures Holding(p, q.(log := log), i, ROOT)
  {
  }

  /** The newest group is not the target yet. */
  lemma NewerUnheld(p: Pool, q: Pool, k: int, i: int, inst: int)
    requires 0 <= k <= i < |p.devs| && Unheld(p.devs) && Groups(p.devs)
    requires Match(p.devs, GRP, inst) == i && Holding(Cut(p, k), q, i - k, ROOT) && q.devs[0].inst != inst
    ensures k < i && q.devs != [] && q.devs[0].holders == []
    ensures q.devs[0] == p.devs[k]
  {
    hide Hold;
  }

  lemma TargetReached(p: Pool, q: Pool, k: int, i: int, inst: int)
    requires 0 <= k <= i < |p.devs| && Groups(p.devs) && Match(p.devs, GRP, inst) == i
    requires Holding(Cut(p, k), q, i - k, ROOT) && q.devs[0].inst == inst
    ensures k == i
  {
    hide Hold;
    assert p.devs[k].inst == inst;
  }

  /** The pool once only the target and what is older are left. */
  lemma TargetAlone(p: Pool, i: int)
    requires 0 <= i < |p.devs| && Unheld(p.devs) && Groups(p.devs) && Distinct(p.devs)
    ensures var d := Cut(p, i).devs;
            d[0] == p.devs[i] && Clean(d[0].holders) && Distinct(d) && Groups(d) && Unheld(d)
  {
  }
}
