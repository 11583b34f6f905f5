/** mailbox.c: the message queue of one channel, its time-outs and its shutdown,
    as steps. */
module MailboxChan {
  import opened Bytes
  import opened Errno
  import opened FdtTree

  const INVALID_MSG_ID := 0xffff_ffff_ffff_ffff

  /** MAILBOX_SEC2TTL(1): ten ticks of a tenth of a second. */
  const TTL_ONE_SECOND := 10

  /** struct mailbox_msg. The key stands for the address of the message: messages
      are numbered as they are accepted. */
  datatype Msg = Msg(key: nat, id: int, data: seq<byte>, len: nat, flags: nat, ttl: nat)

  /** What happened to messages, in order. */
  datatype Event =
    | Accepted(key: nat)
    | Started(key: nat)
    | Completed(m: Msg, err: int)
    | Withdrawn(key: nat)

  /** struct mailbox_channel, with the number of messages accepted so far and the
      history of events. */
  datatype Chan = Chan(stopped: bool, tick: bool, msgs: seq<Msg>, cur: Option<Msg>, bytesDone: nat,
                       next: nat, log: seq<Event>)

  const FRESH: Chan := Chan(false, false, [], None, 0, 0, [])

  // ---- steps -----------------------------------------------------------------------

  /** chan_msg_enqueue, when it returns 0. */
  function Enqueued(c: Chan, m: Msg): Chan {
    if c.stopped then c
    else c.(msgs := c.msgs + [m.(key := c.next)], next := c.next + 1, log := c.log + [Accepted(c.next)])
  }

  /** Position of the first message with that id. */
  function Find(msgs: seq<Msg>, id: int): (i: int)
    ensures -1 <= i < |msgs|
    ensures i >= 0 ==> msgs[i].id == id
    ensures forall j :: 0 <= j < (if i < 0 then |msgs| else i) ==> msgs[j].id != id
  {
    if msgs == [] then -1
    else if msgs[0].id == id then 0
    else var r := Find(msgs[1..], id); if r < 0 then -1 else r + 1
  }

  /** The message chan_msg_dequeue takes: the first with that id, for
      INVALID_MSG_ID the first of all. */
  function Pick(msgs: seq<Msg>, id: int): (i: int)
    ensures -1 <= i < |msgs|
    ensures i < 0 <==> if id == INVALID_MSG_ID then msgs == [] else forall j :: 0 <= j < |msgs| ==> msgs[j].id != id
  {
    if id != INVALID_MSG_ID then Find(msgs, id) else if msgs == [] then -1 else 0
  }

  function Without(msgs: seq<Msg>, i: int): seq<Msg>
    requires 0 <= i < |msgs|
  {
    msgs[..i] + msgs[i + 1..]
  }

  /** chan_msg_dequeue by the owner that had enqueued the message. */
  function Withdraw(c: Chan, id: int): Chan {
    var i := Pick(c.msgs, id);
    if i < 0 then c
    else c.(msgs := Without(c.msgs, i), log := c.log + [Withdrawn(c.msgs[i].key)])
  }

  /** dequeue_tx_msg */
  function TakeFirst(c: Chan): Chan {
    if c.cur.Some? || c.msgs == [] then c
    else c.(cur := Some(c.msgs[0]), msgs := c.msgs[1..], log := c.log + [Started(c.msgs[0].key)])
  }

  /** The part of dequeue_rx_msg that finds the buffer of a response. */
  function TakeResponse(c: Chan, id: int): Chan {
    var i := Pick(c.msgs, id);
    if c.cur.Some? || i < 0 then c
    else c.(cur := Some(c.msgs[i]), msgs := Without(c.msgs, i), log := c.log + [Started(c.msgs[i].key)])
  }

  /** The part of dequeue_rx_msg that makes a buffer for a request. */
  function TakeRequest(c: Chan, id: int, flags: nat, size: nat): Chan {
    if c.cur.Some? then c
    else
      var m := Msg(c.next, id, seq(size, _ => 0), size, flags, MAX_TTL);
      c.(cur := Some(m), next := c.next + 1, log := c.log + [Accepted(c.next), Started(c.next)])
  }

  const MAX_TTL: nat := 0x7fff_ffff

  /** chan_msg_done */
  function Finished(c: Chan, err: int): Chan {
    if c.cur.None? then c
    else c.(cur := None, bytesDone := 0, log := c.log + [Completed(c.cur.value, err)])
  }

  /** The messages a handled tick leaves in the queue. */
  function Surviving(msgs: seq<Msg>): seq<Msg> {
    if msgs == [] then []
    else (if msgs[0].ttl > 0 then [msgs[0].(ttl := msgs[0].ttl - 1)] else []) + Surviving(msgs[1..])
  }

  function Expired(msgs: seq<Msg>): seq<Msg> {
    if msgs == [] then [] else (if msgs[0].ttl > 0 then [] else [msgs[0]]) + Expired(msgs[1..])
  }

  function AllDone(msgs: seq<Msg>, err: int): seq<Event> {
    if msgs == [] then [] else [Completed(msgs[0], err)] + AllDone(msgs[1..], err)
  }

  /** The current message of timeout_msg. */
  function CurTimed(c: Chan): Chan {
    if c.cur.None? then c
    else if c.cur.value.ttl > 0 then c.(cur := Some(c.cur.value.(ttl := c.cur.value.ttl - 1)))
    else Finished(c, ETIMEDOUT)
  }

  /** timeout_msg */
  function TimedOut(c: Chan): Chan {
    var d := CurTimed(c);
    d.(msgs := Surviving(d.msgs), log := d.log + AllDone(Expired(d.msgs), ETIMEDOUT))
  }

  /** chan_tick */
  function Ticked(c: Chan): Chan {
    c.(tick := true)
  }

  /** handle_timer_event */
  function TickHandled(c: Chan): Chan {
    if c.tick then TimedOut(c).(tick := false) else c
  }

  /** outstanding_msg_ttl_reset */
  function TtlReset(c: Chan): Chan {
    if c.cur.None? then c else c.(cur := Some(c.cur.value.(ttl := TTL_ONE_SECOND)))
  }

  function Retimed(msgs: seq<Msg>, key: nat, ttl: nat): seq<Msg> {
    if msgs == [] then []
    else [if msgs[0].key == key then msgs[0].(ttl := ttl) else msgs[0]] + Retimed(msgs[1..], key, ttl)
  }

  /** msg_timer_on, by the owner of a message that is still pending. */
  function TimerOn(c: Chan, key: nat, ttl: nat): Chan {
    c.(msgs := Retimed(c.msgs, key, ttl),
       cur := if c.cur.Some? && c.cur.value.key == key then Some(c.cur.value.(ttl := ttl)) else c.cur)
  }

  /** Bytes copied into the current message, which has now done of them. */
  function Progress(c: Chan, data: seq<byte>, len: nat, id: int, done: nat): Chan {
    if c.cur.None? then c
    else c.(cur := Some(c.cur.value.(data := data, len := len, id := id)), bytesDone := done)
  }

  /** The first step of chan_fini. */
  function Stopped(c: Chan): Chan {
    c.(stopped := true)
  }

  /** One round of its last loop. */
  function DrainedOne(c: Chan): Chan {
    if c.msgs == [] then c else c.(msgs := c.msgs[1..], log := c.log + [Completed(c.msgs[0], ESHUTDOWN)])
  }

  /** chan_fini without anybody else in between. */
  function Drained(c: Chan): Chan {
    var d := Finished(c.(stopped := true), ESHUTDOWN);
    d.(msgs := [], log := d.log + AllDone(d.msgs, ESHUTDOWN))
  }

  /** Any step of the owner of a message, the timer, the worker or the shutdown,
      which is Stop, then, once the worker is gone, Done(ESHUTDOWN), then DrainOne
      until the queue is empty. */
  datatype Step =
    | Enqueue(m: Msg)
    | Owner(id: int)
    | First
    | Response(id: int)
    | Request(id: int, flags: nat, size: nat)
    | Data(data: seq<byte>, len: nat, id: int, done: nat)
    | Done(err: int)
    | Tick
    | Timer
    | Reset
    | SetTtl(key: nat, ttl: nat)
    | Stop
    | DrainOne

  function Apply(c: Chan, s: Step): Chan {
    match s
    case Enqueue(m) => Enqueued(c, m)
    case Owner(id) => Withdraw(c, id)
    case First => TakeFirst(c)
    case Response(id) => TakeResponse(c, id)
    case Request(id, flags, size) => TakeRequest(c, id, flags, size)
    case Data(data, len, id, done) => Progress(c, data, len, id, done)
    case Done(err) => Finished(c, err)
    case Tick => Ticked(c)
    case Timer => TickHandled(c)
    case Reset => TtlReset(c)
    case SetTtl(key, ttl) => TimerOn(c, key, ttl)
    case Stop => Stopped(c)
    case DrainOne => DrainedOne(c)
  }

  function Run(c: Chan, steps: seq<Step>): Chan
    decreases |steps|
  {
    if steps == [] then c else Run(Apply(c, steps[0]), steps[1..])
  }

  // ---- every accepted message ends exactly once --------------------------------------

  function InQueue(msgs: seq<Msg>, key: nat): nat {
    if msgs == [] then 0 else (if msgs[0].key == key then 1 else 0) + InQueue(msgs[1..], key)
  }

  /** How often a message is held by the channel. */
  function Held(c: Chan, key: nat): nat {
    InQueue(c.msgs, key) + if c.cur.Some? && c.cur.value.key == key then 1 else 0
  }

  /** How often it was completed or withdrawn. */
  function Ended(log: seq<Event>, key: nat): nat {
    if log == [] then 0
    else
      Ended(log[1..], key) +
      match log[0]
      case Completed(m, _) => if m.key == key then 1 else 0
      case Withdrawn(k) => if k == key then 1 else 0
      case _ => 0
  }

  /** Every accepted message is held once and not ended, or was ended once; the
      others are neither. */
  ghost predicate Conserved(c: Chan) {
    forall key: nat :: Held(c, key) + Ended(c.log, key) == if key < c.next then 1 else 0
  }

  lemma {:induction false} InQueueSplit(a: seq<Msg>, b: seq<Msg>, key: nat)
    ensures InQueue(a + b, key) == InQueue(a, key) + InQueue(b, key)
    decreases |a|
  {
    if a == [] {
      assert a + b == b;
    } else {
      assert (a + b)[0] == a[0] && (a + b)[1..] == a[1..] + b;
      InQueueSplit(a[1..], b, key);
    }
  }

  lemma {:induction false} EndedSplit(a: seq<Event>, b: seq<Event>, key: nat)
    ensures Ended(a + b, key) == Ended(a, key) + Ended(b, key)
    decreases |a|
  {
    if a == [] {
      assert a + b == b;
    } else {
      assert (a + b)[0] == a[0] && (a + b)[1..] == a[1..] + b;
      EndedSplit(a[1..], b, key);
    }
  }

  lemma WithoutCount(msgs: seq<Msg>, i: int, key: nat)
    requires 0 <= i < |msgs|
    ensures InQueue(msgs, key) == InQueue(Without(msgs, i), key) + if msgs[i].key == key then 1 else 0
  {
    assert msgs == msgs[..i] + ([msgs[i]] + msgs[i + 1..]);
    InQueueSplit(msgs[..i], [msgs[i]] + msgs[i + 1..], key);
    InQueueSplit(msgs[..i], msgs[i + 1..], key);
    assert ([msgs[i]] + msgs[i + 1..])[1..] == msgs[i + 1..];
  }

  lemma {:induction false} TimedCount(msgs: seq<Msg>, key: nat)
    ensures InQueue(msgs, key) == InQueue(Surviving(msgs), key) + InQueue(Expired(msgs), key)
    decreases |msgs|
  {
    if msgs != [] {
      TimedCount(msgs[1..], key);
      InQueueSplit(if msgs[0].ttl > 0 then [msgs[0].(ttl := msgs[0].ttl - 1)] else [], Surviving(msgs[1..]), key);
      InQueueSplit(if msgs[0].ttl > 0 then [] else [msgs[0]], Expired(msgs[1..]), key);
    }
  }

  lemma {:induction false} AllDoneCount(msgs: seq<Msg>, err: int, key: nat)
    ensures Ended(AllDone(msgs, err), key) == InQueue(msgs, key)
    decreases |msgs|
  {
    if msgs != [] {
      AllDoneCount(msgs[1..], err, key);
      assert AllDone(msgs, err)[1..] == AllDone(msgs[1..], err);
    }
  }

  lemma {:induction false} RetimedCount(msgs: seq<Msg>, k: nat, ttl: nat, key: nat)
    ensures InQueue(Retimed(msgs, k, ttl), key) == InQueue(msgs, key)
    decreases |msgs|
  {
    if msgs != [] {
      RetimedCount(msgs[1..], k, ttl, key);
      assert Retimed(msgs, k, ttl)[1..] == Retimed(msgs[1..], k, ttl);
    }
  }

  lemma OneEvent(log: seq<Event>, e: Event, key: nat)
    ensures Ended(log + [e], key) == Ended(log, key) + Ended([e], key)
  {
    EndedSplit(log, [e], key);
  }

  ghost predicate Balanced(c: Chan, d: Chan, key: nat) {
    Held(d, key) + Ended(d.log, key) ==
    Held(c, key) + Ended(c.log, key) + (if key < d.next then 1 else 0) - (if key < c.next then 1 else 0)
  }

  lemma QueueBalance(c: Chan, m: Msg, id: int, key: nat)
    ensures Balanced(c, Enqueued(c, m), key) && Balanced(c, Withdraw(c, id), key)
  {
    InQueueSplit(c.msgs, [m.(key := c.next)], key);
    OneEvent(c.log, Accepted(c.next), key);
    var i := Pick(c.msgs, id);
    if i >= 0 {
      WithoutCount(c.msgs, i, key);
      OneEvent(c.log, Withdrawn(c.msgs[i].key), key);
    }
  }

  lemma TakeBalance(c: Chan, key: nat)
    ensures Balanced(c, TakeFirst(c), key)
  {
    if c.cur.None? && c.msgs != [] {
      OneEvent(c.log, Started(c.msgs[0].key), key);
    }
  }

  lemma ResponseBalance(c: Chan, id: int, key: nat)
    ensures Balanced(c, TakeResponse(c, id), key)
  {
    hide Without;
    var i := Pick(c.msgs, id);
    if c.cur.None? && i >= 0 {
      WithoutCount(c.msgs, i, key);
      OneEvent(c.log, Started(c.msgs[i].key), key);
    }
  }

  lemma RequestBalance(c: Chan, id: int, flags: nat, size: nat, key: nat)
    ensures Balanced(c, TakeRequest(c, id, flags, size), key)
  {
    if c.cur.None? {
      assert c.log + [Accepted(c.next), Started(c.next)] == (c.log + [Accepted(c.next)]) + [Started(c.next)];
      OneEvent(c.log, Accepted(c.next), key);
      OneEvent(c.log + [Accepted(c.next)], Started(c.next), key);
    }
  }

  lemma DrainedBalance(c: Chan, key: nat)
    ensures Balanced(c, DrainedOne(c), key)
  {
    if c.msgs != [] {
      OneEvent(c.log, Completed(c.msgs[0], ESHUTDOWN), key);
    }
  }

  /** A step moves a message along but never loses or doubles one. */
  lemma StepBalance(c: Chan, s: Step, key: nat)
    ensures Balanced(c, Apply(c, s), key)
  {
    hide Enqueued, Withdraw, TakeFirst, TakeResponse, TakeRequest, Finished, TimedOut, DrainedOne;
    match s
    case Enqueue(m) => QueueBalance(c, m, 0, key);
    case Owner(id) => QueueBalance(c, Msg(0, 0, [], 0, 0, 0), id, key);
    case First => TakeBalance(c, key);
    case Response(id) => ResponseBalance(c, id, key);
    case Request(id, flags, size) => RequestBalance(c, id, flags, size, key);
    case Done(err) => FinishedBalance(c, err, key);
    case Timer => TimedBalance(c, key);
    case SetTtl(k, ttl) => RetimedCount(c.msgs, k, ttl, key);
    case DrainOne => DrainedBalance(c, key);
    case _ =>
  }

  lemma FinishedBalance(c: Chan, err: int, key: nat)
    ensures Balanced(c, Finished(c, err), key) && Finished(c, err).next == c.next
  {
    if c.cur.Some? {
      OneEvent(c.log, Completed(c.cur.value, err), key);
    }
  }

  lemma TimedBalance(c: Chan, key: nat)
    ensures Balanced(c, TimedOut(c), key) && TimedOut(c).next == c.next
  {
    hide Surviving, Expired, AllDone, Ended, InQueue;
    var d := CurTimed(c);
    FinishedBalance(c, ETIMEDOUT, key);
    TimedCount(d.msgs, key);
    AllDoneCount(Expired(d.msgs), ETIMEDOUT, key);
    EndedSplit(d.log, AllDone(Expired(d.msgs), ETIMEDOUT), key);
  }

  /** Over every interleaving of steps, each accepted message is still held once,
      or was completed or withdrawn exactly once. */
  lemma {:induction false} RunConserves(c: Chan, steps: seq<Step>)
    requires Conserved(c)
    ensures Conserved(Run(c, steps))
    decreases |steps|
  {
    if steps != [] {
      var d := Apply(c, steps[0]);
      forall key: nat ensures Held(d, key) + Ended(d.log, key) == if key < d.next then 1 else 0 {
        StepBalance(c, steps[0], key);
        assert Held(c, key) + Ended(c.log, key) == if key < c.next then 1 else 0;
      }
      RunConserves(d, steps[1..]);
    }
  }

  lemma {:induction false} RunSplit(c: Chan, a: seq<Step>, b: seq<Step>)
    ensures Run(c, a + b) == Run(Run(c, a), b)
    decreases |a|
  {
    if a == [] {
      assert a + b == b;
    } else {
      assert (a + b)[0] == a[0] && (a + b)[1..] == a[1..] + b;
      RunSplit(Apply(c, a[0]), a[1..], b);
    }
  }

  /** Steps that may still be tried once the worker is gone. */
  predicate ByClient(s: Step) {
    s.Enqueue? || s.Owner? || s.Tick? || s.SetTtl?
  }

  predicate WorkerGone(steps: seq<Step>) {
    forall i :: 0 <= i < |steps| ==> ByClient(steps[i]) || steps[i].DrainOne?
  }

  /** Rounds of the last loop of chan_fini. */
  function Rounds(steps: seq<Step>): nat {
    if steps == [] then 0 else (if steps[0].DrainOne? then 1 else 0) + Rounds(steps[1..])
  }

  lemma {:induction false} StaysStopped(c: Chan, steps: seq<Step>)
    requires c.stopped
    ensures Run(c, steps).stopped && |Run(c, steps).msgs| <= |c.msgs|
    decreases |steps|
  {
    if steps != [] {
      OneStopped(c, steps[0]);
      StaysStopped(Apply(c, steps[0]), steps[1..]);
    }
  }

  lemma OneStopped(c: Chan, s: Step)
    requires c.stopped
    ensures Apply(c, s).stopped && |Apply(c, s).msgs| <= |c.msgs|
  {
    hide Expired, Surviving, Retimed, AllDone, Pick;
    SurvivingLength(c.msgs);
    match s
    case SetTtl(key, ttl) => RetimedLength(c.msgs, key, ttl);
    case _ =>
  }

  lemma {:induction false} SurvivingLength(msgs: seq<Msg>)
    ensures |Surviving(msgs)| <= |msgs|
    decreases |msgs|
  {
    if msgs != [] {
      SurvivingLength(msgs[1..]);
    }
  }

  lemma {:induction false} RetimedLength(msgs: seq<Msg>, key: nat, ttl: nat)
    ensures |Retimed(msgs, key, ttl)| == |msgs|
    decreases |msgs|
  {
    if msgs != [] {
      RetimedLength(msgs[1..], key, ttl);
    }
  }

  /** Without the worker, whatever owners and the timer do between the rounds of
      the loop: it needs no more rounds than messages were waiting. */
  lemma {:induction false} LoopEnds(c: Chan, steps: seq<Step>)
    requires c.stopped && c.cur == None && WorkerGone(steps)
    ensures var d := Run(c, steps);
            && d.stopped && d.cur == None && d.next == c.next
            && (Rounds(steps) >= |c.msgs| ==> d.msgs == [])
    decreases |steps|
  {
    if steps != [] {
      var s := steps[0];
      var d := Apply(c, s);
      assert ByClient(s) || s.DrainOne?;
      OneStopped(c, s);
      assert s.DrainOne? ==> |d.msgs| <= if c.msgs == [] then 0 else |c.msgs| - 1;
      assert forall i :: 0 <= i < |steps| - 1 ==> steps[1..][i] == steps[i + 1];
      LoopEnds(d, steps[1..]);
    }
  }

  /** chan_fini between any other steps: whatever ran before, and between the stop
      bit and the end of the worker, and whatever owners and the timer do while the
      queue is emptied, afterwards every message that was ever accepted has ended
      once. */
  lemma FiniEndsAll(before: seq<Step>, meanwhile: seq<Step>, loop: seq<Step>, key: nat)
    requires WorkerGone(loop)
    requires Rounds(loop) >= |Run(FRESH, before).msgs|
    ensures var c := Run(FRESH, before + [Stop] + meanwhile + [Done(ESHUTDOWN)] + loop);
            && c.msgs == [] && c.cur == None && c.stopped
            && Ended(c.log, key) == if key < c.next then 1 else 0
  {
    hide Apply, Rounds, Conserved;
    var b := Run(FRESH, before);
    var s := Run(FRESH, before + [Stop]);
    var w := Run(FRESH, before + [Stop] + meanwhile);
    var e := Run(FRESH, before + [Stop] + meanwhile + [Done(ESHUTDOWN)]);
    var c := Run(FRESH, before + [Stop] + meanwhile + [Done(ESHUTDOWN)] + loop);
    RunSplit(FRESH, before, [Stop]);
    OneRun(b, Stop);
    RunSplit(FRESH, before + [Stop], meanwhile);
    RunSplit(FRESH, before + [Stop] + meanwhile, [Done(ESHUTDOWN)]);
    OneRun(w, Done(ESHUTDOWN));
    RunSplit(FRESH, before + [Stop] + meanwhile + [Done(ESHUTDOWN)], loop);
    ShutFacts(b, w);
    StaysStopped(s, meanwhile);
    LoopEnds(e, loop);
    RunConserves(FRESH, before + [Stop] + meanwhile + [Done(ESHUTDOWN)] + loop) by {
      FreshConserved();
    }
    EndedOnce(c, key);
  }

  lemma OneRun(c: Chan, s: Step)
    ensures Run(c, [s]) == Apply(c, s)
  {
    assert [s][1..] == [];
    assert Run(Apply(c, s), []) == Apply(c, s);
  }

  lemma ShutFacts(b: Chan, w: Chan)
    ensures Apply(b, Stop).stopped && Apply(b, Stop).msgs == b.msgs
    ensures var e := Apply(w, Done(ESHUTDOWN)); e.cur == None && e.stopped == w.stopped && e.msgs == w.msgs
  {
  }

  lemma FreshConserved()
    ensures Conserved(FRESH)
  {
  }

  lemma EndedOnce(c: Chan, key: nat)
    requires Conserved(c) && c.msgs == [] && c.cur == None
    ensures Ended(c.log, key) == if key < c.next then 1 else 0
  {
    assert Held(c, key) + Ended(c.log, key) == if key < c.next then 1 else 0;
  }

  function Drains(n: nat): seq<Step> {
    if n == 0 then [] else [DrainOne] + Drains(n - 1)
  }

  /** chan_fini in one go is a run of its steps. */
  lemma DrainedIsRun(c: Chan)
    ensures Drained(c) == Run(c, [Stop, Done(ESHUTDOWN)] + Drains(|c.msgs|))
  {
    hide Run, AllDone, Drains;
    var e := Finished(Stopped(c), ESHUTDOWN);
    assert [Stop, Done(ESHUTDOWN)] == [Stop] + [Done(ESHUTDOWN)];
    RunSplit(c, [Stop, Done(ESHUTDOWN)], Drains(|c.msgs|));
    RunSplit(c, [Stop], [Done(ESHUTDOWN)]);
    OneRun(c, Stop);
    OneRun(Stopped(c), Done(ESHUTDOWN));
    DrainsAll(e);
  }

  lemma {:induction false} DrainsAll(c: Chan)
    ensures Run(c, Drains(|c.msgs|)) == c.(msgs := [], log := c.log + AllDone(c.msgs, ESHUTDOWN))
    decreases |c.msgs|
  {
    hide Run, Apply;
    if c.msgs == [] {
      NoRun(c);
      assert c.log + [] == c.log;
    } else {
      var d := DrainedOne(c);
      RunSplit(c, [DrainOne], Drains(|d.msgs|));
      OneRun(c, DrainOne);
      DrainOneIs(c);
      DrainsAll(d);
      assert c.log + AllDone(c.msgs, ESHUTDOWN) == d.log + AllDone(d.msgs, ESHUTDOWN);
    }
  }

  lemma NoRun(c: Chan)
    ensures Run(c, []) == c
  {
  }

  lemma DrainOneIs(c: Chan)
    ensures Apply(c, DrainOne) == DrainedOne(c)
  {
  }

  /** ... and nothing is accepted or held again. */
  lemma {:induction false} StaysDown(c: Chan, steps: seq<Step>)
    requires c.stopped && c.msgs == [] && c.cur == None
    requires forall i :: 0 <= i < |steps| ==> ByClient(steps[i])
    ensures var d := Run(c, steps); d.msgs == [] && d.cur == None && d.next == c.next && d.log == c.log
    decreases |steps|
  {
    if steps != [] {
      assert ByClient(steps[0]);
      StaysDown(Apply(c, steps[0]), steps[1..]);
    }
  }

  // ---- what an owner may free ------------------------------------------------------------

  predicate IsCur(c: Chan, key: nat) {
    c.cur.Some? && c.cur.value.key == key
  }

  /** An owner that takes its message back by id and then frees it frees memory that
      the channel still uses, unless the channel did not hold the message any more,
      or it was waiting and the first with that id. */
  lemma FreedSafelyIff(c: Chan, id: int, key: nat)
    requires Conserved(c)
    ensures Held(Withdraw(c, id), key) == 0 <==>
            Held(c, key) == 0 || (!IsCur(c, key) && Pick(c.msgs, id) >= 0 && c.msgs[Pick(c.msgs, id)].key == key)
  {
    hide Pick, Without;
    var i := Pick(c.msgs, id);
    assert Held(c, key) + Ended(c.log, key) == if key < c.next then 1 else 0;
    if i >= 0 {
      WithoutCount(c.msgs, i, key);
    }
  }

  /** mailbox_request after a failed send: the response that has begun to arrive is
      not found among the waiting ones, stays the current message, and is freed. */
  lemma FreedWhileCurrent(m: Msg)
    ensures var c := Run(FRESH, [Enqueue(m), Response(m.id), Owner(m.id)]);
            m.id != INVALID_MSG_ID ==> IsCur(c, 0) && Held(c, 0) == 1
  {
    if m.id != INVALID_MSG_ID {
      var a, b := Enqueued(FRESH, m), TakeResponse(Enqueued(FRESH, m), m.id);
      assert a.msgs == [m.(key := 0)];
      assert b.cur == Some(m.(key := 0)) && b.msgs == [];
      assert Withdraw(b, m.id) == b;
      var steps := [Enqueue(m), Response(m.id), Owner(m.id)];
      assert steps[1..] == [Response(m.id), Owner(m.id)] && steps[1..][1..] == [Owner(m.id)];
      OneRun(b, Owner(m.id));
      assert Run(a, steps[1..]) == Run(b, steps[1..][1..]);
    }
  }

  // ---- transmissions start in the order of acceptance ---------------------------------------

  /** One more than the message that started last. */
  function Mark(log: seq<Event>): nat {
    if log == [] then 0
    else match log[|log| - 1]
      case Started(k) => k + 1
      case _ => Mark(log[..|log| - 1])
  }

  /** Every message that started was accepted after those started before it. */
  predicate StartsRise(log: seq<Event>) {
    log == [] ||
    (StartsRise(log[..|log| - 1]) && (log[|log| - 1].Started? ==> log[|log| - 1].key >= Mark(log[..|log| - 1])))
  }

  predicate Rising(msgs: seq<Msg>, lo: nat, hi: nat) {
    if msgs == [] then lo <= hi else lo <= msgs[0].key < hi && Rising(msgs[1..], msgs[0].key + 1, hi)
  }

  /** The queue is in order of acceptance, behind everything that started. */
  predicate InOrder(c: Chan) {
    StartsRise(c.log) && Rising(c.msgs, Mark(c.log), c.next)
  }

  lemma LogGrows(log: seq<Event>, e: Event)
    ensures Mark(log + [e]) == (if e.Started? then e.key + 1 else Mark(log))
    ensures StartsRise(log + [e]) <==> StartsRise(log) && (e.Started? ==> e.key >= Mark(log))
  {
    assert (log + [e])[..|log|] == log;
  }

  lemma {:induction false} DoneGrows(log: seq<Event>, msgs: seq<Msg>, err: int)
    ensures Mark(log + AllDone(msgs, err)) == Mark(log)
    ensures StartsRise(log + AllDone(msgs, err)) <==> StartsRise(log)
    decreases |msgs|
  {
    hide Mark, StartsRise;
    if msgs == [] {
      assert log + [] == log;
    } else {
      var e := Completed(msgs[0], err);
      LogGrows(log, e);
      DoneGrows(log + [e], msgs[1..], err);
      assert log + AllDone(msgs, err) == (log + [e]) + AllDone(msgs[1..], err);
    }
  }

  lemma {:induction false} RisingLow(msgs: seq<Msg>, lo: nat, hi: nat, low: nat)
    requires Rising(msgs, lo, hi) && low <= lo
    ensures Rising(msgs, low, hi) && lo <= hi
    decreases |msgs|
  {
    if msgs != [] {
      RisingLow(msgs[1..], msgs[0].key + 1, hi, msgs[0].key + 1);
    }
  }

  lemma {:induction false} RisingAdd(msgs: seq<Msg>, lo: nat, hi: nat, m: Msg)
    requires Rising(msgs, lo, hi) && m.key == hi
    ensures Rising(msgs + [m], lo, hi + 1)
    decreases |msgs|
  {
    if msgs == [] {
      assert [m][1..] == [];
    } else {
      assert (msgs + [m])[0] == msgs[0] && (msgs + [m])[1..] == msgs[1..] + [m];
      RisingAdd(msgs[1..], msgs[0].key + 1, hi, m);
    }
  }

  lemma {:induction false} RisingWithout(msgs: seq<Msg>, lo: nat, hi: nat, i: int)
    requires Rising(msgs, lo, hi) && 0 <= i < |msgs|
    ensures Rising(Without(msgs, i), lo, hi)
    decreases i
  {
    RisingLow(msgs[1..], msgs[0].key + 1, hi, lo);
    if i == 0 {
      assert Without(msgs, 0) == msgs[1..];
    } else {
      RisingWithout(msgs[1..], msgs[0].key + 1, hi, i - 1);
      assert Without(msgs, i)[0] == msgs[0] && Without(msgs, i)[1..] == Without(msgs[1..], i - 1);
    }
  }

  lemma {:induction false} RisingSurvives(msgs: seq<Msg>, lo: nat, hi: nat)
    requires Rising(msgs, lo, hi)
    ensures Rising(Surviving(msgs), lo, hi)
    decreases |msgs|
  {
    if msgs != [] {
      RisingSurvives(msgs[1..], msgs[0].key + 1, hi);
      if msgs[0].ttl > 0 {
        assert Surviving(msgs)[1..] == Surviving(msgs[1..]);
      } else {
        RisingLow(Surviving(msgs[1..]), msgs[0].key + 1, hi, lo);
        assert Surviving(msgs) == Surviving(msgs[1..]);
      }
    }
  }

  lemma {:induction false} RisingRetimed(msgs: seq<Msg>, lo: nat, hi: nat, k: nat, ttl: nat)
    requires Rising(msgs, lo, hi)
    ensures Rising(Retimed(msgs, k, ttl), lo, hi)
    decreases |msgs|
  {
    if msgs != [] {
      RisingRetimed(msgs[1..], msgs[0].key + 1, hi, k, ttl);
      assert Retimed(msgs, k, ttl)[1..] == Retimed(msgs[1..], k, ttl);
    }
  }

  /** Steps a transmit channel takes. */
  predicate OfTx(s: Step) {
    !s.Response? && !s.Request?
  }

  lemma FinishedOrder(c: Chan, err: int)
    requires InOrder(c)
    ensures InOrder(Finished(c, err))
  {
    if c.cur.Some? {
      LogGrows(c.log, Completed(c.cur.value, err));
    }
  }

  lemma FirstOrder(c: Chan)
    requires InOrder(c)
    ensures InOrder(TakeFirst(c))
  {
    hide Mark, StartsRise;
    if c.cur.None? && c.msgs != [] {
      LogGrows(c.log, Started(c.msgs[0].key));
    }
  }

  lemma StepOrder(c: Chan, s: Step)
    requires InOrder(c) && OfTx(s)
    ensures InOrder(Apply(c, s))
  {
    hide Mark, StartsRise, TimedOut, DrainedOne, Finished, Pick, TakeFirst;
    RisingLow(c.msgs, Mark(c.log), c.next, 0);
    match s
    case Enqueue(m) =>
      RisingAdd(c.msgs, Mark(c.log), c.next, m.(key := c.next));
      LogGrows(c.log, Accepted(c.next));
    case Owner(id) =>
      var i := Pick(c.msgs, id);
      if i >= 0 {
        RisingWithout(c.msgs, Mark(c.log), c.next, i);
        LogGrows(c.log, Withdrawn(c.msgs[i].key));
      }
    case First => FirstOrder(c);
    case Done(err) => FinishedOrder(c, err);
    case Timer => TimedOrder(c);
    case SetTtl(k, ttl) => RisingRetimed(c.msgs, Mark(c.log), c.next, k, ttl);
    case DrainOne => DrainedOrder(c);
    case _ =>
  }

  lemma TimedOrder(c: Chan)
    requires InOrder(c)
    ensures InOrder(TimedOut(c))
  {
    hide Mark, StartsRise, Rising, Surviving, Expired, AllDone;
    var d := CurTimed(c);
    FinishedOrder(c, ETIMEDOUT);
    RisingSurvives(d.msgs, Mark(d.log), d.next);
    DoneGrows(d.log, Expired(d.msgs), ETIMEDOUT);
  }

  lemma DrainedOrder(c: Chan)
    requires InOrder(c)
    ensures InOrder(DrainedOne(c))
  {
    hide Mark, StartsRise;
    if c.msgs != [] {
      LogGrows(c.log, Completed(c.msgs[0], ESHUTDOWN));
      RisingLow(c.msgs[1..], c.msgs[0].key + 1, c.next, Mark(c.log));
    }
  }

  /** Over every run of a transmit channel, transmissions start in the order in
      which the messages were enqueued. */
  lemma {:induction false} TxInOrder(c: Chan, steps: seq<Step>)
    requires InOrder(c) && forall i :: 0 <= i < |steps| ==> OfTx(steps[i])
    ensures InOrder(Run(c, steps))
    decreases |steps|
  {
    hide Apply, InOrder;
    if steps != [] {
      assert OfTx(steps[0]);
      StepOrder(c, steps[0]);
      TxInOrder(Apply(c, steps[0]), steps[1..]);
    }
  }

  // ---- time-outs ----------------------------------------------------------------------------

  function QueueTtl(msgs: seq<Msg>, key: nat): Option<nat> {
    if msgs == [] then None else if msgs[0].key == key then Some(msgs[0].ttl) else QueueTtl(msgs[1..], key)
  }

  /** The time a held message has left. */
  function TtlOf(c: Chan, key: nat): Option<nat> {
    if c.cur.Some? && c.cur.value.key == key then Some(c.cur.value.ttl) else QueueTtl(c.msgs, key)
  }

  /** A step that is no progress for the message and leaves it alone. */
  predicate Idle(c: Chan, s: Step, key: nat) {
    match s
    case Done(_) => !IsCur(c, key)
    case Reset => !IsCur(c, key)
    case DrainOne => c.msgs == [] || c.msgs[0].key != key
    case SetTtl(k, _) => k != key
    case Owner(id) => Pick(c.msgs, id) < 0 || c.msgs[Pick(c.msgs, id)].key != key
    case _ => true
  }

  predicate Handles(c: Chan, s: Step) {
    s.Timer? && c.tick
  }

  predicate GaveUp(log: seq<Event>, key: nat) {
    exists i :: 0 <= i < |log| && log[i].Completed? && log[i].m.key == key && log[i].err == ETIMEDOUT
  }

  lemma {:induction false} QueueTtlIff(msgs: seq<Msg>, key: nat)
    ensures QueueTtl(msgs, key).Some? <==> InQueue(msgs, key) > 0
    decreases |msgs|
  {
    if msgs != [] {
      QueueTtlIff(msgs[1..], key);
    }
  }

  lemma {:induction false} QueueTtlAdd(msgs: seq<Msg>, more: seq<Msg>, key: nat)
    ensures QueueTtl(msgs + more, key) == if QueueTtl(msgs, key).Some? then QueueTtl(msgs, key) else QueueTtl(more, key)
    decreases |msgs|
  {
    if msgs == [] {
      assert msgs + more == more;
    } else {
      assert (msgs + more)[0] == msgs[0] && (msgs + more)[1..] == msgs[1..] + more;
      QueueTtlAdd(msgs[1..], more, key);
    }
  }

  lemma QueueTtlWithout(msgs: seq<Msg>, i: int, key: nat)
    requires 0 <= i < |msgs|
    ensures msgs[i].key != key ==> QueueTtl(Without(msgs, i), key) == QueueTtl(msgs, key)
    ensures msgs[i].key == key && InQueue(msgs, key) <= 1 ==> QueueTtl(msgs, key) == Some(msgs[i].ttl)
  {
    assert msgs == msgs[..i] + ([msgs[i]] + msgs[i + 1..]);
    assert ([msgs[i]] + msgs[i + 1..])[1..] == msgs[i + 1..];
    QueueTtlAdd(msgs[..i], [msgs[i]] + msgs[i + 1..], key);
    QueueTtlAdd(msgs[..i], msgs[i + 1..], key);
    InQueueSplit(msgs[..i], [msgs[i]] + msgs[i + 1..], key);
    QueueTtlIff(msgs[..i], key);
  }

  lemma {:induction false} QueueTtlTimed(msgs: seq<Msg>, key: nat)
    requires InQueue(msgs, key) <= 1
    ensures QueueTtl(msgs, key).Some? ==>
              var t := QueueTtl(msgs, key).value;
              && QueueTtl(Surviving(msgs), key) == (if t > 0 then Some(t - 1) else None)
              && (t == 0 ==> InQueue(Expired(msgs), key) == 1)
    ensures QueueTtl(msgs, key).None? ==> QueueTtl(Surviving(msgs), key).None?
    decreases |msgs|
  {
    if msgs != [] {
      QueueTtlIff(msgs[1..], key);
      QueueTtlTimed(msgs[1..], key);
      if msgs[0].ttl > 0 {
        assert Surviving(msgs)[1..] == Surviving(msgs[1..]);
        assert Expired(msgs) == Expired(msgs[1..]);
      } else {
        assert Surviving(msgs) == Surviving(msgs[1..]);
        assert Expired(msgs)[1..] == Expired(msgs[1..]);
        TimedCount(msgs[1..], key);
      }
    }
  }

  lemma {:induction false} QueueTtlRetimed(msgs: seq<Msg>, k: nat, ttl: nat, key: nat)
    requires k != key
    ensures QueueTtl(Retimed(msgs, k, ttl), key) == QueueTtl(msgs, key)
    decreases |msgs|
  {
    if msgs != [] {
      QueueTtlRetimed(msgs[1..], k, ttl, key);
      assert Retimed(msgs, k, ttl)[1..] == Retimed(msgs[1..], k, ttl);
    }
  }

  lemma {:induction false} GaveUpIn(log: seq<Event>, msgs: seq<Msg>, key: nat)
    requires InQueue(msgs, key) > 0
    ensures GaveUp(log + AllDone(msgs, ETIMEDOUT), key)
    decreases |msgs|
  {
    var e := Completed(msgs[0], ETIMEDOUT);
    var all := log + AllDone(msgs, ETIMEDOUT);
    assert all == (log + [e]) + AllDone(msgs[1..], ETIMEDOUT);
    if msgs[0].key == key {
      assert all[|log|] == e;
    } else {
      GaveUpIn(log + [e], msgs[1..], key);
    }
  }

  lemma GaveUpStays(log: seq<Event>, more: seq<Event>, key: nat)
    requires GaveUp(log, key)
    ensures GaveUp(log + more, key)
  {
    var i :| 0 <= i < |log| && log[i].Completed? && log[i].m.key == key && log[i].err == ETIMEDOUT;
    assert (log + more)[i] == log[i];
  }

  /** One handled tick takes one from the time left, or ends the message. */
  lemma TickTakesOne(c: Chan, key: nat)
    requires TtlOf(c, key).Some? && Held(c, key) <= 1
    ensures var d, t := TimedOut(c), TtlOf(c, key).value;
            && TtlOf(d, key) == (if t > 0 then Some(t - 1) else None)
            && (t == 0 ==> GaveUp(d.log, key))
  {
    var d := CurTimed(c);
    QueueTtlIff(c.msgs, key);
    QueueTtlTimed(c.msgs, key);
    if IsCur(c, key) {
      if c.cur.value.ttl == 0 {
        assert d.log[|c.log|] == Completed(c.cur.value, ETIMEDOUT);
        assert GaveUp(d.log, key);
        GaveUpStays(d.log, AllDone(Expired(d.msgs), ETIMEDOUT), key);
      }
    } else if TtlOf(c, key).value == 0 {
      GaveUpIn(d.log, Expired(d.msgs), key);
    }
  }

  /** Any other idle step leaves the time alone. */
  lemma IdleKeeps(c: Chan, s: Step, key: nat)
    requires TtlOf(c, key).Some? && Held(c, key) <= 1 && key < c.next && Idle(c, s, key) && !Handles(c, s)
    ensures TtlOf(Apply(c, s), key) == TtlOf(c, key)
  {
    QueueTtlIff(c.msgs, key);
    match s
    case Enqueue(m) => QueueTtlAdd(c.msgs, [m.(key := c.next)], key);
    case Owner(id) =>
      if Pick(c.msgs, id) >= 0 {
        QueueTtlWithout(c.msgs, Pick(c.msgs, id), key);
      }
    case Response(id) =>
      if Pick(c.msgs, id) >= 0 {
        QueueTtlWithout(c.msgs, Pick(c.msgs, id), key);
      }
    case SetTtl(k, ttl) => QueueTtlRetimed(c.msgs, k, ttl, key);
    case DrainOne =>
      if c.msgs != [] {
        assert Without(c.msgs, 0) == c.msgs[1..];
        QueueTtlWithout(c.msgs, 0, key);
      }
    case _ =>
  }

  predicate IdleRun(c: Chan, steps: seq<Step>, key: nat)
    decreases |steps|
  {
    steps == [] || (Idle(c, steps[0], key) && IdleRun(Apply(c, steps[0]), steps[1..], key))
  }

  function HandledTicks(c: Chan, steps: seq<Step>): nat
    decreases |steps|
  {
    if steps == [] then 0
    else (if Handles(c, steps[0]) then 1 else 0) + HandledTicks(Apply(c, steps[0]), steps[1..])
  }

  lemma StepConserves(c: Chan, s: Step)
    requires Conserved(c)
    ensures Conserved(Apply(c, s)) && Apply(c, s).next >= c.next
  {
    hide Held, Ended, Apply;
    NextGrows(c, s);
    forall key: nat
      ensures Held(Apply(c, s), key) + Ended(Apply(c, s).log, key) == if key < Apply(c, s).next then 1 else 0
    {
      StepBalance(c, s, key);
      assert Held(c, key) + Ended(c.log, key) == if key < c.next then 1 else 0;
    }
  }

  lemma NextGrows(c: Chan, s: Step)
    ensures Apply(c, s).next >= c.next
  {
  }

  lemma LogExtends(c: Chan, s: Step, key: nat)
    requires GaveUp(c.log, key)
    ensures GaveUp(Apply(c, s).log, key)
  {
    hide GaveUp, Surviving, Expired, Retimed, Without;
    var d := Apply(c, s);
    assert c.log <= d.log;
    assert d.log == c.log + d.log[|c.log|..];
    GaveUpStays(c.log, d.log[|c.log|..], key);
  }

  lemma {:induction false} LogExtendsRun(c: Chan, steps: seq<Step>, key: nat)
    requires GaveUp(c.log, key)
    ensures GaveUp(Run(c, steps).log, key)
    decreases |steps|
  {
    hide Apply, GaveUp;
    if steps != [] {
      LogExtends(c, steps[0], key);
      LogExtendsRun(Apply(c, steps[0]), steps[1..], key);
    }
  }

  /** A message with TTL t that sees no progress is still held, with the rest of
      its time, as long as at most t ticks were handled, and has failed with
      ETIMEDOUT once t + 1 were. */
  lemma {:induction false} TtlExact(c: Chan, steps: seq<Step>, key: nat)
    requires Conserved(c) && TtlOf(c, key).Some? && IdleRun(c, steps, key)
    ensures var d, t, n := Run(c, steps), TtlOf(c, key).value, HandledTicks(c, steps);
            if n <= t then TtlOf(d, key) == Some(t - n) else GaveUp(d.log, key)
    decreases |steps|
  {
    hide Apply, TtlOf, GaveUp, Conserved, Idle, TimedOut;
    if steps != [] {
      var s := steps[0];
      HeldOnce(c, key);
      StepConserves(c, s);
      if Handles(c, s) {
        TickTakesOne(c, key);
        HandledIs(c, s, key);
        if TtlOf(c, key).value == 0 {
          LogExtendsRun(Apply(c, s), steps[1..], key);
        } else {
          TtlExact(Apply(c, s), steps[1..], key);
        }
      } else {
        IdleKeeps(c, s, key);
        TtlExact(Apply(c, s), steps[1..], key);
      }
    }
  }

  lemma HandledIs(c: Chan, s: Step, key: nat)
    requires Handles(c, s)
    ensures Apply(c, s).log == TimedOut(c).log && TtlOf(Apply(c, s), key) == TtlOf(TimedOut(c), key)
  {
  }

  lemma HeldOnce(c: Chan, key: nat)
    requires Conserved(c) && TtlOf(c, key).Some?
    ensures Held(c, key) == 1 && key < c.next
  {
    QueueTtlIff(c.msgs, key);
    assert Held(c, key) + Ended(c.log, key) == if key < c.next then 1 else 0;
  }
}
