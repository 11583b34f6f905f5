/** mailbox.c: cutting messages into packets, putting them together again, and
    the channel object whose methods are the steps of MailboxChan. */
module Mailbox {
  import opened Bytes
  import opened Errno
  import opened FdtTree
  import opened MailboxChan

  const START_PAYLOAD := 40
  const BODY_PAYLOAD := 56
  const MAX_REQ_MSG_SZ := 1024 * 1024
  const MAX_MSG_QUEUE_LEN := 5

  /** struct mailbox_pkt; Other stands for test and invalid packets. */
  datatype Packet =
    | Start(id: int, flags: nat, size: nat, payload: seq<byte>, eom: bool)
    | Body(payload: seq<byte>, eom: bool)
    | Other

  predicate IsResponse(flags: nat) {
    flags % 2 == 1
  }

  predicate IsRequest(flags: nat) {
    flags / 2 % 2 == 1
  }

  // ---- sending ----------------------------------------------------------------------

  /** A message that is sent: its data is all of its buffer. */
  predicate Sendable(m: Msg) {
    |m.data| == m.len
  }

  /** Payload of the packet that follows after done bytes. */
  function Chunk(m: Msg, done: nat): nat
    requires done <= m.len
  {
    var room := if done == 0 then START_PAYLOAD else BODY_PAYLOAD;
    if room >= m.len - done then m.len - done else room
  }

  /** chan_msg2pkt */
  function PacketAt(m: Msg, done: nat): Packet
    requires Sendable(m) && done <= m.len
  {
    var cnt := Chunk(m, done);
    var eom := cnt == m.len - done;
    if done == 0 then Start(m.id, m.flags, m.len, m.data[..cnt], eom)
    else Body(m.data[done..done + cnt], eom)
  }

  /** The packets of a message from done bytes on. */
  function Segments(m: Msg, done: nat): (r: seq<Packet>)
    requires Sendable(m) && done <= m.len
    decreases m.len - done
  {
    if done == m.len then [] else [PacketAt(m, done)] + Segments(m, done + Chunk(m, done))
  }

  function CeilDiv(a: int, b: int): int
    requires b > 0
  {
    (a + b - 1) / b
  }

  lemma {:induction false} BodyCount(m: Msg, done: nat)
    requires Sendable(m) && 0 < done <= m.len
    ensures |Segments(m, done)| == CeilDiv(m.len - done, BODY_PAYLOAD)
    ensures forall i :: 0 <= i < |Segments(m, done)| ==> Segments(m, done)[i].Body?
    decreases m.len - done
  {
    if done < m.len {
      BodyCount(m, done + Chunk(m, done));
    }
  }

  /** One start packet with up to 40 bytes, then as few body packets as the rest
      needs at 56 bytes each. */
  lemma SegmentCount(m: Msg)
    requires Sendable(m) && m.len > 0
    ensures |Segments(m, 0)| == if m.len <= 40 then 1 else 1 + (m.len - 40 + 55) / 56
    ensures var s := Segments(m, 0); s[0].Start? && forall i :: 1 <= i < |s| ==> s[i].Body?
  {
    BodyCount(m, Chunk(m, 0));
  }

  /** The bytes of a packet: type and payload size, in a start packet also the
      message's id, flags and size. */
  function PacketBytes(p: Packet): nat {
    match p
    case Start(_, _, _, payload, _) => 4 + 4 + 8 + 4 + 4 + |payload|
    case Body(payload, _) => 4 + 4 + |payload|
    case Other => 64
  }

  /** A packet has room for 64 bytes: none has more, and all but the last have as
      many. Only the last one says that it is. */
  lemma {:induction false} PacketsFill(m: Msg, done: nat, i: nat)
    requires Sendable(m) && done <= m.len && i < |Segments(m, done)|
    ensures var s := Segments(m, done);
            && PacketBytes(s[i]) <= 64 && !s[i].Other?
            && (i + 1 < |s| ==> PacketBytes(s[i]) == 64)
            && (s[i].eom <==> i + 1 == |s|)
    decreases i
  {
    var next := done + Chunk(m, done);
    if i > 0 {
      PacketsFill(m, next, i - 1);
    } else if next < m.len {
      assert |Segments(m, next)| > 0;
    }
  }

  /** Readiness of the transmit side as chan_do_tx reads it: once to see whether
      the last packet is gone, once before it sends. */
  datatype Ready = Ready(gone: bool, free: bool)

  /** The packets sent while m is the current message, of which done bytes were
      sent before. */
  function Outgoing(m: Msg, done: nat, rs: seq<Ready>): seq<Packet>
    requires Sendable(m) && done <= m.len
    decreases |rs|
  {
    if rs == [] || (rs[0].gone && done == m.len) then []
    else if rs[0].free then [PacketAt(m, done)] + Outgoing(m, done + Chunk(m, done), rs[1..])
    else Outgoing(m, done, rs[1..])
  }

  /** Whether it is completed in that time. */
  predicate Leaves(m: Msg, done: nat, rs: seq<Ready>)
    requires Sendable(m) && done <= m.len
    decreases |rs|
  {
    rs != [] &&
    ((rs[0].gone && done == m.len)
     || (if rs[0].free then Leaves(m, done + Chunk(m, done), rs[1..]) else Leaves(m, done, rs[1..])))
  }

  /** Empty end packets, sent again when the channel turns ready between the two
      looks at it. */
  function Echoes(n: nat): seq<Packet> {
    if n == 0 then [] else [Body([], true)] + Echoes(n - 1)
  }

  /** Rounds that find the channel free. */
  function FreeIn(rs: seq<Ready>): nat {
    if rs == [] then 0 else (if rs[0].free then 1 else 0) + FreeIn(rs[1..])
  }

  /** The rounds behind the n-th that finds the channel free. */
  function After(rs: seq<Ready>, n: nat): seq<Ready>
    decreases |rs|
  {
    if n == 0 || rs == [] then rs else After(rs[1..], if rs[0].free then n - 1 else n)
  }

  /** Rounds that find the channel free before one saw the last packet gone. */
  function Lingering(rs: seq<Ready>): nat {
    if rs == [] || rs[0].gone then 0 else (if rs[0].free then 1 else 0) + Lingering(rs[1..])
  }

  /** A round has seen the last packet gone. */
  predicate SeenGone(rs: seq<Ready>) {
    exists i :: 0 <= i < |rs| && rs[i].gone
  }

  lemma SeenStep(rs: seq<Ready>)
    ensures SeenGone(rs) <==> rs != [] && (rs[0].gone || SeenGone(rs[1..]))
  {
    if rs != [] {
      assert forall i :: 0 <= i < |rs| && rs[i].gone && i > 0 ==> rs[1..][i - 1].gone;
      assert forall i :: 0 <= i < |rs[1..]| && rs[1..][i].gone ==> rs[i + 1].gone;
    }
  }

  /** All being out, there are only echoes left to send. */
  lemma {:induction false} EchoesOut(m: Msg, rs: seq<Ready>)
    requires Sendable(m) && 0 < m.len
    ensures Outgoing(m, m.len, rs) == Echoes(Lingering(rs)) && (Leaves(m, m.len, rs) <==> SeenGone(rs))
    decreases |rs|
  {
    hide SeenGone;
    assert PacketAt(m, m.len) == Body([], true) && Chunk(m, m.len) == 0;
    SeenStep(rs);
    if rs != [] {
      EchoesOut(m, rs[1..]);
    }
  }

  /** Whatever the channel's readiness, the packets sent for a message are its
      segments in order, one for each free round; once they are out, one echo for
      each free round before the last packet is seen gone, which completes it. */
  lemma {:induction false} OutgoingIs(m: Msg, done: nat, rs: seq<Ready>)
    requires Sendable(m) && 0 < m.len && done <= m.len
    ensures var all, out := Segments(m, done), Outgoing(m, done, rs);
            var rest := After(rs, |all|);
            && (FreeIn(rs) < |all| ==> out == all[..FreeIn(rs)])
            && (FreeIn(rs) >= |all| ==> out == all + Echoes(Lingering(rest)))
            && (Leaves(m, done, rs) <==> FreeIn(rs) >= |all| && SeenGone(rest))
    decreases |rs|
  {
    hide SeenGone, PacketAt, Lingering, Echoes;
    var all := Segments(m, done);
    if done == m.len {
      EchoesOut(m, rs);
    } else if rs != [] {
      if rs[0].free {
        OutgoingIs(m, done + Chunk(m, done), rs[1..]);
        assert all[1..] == Segments(m, done + Chunk(m, done));
      } else {
        OutgoingIs(m, done, rs[1..]);
      }
    }
  }

  lemma {:induction false} EchoesLength(n: nat)
    ensures |Echoes(n)| == n
  {
    if n > 0 {
      EchoesLength(n - 1);
    }
  }

  /** More packets than the message needs go out exactly when, all of it being out,
      a round finds the channel free before any has seen the last packet gone. */
  lemma EchoedIff(m: Msg, done: nat, rs: seq<Ready>)
    requires Sendable(m) && 0 < m.len && done <= m.len
    ensures var all := Segments(m, done);
            |Outgoing(m, done, rs)| > |all| <==> FreeIn(rs) >= |all| && Lingering(After(rs, |all|)) > 0
  {
    OutgoingIs(m, done, rs);
    EchoesLength(Lingering(After(rs, |Segments(m, done)|)));
  }

  /** With a channel that does not turn ready in between there are no echoes. */
  lemma {:induction false} NoEchoes(rs: seq<Ready>, n: nat)
    requires forall i :: 0 <= i < |rs| ==> rs[i].free ==> rs[i].gone
    ensures Lingering(After(rs, n)) == 0
    decreases |rs|
  {
    if rs != [] {
      NoEchoes(rs[1..], if n > 0 && rs[0].free then n - 1 else n);
      if n == 0 {
        assert rs[0].free ==> rs[0].gone;
      }
    }
  }

  /** One byte, sent as one packet, that is followed by an empty end packet. */
  lemma OneByteTwoPackets(id: int, flags: nat, b: byte)
    ensures var m := Msg(0, id, [b], 1, flags, 0);
            && |Segments(m, 0)| == 1
            && Outgoing(m, 0, [Ready(true, true), Ready(false, true)]) ==
               [Start(id, flags, 1, [b], true), Body([], true)]
  {
    var m := Msg(0, id, [b], 1, flags, 0);
    var last := [Ready(false, true)];
    assert [Ready(true, true), Ready(false, true)][1..] == last && last[1..] == [];
    assert m.data[..1] == [b];
    assert Outgoing(m, 1, []) == [];
    assert PacketAt(m, 1) == Body([], true) && Outgoing(m, 1, last) == [Body([], true)];
    assert Segments(m, 1) == [];
  }

  /** A message of length zero is recognised as not yet started by its zero bytes
      done, so its start packet can go out twice. */
  lemma EmptyTwice(id: int, flags: nat)
    ensures var m := Msg(0, id, [], 0, flags, 0);
            Outgoing(m, 0, [Ready(false, true), Ready(false, true)]) ==
            [Start(id, flags, 0, [], true), Start(id, flags, 0, [], true)]
  {
    var m := Msg(0, id, [], 0, flags, 0);
    var p := Start(id, flags, 0, [], true);
    var r := Ready(false, true);
    assert PacketAt(m, 0) == p;
    assert Outgoing(m, 0, []) == [];
    assert [r, r][1..] == [r] && [r][1..] == [];
    assert Outgoing(m, 0, [r]) == [p] + Outgoing(m, 0, []);
    assert Outgoing(m, 0, [r, r]) == [p] + Outgoing(m, 0, [r]);
  }

  // ---- receiving ------------------------------------------------------------------------

  /** dequeue_rx_msg */
  function Opened(c: Chan, flags: nat, id: int, size: nat): Chan {
    if c.cur.Some? then c
    else if IsResponse(flags) then
      var d := TakeResponse(c, id);
      if d.cur.Some? && d.cur.value.len < size then Finished(d, EMSGSIZE) else d
    else if IsRequest(flags) && size < MAX_REQ_MSG_SZ then TakeRequest(c, id, flags, size)
    else c
  }

  /** chan_pkt2msg, and what do_hw_rx does with its result. */
  function Stored(c: Chan, p: Packet): Chan
    requires !p.Other? && c.cur.Some?
  {
    var m := c.cur.value;
    var len := if p.Start? then p.size else m.len;
    var id := if p.Start? then p.id else m.id;
    var end := c.bytesDone + |p.payload|;
    if end > len || end > |m.data| then Finished(Progress(c, m.data, len, id, c.bytesDone), EBADMSG)
    else
      var d := Progress(c, m.data[..c.bytesDone] + p.payload + m.data[end..], len, id, end);
      if p.eom then Finished(d, 0) else d
  }

  /** do_hw_rx with a packet to read. */
  function Received(c: Chan, p: Packet): Chan {
    match p
    case Other => c
    case Start(id, flags, size, _, _) =>
      var d := Opened(Finished(c, EBADMSG), flags, id, size);
      if d.cur.None? then d else Stored(d, p)
    case Body(_, _) => if c.cur.None? then c else Stored(c, p)
  }

  /** What a start packet does to a receiver between messages: with flags 1 it is the
      response to the first waiting message with its id, if that has room for it; with
      flags 2 a request, for which a buffer of its size is made if that is below
      1 MiB; with neither it is dropped. */
  lemma FlagsMean(c: Chan, p: Packet)
    requires c.cur.None? && c.bytesDone == 0 && p.Start? && |p.payload| < p.size && !p.eom
    ensures p.flags == 2 && p.size < 0x10_0000 ==>
      var d := Received(c, p);
      && d.cur.Some? && d.next == c.next + 1 && d.msgs == c.msgs && d.bytesDone == |p.payload|
      && var m := d.cur.value;
      && m.key == c.next && m.id == p.id && m.flags == 2 && m.len == p.size == |m.data|
    ensures (p.flags == 2 && p.size >= 0x10_0000) || p.flags == 0 ==> Received(c, p) == c
    ensures p.flags == 1 ==>
      var i := Pick(c.msgs, p.id);
      var d := Received(c, p);
      && d.next == c.next
      && (i < 0 ==> d == c)
      && (i >= 0 && c.msgs[i].len >= p.size && |c.msgs[i].data| >= |p.payload| ==>
            && d.cur.Some? && d.bytesDone == |p.payload| && d.msgs == Without(c.msgs, i)
            && d.cur.value.key == c.msgs[i].key && d.cur.value.data[..|p.payload|] == p.payload)
      && (i >= 0 && c.msgs[i].len < p.size ==>
            d.cur.None? && d.log == c.log + [Started(c.msgs[i].key), Completed(c.msgs[i], EMSGSIZE)])
  {
    hide Pick, Without;
  }

  function Feed(c: Chan, ps: seq<Packet>): Chan
    decreases |ps|
  {
    if ps == [] then c else Feed(Received(c, ps[0]), ps[1..])
  }

  lemma {:induction false} FeedSplit(c: Chan, ps: seq<Packet>, qs: seq<Packet>)
    ensures Feed(c, ps + qs) == Feed(Feed(c, ps), qs)
    decreases |ps|
  {
    if ps == [] {
      assert ps + qs == qs;
    } else {
      assert (ps + qs)[0] == ps[0] && (ps + qs)[1..] == ps[1..] + qs;
      FeedSplit(Received(c, ps[0]), ps[1..], qs);
    }
  }

  /** A receiver that is between messages ignores echoes. */
  lemma {:induction false} EchoesIgnored(c: Chan, n: nat)
    requires c.cur.None?
    ensures Feed(c, Echoes(n)) == c
    decreases n
  {
    if n > 0 {
      assert Echoes(n)[1..] == Echoes(n - 1);
      EchoesIgnored(c, n - 1);
    }
  }

  /** The receiver holds the first done bytes of m. */
  predicate Halfway(c: Chan, m: Msg, done: nat) {
    && c.cur.Some? && c.bytesDone == done <= m.len == |m.data|
    && c.cur.value.id == m.id && c.cur.value.len == m.len <= |c.cur.value.data|
    && c.cur.value.data[..done] == m.data[..done]
  }

  /** m arrived: one message was completed, without error, and it is m. */
  predicate Delivered(c: Chan, d: Chan, m: Msg) {
    && d.cur.None? && d.bytesDone == 0
    && |d.log| > 0 && var e := d.log[|d.log| - 1];
    && e.Completed? && e.err == 0
    && e.m.id == m.id && e.m.len == m.len && m.len <= |e.m.data| && e.m.data[..m.len] == m.data
    && d == c.(cur := None, bytesDone := 0, log := c.log + [e])
  }

  lemma StoredMore(c: Chan, m: Msg, done: nat)
    requires Sendable(m) && Halfway(c, m, done) && 0 < done < m.len
    ensures var d := Received(c, PacketAt(m, done));
            if done + Chunk(m, done) == m.len then Delivered(c, d, m)
            else Halfway(d, m, done + Chunk(m, done)) && d == c.(cur := d.cur, bytesDone := d.bytesDone)
                 && d.cur.value.key == c.cur.value.key
  {
    var r, cnt := c.cur.value, Chunk(m, done);
    var data := r.data[..done] + m.data[done..done + cnt] + r.data[done + cnt..];
    assert data[..done + cnt] == m.data[..done] + m.data[done..done + cnt] == m.data[..done + cnt];
  }

  lemma {:induction false} Reassembled(c: Chan, m: Msg, done: nat)
    requires Sendable(m) && Halfway(c, m, done) && 0 < done < m.len
    ensures Delivered(c, Feed(c, Segments(m, done)), m)
    decreases m.len - done
  {
    hide Received, PacketAt, Delivered;
    var all, p := Segments(m, done), PacketAt(m, done);
    var d := Received(c, p);
    StoredMore(c, m, done);
    assert all[0] == p && all[1..] == Segments(m, done + Chunk(m, done));
    assert Feed(c, all) == Feed(d, all[1..]);
    if done + Chunk(m, done) == m.len {
      assert Feed(d, []) == d;
    } else {
      Reassembled(d, m, done + Chunk(m, done));
      DeliveredThrough(c, d, Feed(d, all[1..]), m);
    }
  }

  lemma DeliveredThrough(c: Chan, d: Chan, e: Chan, m: Msg)
    requires d == c.(cur := d.cur, bytesDone := d.bytesDone) && Delivered(d, e, m)
    ensures Delivered(c, e, m)
  {
  }

  /** What the receiver must have ready: for a response a waiting buffer that is
      big enough, for a request a length below the limit. A message that is still
      incomplete does not matter. */
  predicate Expects(c: Chan, m: Msg) {
    && (c.cur.None? ==> c.bytesDone == 0)
    && if IsResponse(m.flags) then
         var i := Pick(c.msgs, m.id);
         i >= 0 && m.len <= c.msgs[i].len == |c.msgs[i].data|
       else IsRequest(m.flags) && m.len < MAX_REQ_MSG_SZ
  }

  /** The receiver once the message is opened for: an incomplete message failed, and
      the buffer taken or made. */
  function OpenFor(c: Chan, m: Msg): Chan {
    Opened(Finished(c, EBADMSG), m.flags, m.id, m.len)
  }

  lemma OpenedBuffer(c: Chan, m: Msg)
    requires Expects(c, m)
    ensures var o := OpenFor(c, m);
            o.cur.Some? && o.bytesDone == 0 && m.len <= |o.cur.value.data|
  {
    hide Without;
  }

  lemma FirstStored(o: Chan, m: Msg)
    requires Sendable(m) && o.cur.Some? && o.bytesDone == 0 && m.len <= |o.cur.value.data|
    ensures var d := Stored(o, PacketAt(m, 0));
            if Chunk(m, 0) == m.len then Delivered(o, d, m)
            else Halfway(d, m, Chunk(m, 0)) && d == o.(cur := d.cur, bytesDone := d.bytesDone)
  {
    var r, cnt := o.cur.value, Chunk(m, 0);
    var data := r.data[..0] + m.data[..cnt] + r.data[cnt..];
    assert data[..cnt] == m.data[..cnt];
    if cnt == m.len {
      assert m.data[..cnt] == m.data;
    }
  }

  lemma StartStored(c: Chan, m: Msg)
    requires Sendable(m) && Expects(c, m)
    ensures var o, d := OpenFor(c, m), Received(c, PacketAt(m, 0));
            if Chunk(m, 0) == m.len then Delivered(o, d, m)
            else Halfway(d, m, Chunk(m, 0)) && d == o.(cur := d.cur, bytesDone := d.bytesDone)
  {
    hide Opened, Stored, Expects, Delivered, Halfway, Finished;
    OpenedBuffer(c, m);
    FirstStored(OpenFor(c, m), m);
  }

  /** Any message with a length, cut by the sender, is delivered whole. */
  lemma Delivery(c: Chan, m: Msg)
    requires Sendable(m) && m.len > 0 && Expects(c, m)
    ensures Delivered(OpenFor(c, m), Feed(c, Segments(m, 0)), m)
  {
    hide Received, PacketAt, Delivered, Opened;
    var all := Segments(m, 0);
    var d := Received(c, PacketAt(m, 0));
    StartStored(c, m);
    assert all[1..] == Segments(m, Chunk(m, 0));
    if Chunk(m, 0) < m.len {
      Reassembled(d, m, Chunk(m, 0));
      DeliveredThrough(OpenFor(c, m), d, Feed(d, all[1..]), m);
    } else {
      assert Feed(d, []) == d;
    }
  }

  /** End to end, for every readiness the sender may see: once the message has
      left, the receiver has exactly that message, echoes or not. */
  lemma SentIsReceived(c: Chan, m: Msg, rs: seq<Ready>)
    requires Sendable(m) && m.len > 0 && Expects(c, m) && Leaves(m, 0, rs)
    ensures Delivered(OpenFor(c, m), Feed(c, Outgoing(m, 0, rs)), m)
  {
    hide Received, PacketAt, Opened, Outgoing, Segments, Leaves, Expects;
    var n := Lingering(After(rs, |Segments(m, 0)|));
    OutgoingIs(m, 0, rs);
    Delivery(c, m);
    FeedSplit(c, Segments(m, 0), Echoes(n));
    EchoesIgnored(Feed(c, Segments(m, 0)), n);
  }

  /** If the sender completes m, the receiver has it. */
  ghost predicate Arrives(c: Chan, m: Msg, rs: seq<Ready>)
    requires Sendable(m)
  {
    Leaves(m, 0, rs) ==> Delivered(OpenFor(c, m), Feed(c, Outgoing(m, 0, rs)), m)
  }

  /** A message reaches whoever expects it, for every readiness under which the
      sender completes it, exactly if it is not empty: an empty one is complete
      before it was sent. */
  lemma SentIsReceivedIff(c: Chan, m: Msg)
    requires Sendable(m) && Expects(c, m)
    ensures (forall rs :: Arrives(c, m, rs)) <==> m.len > 0
  {
    hide Delivered, Opened, Expects, PacketAt;
    if m.len > 0 {
      forall rs ensures Arrives(c, m, rs) {
        if Leaves(m, 0, rs) {
          SentIsReceived(c, m, rs);
        }
      }
    } else {
      var rs := [Ready(true, false)];
      assert Leaves(m, 0, rs) && Outgoing(m, 0, rs) == [];
      assert Feed(c, []) == c;
      NothingDelivered(c, m);
      assert !Arrives(c, m, rs);
    }
  }

  lemma NothingDelivered(c: Chan, m: Msg)
    requires Expects(c, m)
    ensures !Delivered(OpenFor(c, m), c, m)
  {
  }

  // ---- a stream of requests ------------------------------------------------------------

  /** What a transmit channel holds can be sent, and fits the bytes done. */
  predicate TxOk(c: Chan) {
    && (forall i :: 0 <= i < |c.msgs| ==> Sendable(c.msgs[i]))
    && (c.cur.Some? ==> Sendable(c.cur.value) && c.bytesDone <= c.cur.value.len)
    && (c.cur.None? ==> c.bytesDone == 0)
  }

  /** chan_do_tx before it sends: a message that is completely out is completed,
      and the next one becomes current. */
  function TxReady(c: Chan, r: Ready): Chan {
    TakeFirst(if c.cur.Some? && r.gone && c.cur.value.len == c.bytesDone then Finished(c, 0) else c)
  }

  lemma TxReadyOk(c: Chan, r: Ready)
    requires TxOk(c)
    ensures TxOk(TxReady(c, r))
  {
  }

  /** chan_do_tx */
  function TxNext(c: Chan, r: Ready): Chan
    requires TxOk(c)
  {
    TxReadyOk(c, r);
    var d := TxReady(c, r);
    if d.cur.None? || !r.free then d
    else Progress(d, d.cur.value.data, d.cur.value.len, d.cur.value.id, d.bytesDone + Chunk(d.cur.value, d.bytesDone))
  }

  /** ... and the packet it puts on the wire. */
  function TxOut(c: Chan, r: Ready): seq<Packet>
    requires TxOk(c)
  {
    TxReadyOk(c, r);
    var d := TxReady(c, r);
    if d.cur.None? || !r.free then [] else [PacketAt(d.cur.value, d.bytesDone)]
  }

  lemma TxNextOk(c: Chan, r: Ready)
    requires TxOk(c)
    ensures TxOk(TxNext(c, r))
  {
    hide TxReady;
    TxReadyOk(c, r);
  }

  function TxRun(c: Chan, rs: seq<Ready>): Chan
    requires TxOk(c)
    decreases |rs|
  {
    TxNextOk(c, if rs == [] then Ready(false, false) else rs[0]);
    if rs == [] then c else TxRun(TxNext(c, rs[0]), rs[1..])
  }

  function Wire(c: Chan, rs: seq<Ready>): seq<Packet>
    requires TxOk(c)
    decreases |rs|
  {
    TxNextOk(c, if rs == [] then Ready(false, false) else rs[0]);
    if rs == [] then [] else TxOut(c, rs[0]) + Wire(TxNext(c, rs[0]), rs[1..])
  }

  /** Identity and bytes of the messages completed without error, in order. */
  function Good(log: seq<Event>): seq<(int, seq<byte>)> {
    if log == [] then []
    else
      var e := log[|log| - 1];
      Good(log[..|log| - 1]) +
      if e.Completed? && e.err == 0 && e.m.len <= |e.m.data| then [(e.m.id, e.m.data[..e.m.len])] else []
  }

  lemma GoodGrows(log: seq<Event>, e: Event)
    ensures Good(log + [e]) ==
            Good(log) +
            if e.Completed? && e.err == 0 && e.m.len <= |e.m.data| then [(e.m.id, e.m.data[..e.m.len])] else []
  {
    assert (log + [e])[..|log|] == log;
  }

  /** Requests the receiver takes. */
  predicate Fine(m: Msg) {
    !IsResponse(m.flags) && IsRequest(m.flags) && 0 < m.len < MAX_REQ_MSG_SZ
  }

  predicate AllFine(c: Chan) {
    (forall i :: 0 <= i < |c.msgs| ==> Fine(c.msgs[i])) && (c.cur.Some? ==> Fine(c.cur.value))
  }

  /** The current message of the sender, when all of it is on the wire. */
  function JustSent(c: Chan): seq<(int, seq<byte>)> {
    if c.cur.Some? && c.bytesDone == c.cur.value.len then [(c.cur.value.id, c.cur.value.data)] else []
  }

  /** Sender and receiver agree: the receiver has completed exactly what was sent
      completely, and holds exactly the bytes that were sent of the rest. */
  predicate InStep(c: Chan, x: Chan) {
    && Good(x.log) == Good(c.log) + JustSent(c)
    && if c.cur.Some? && 0 < c.bytesDone < c.cur.value.len then Halfway(x, c.cur.value, c.bytesDone)
       else x.cur.None? && x.bytesDone == 0
  }

  lemma GoneInStep(c: Chan, x: Chan)
    requires TxOk(c) && AllFine(c) && InStep(c, x) && c.cur.Some? && c.cur.value.len == c.bytesDone
    ensures TxOk(Finished(c, 0)) && AllFine(Finished(c, 0)) && InStep(Finished(c, 0), x)
  {
    hide Halfway, Fine, Good;
    GoodGrows(c.log, Completed(c.cur.value, 0));
    assert c.cur.value.data[..c.cur.value.len] == c.cur.value.data;
  }

  lemma TakeInStep(c: Chan, x: Chan)
    requires TxOk(c) && AllFine(c) && InStep(c, x)
    ensures TxOk(TakeFirst(c)) && AllFine(TakeFirst(c)) && InStep(TakeFirst(c), x)
  {
    hide Halfway, Fine, Good;
    if c.cur.None? && c.msgs != [] {
      GoodGrows(c.log, Started(c.msgs[0].key));
      assert Fine(c.msgs[0]);
      NotEmpty(c.msgs[0]);
    }
  }

  lemma ReadyInStep(c: Chan, x: Chan, r: Ready)
    requires TxOk(c) && AllFine(c) && InStep(c, x)
    ensures TxOk(TxReady(c, r)) && AllFine(TxReady(c, r)) && InStep(TxReady(c, r), x)
  {
    hide TxOk, AllFine, InStep, TakeFirst, Finished;
    if c.cur.Some? && r.gone && c.cur.value.len == c.bytesDone {
      GoneInStep(c, x);
      TakeInStep(Finished(c, 0), x);
    } else {
      TakeInStep(c, x);
    }
  }

  lemma NotEmpty(m: Msg)
    requires Fine(m)
    ensures m.len > 0
  {
  }

  lemma GoodDelivered(c: Chan, x: Chan, y: Chan, m: Msg)
    requires Delivered(x, y, m) && |m.data| == m.len
    ensures Good(y.log) == Good(x.log) + [(m.id, m.data)]
  {
    GoodGrows(x.log, y.log[|y.log| - 1]);
  }

  lemma GoodOpened(x: Chan, m: Msg)
    requires x.cur.None? && Fine(m)
    ensures Expects(x.(bytesDone := 0), m)
    ensures Good(OpenFor(x, m).log) == Good(x.log)
  {
    GoodGrows(x.log, Accepted(x.next));
    GoodGrows(x.log + [Accepted(x.next)], Started(x.next));
    assert x.log + [Accepted(x.next), Started(x.next)] == (x.log + [Accepted(x.next)]) + [Started(x.next)];
  }

  /** The packet that goes out keeps both sides in step. */
  lemma SendInStep(d: Chan, x: Chan)
    requires TxOk(d) && AllFine(d) && d.cur.Some? && InStep(d, x)
    ensures var m := d.cur.value;
            var done := d.bytesDone + Chunk(m, d.bytesDone);
            InStep(Progress(d, m.data, m.len, m.id, done), Received(x, PacketAt(m, d.bytesDone)))
  {
    hide Received, PacketAt, Delivered, Halfway, Good, OpenFor, Expects;
    var m := d.cur.value;
    var done := d.bytesDone + Chunk(m, d.bytesDone);
    var y := Received(x, PacketAt(m, d.bytesDone));
    if d.bytesDone == 0 {
      assert x == x.(bytesDone := 0);
      GoodOpened(x, m);
      StartStored(x, m);
      if done == m.len {
        GoodDelivered(d, OpenFor(x, m), y, m);
        CleanAfter(OpenFor(x, m), y, m);
      }
    } else if d.bytesDone < m.len {
      StoredMore(x, m, d.bytesDone);
      if done == m.len {
        GoodDelivered(d, x, y, m);
        CleanAfter(x, y, m);
      }
    } else {
      EchoDropped(x, m);
    }
  }

  lemma CleanAfter(x: Chan, y: Chan, m: Msg)
    requires Delivered(x, y, m)
    ensures y.cur.None? && y.bytesDone == 0
  {
  }

  lemma EchoDropped(x: Chan, m: Msg)
    requires Sendable(m) && x.cur.None? && m.len > 0
    ensures Received(x, PacketAt(m, m.len)) == x && Chunk(m, m.len) == 0
  {
  }

  /** For every readiness the sender may see, over any number of requests: the
      receiver delivers the messages that were sent, each once, whole, in order. */
  lemma {:induction false} StreamDelivered(c: Chan, x: Chan, rs: seq<Ready>)
    requires TxOk(c) && AllFine(c) && InStep(c, x)
    ensures InStep(TxRun(c, rs), Feed(x, Wire(c, rs)))
    decreases |rs|
  {
    hide TxReady, InStep, Received, PacketAt, AllFine;
    if rs != [] {
      var r := rs[0];
      var d := TxReady(c, r);
      ReadyInStep(c, x, r);
      TxNextOk(c, r);
      var y := Feed(x, TxOut(c, r));
      if d.cur.Some? && r.free {
        SendInStep(d, x);
        FineAfter(d);
        OneFed(x, PacketAt(d.cur.value, d.bytesDone));
      }
      StreamDelivered(TxNext(c, r), y, rs[1..]);
      FeedSplit(x, TxOut(c, r), Wire(TxNext(c, r), rs[1..]));
    }
  }

  lemma OneFed(x: Chan, p: Packet)
    ensures Feed(x, [p]) == Received(x, p)
  {
    assert [p][1..] == [];
    assert Feed(Received(x, p), []) == Received(x, p);
  }

  lemma FineAfter(d: Chan)
    requires TxOk(d) && AllFine(d) && d.cur.Some?
    ensures var m := d.cur.value;
            AllFine(Progress(d, m.data, m.len, m.id, d.bytesDone + Chunk(m, d.bytesDone)))
  {
  }

  /** A queued message of length zero is completed without error, and nothing was
      ever on the wire. */
  lemma EmptyNeverSent(id: int, flags: nat)
    ensures var m := Msg(0, id, [], 0, flags, 0);
            var c := Enqueued(FRESH, m);
            var rs := [Ready(false, false), Ready(true, false)];
            && TxOk(c) && Wire(c, rs) == []
            && TxRun(c, rs).log == [Accepted(0), Started(0), Completed(m, 0)]
  {
    var m := Msg(0, id, [], 0, flags, 0);
    var c := Enqueued(FRESH, m);
    var late := [Ready(true, false)];
    var rs := [Ready(false, false), Ready(true, false)];
    assert rs[1..] == late && late[1..] == [];
    var d := TxNext(c, rs[0]);
    TxNextOk(c, rs[0]);
    assert d == c.(msgs := [], cur := Some(m), log := [Accepted(0), Started(0)]);
    var e := TxNext(d, late[0]);
    TxNextOk(d, late[0]);
    assert e == Finished(d, 0);
    assert TxRun(e, []) == e && Wire(e, []) == [];
    assert TxRun(d, late) == e && Wire(d, late) == [];
    assert TxRun(c, rs) == TxRun(d, late) && Wire(c, rs) == Wire(d, late);
  }

  // ---- the listener ---------------------------------------------------------------------------

  /** The receive channel, the requests that wait for the listener (mbx_req_list), and
      those the listener has taken. */
  datatype Inbox = Inbox(chan: Chan, pending: seq<Msg>, taken: seq<Msg>)

  const EMPTY_INBOX: Inbox := Inbox(FRESH, [], [])

  /** A request that was received completely. */
  predicate ForListener(e: Event) {
    e.Completed? && e.err == 0 && IsRequest(e.m.flags)
  }

  /** The end of msg_done: with too many requests waiting it is dropped. */
  function Handed(pending: seq<Msg>, e: Event): seq<Msg> {
    if ForListener(e) && |pending| < MAX_MSG_QUEUE_LEN then pending + [e.m] else pending
  }

  function HandedAll(pending: seq<Msg>, es: seq<Event>): seq<Msg> {
    if es == [] then pending else Handed(HandedAll(pending, es[..|es| - 1]), es[|es| - 1])
  }

  /** All requests received completely, in order. */
  function Requests(log: seq<Event>): seq<Msg> {
    if log == [] then []
    else
      var e := log[|log| - 1];
      Requests(log[..|log| - 1]) + if ForListener(e) then [e.m] else []
  }

  /** At most one of the events is a request received completely. */
  predicate OneAtMost(es: seq<Event>) {
    forall i, j :: 0 <= i < j < |es| ==> !(ForListener(es[i]) && ForListener(es[j]))
  }

  /** Events that end a message without success, or do not end one. */
  predicate NoSuccess(es: seq<Event>) {
    forall i :: 0 <= i < |es| ==> es[i].Completed? ==> es[i].err != 0
  }

  lemma FinishedLog(c: Chan) returns (es: seq<Event>)
    ensures Finished(c, EBADMSG).log == c.log + es && NoSuccess(es)
  {
    es := if c.cur.Some? then [Completed(c.cur.value, EBADMSG)] else [];
  }

  lemma OpenedLog(c: Chan, flags: nat, id: int, size: nat) returns (es: seq<Event>)
    ensures Opened(c, flags, id, size).log == c.log + es && NoSuccess(es)
  {
    hide Pick, Without;
    es := Opened(c, flags, id, size).log[|c.log|..];
  }

  lemma StoredLog(c: Chan, p: Packet) returns (es: seq<Event>)
    requires !p.Other? && c.cur.Some?
    ensures Stored(c, p).log == c.log + es && OneAtMost(es)
    ensures forall i :: 0 <= i < |es| && es[i].Completed? && es[i].err == 0 ==>
      && es[i].m.flags == c.cur.value.flags && |es[i].m.data| == |c.cur.value.data|
      && es[i].m.len == if p.Start? then p.size else c.cur.value.len
  {
    es := Stored(c, p).log[|c.log|..];
    assert |es| <= 1;
  }

  lemma EventsJoin(a: seq<Event>, b: seq<Event>)
    requires NoSuccess(a)
    ensures OneAtMost(b) ==> OneAtMost(a + b)
    ensures NoSuccess(b) ==> NoSuccess(a + b)
  {
  }

  /** What a packet leaves in the history. */
  lemma ReceivedEvents(c: Chan, p: Packet) returns (es: seq<Event>)
    ensures Received(c, p).log == c.log + es && OneAtMost(es)
  {
    hide Finished, Opened, Stored, OneAtMost, NoSuccess;
    NoEvents();
    assert c.log + [] == c.log;
    match p {
    case Other => es := [];
    case Start(id, flags, size, _, _) =>
      var a := FinishedLog(c);
      var f := Finished(c, EBADMSG);
      var b := OpenedLog(f, flags, id, size);
      var o := Opened(f, flags, id, size);
      EventsJoin(a, b);
      es := a + b;
      if o.cur.Some? {
        var d := StoredLog(o, p);
        EventsJoin(a + b, d);
        es := a + b + d;
        assert c.log + es == c.log + a + b + d;
      } else {
        EventsJoin(a + b, []);
        assert a + b + [] == a + b;
        assert c.log + es == c.log + a + b;
      }
    case Body(_, _) =>
      es := [];
      if c.cur.Some? {
        es := StoredLog(c, p);
      }
    }
  }

  lemma NoEvents()
    ensures OneAtMost([]) && NoSuccess([])
  {
  }

  lemma ReceivedLog(c: Chan, p: Packet)
    ensures c.log <= Received(c, p).log
  {
    hide Received;
    var es := ReceivedEvents(c, p);
  }

  /** A packet is received. */
  function Arrive(b: Inbox, p: Packet): Inbox {
    ReceivedLog(b.chan, p);
    var d := Received(b.chan, p);
    b.(chan := d, pending := HandedAll(b.pending, d.log[|b.chan.log|..]))
  }

  /** One round of mailbox_recv_request. */
  function Listen(b: Inbox): Inbox {
    if b.pending == [] then b else b.(pending := b.pending[1..], taken := b.taken + [b.pending[0]])
  }

  /** What reached the listener or still will, in order. */
  function Reached(b: Inbox): seq<Msg> {
    b.taken + b.pending
  }

  function Least(a: nat, b: nat): nat {
    if a < b then a else b
  }

  lemma {:induction false} RequestsSplit(a: seq<Event>, b: seq<Event>)
    ensures Requests(a + b) == Requests(a) + Requests(b)
    decreases |b|
  {
    if b == [] {
      assert a + b == a;
    } else {
      assert (a + b)[..|a + b| - 1] == a + b[..|b| - 1];
      RequestsSplit(a, b[..|b| - 1]);
    }
  }

  /** As many of the requests are handed over as there is room for, the first ones. */
  lemma {:induction false} HandedIs(pending: seq<Msg>, es: seq<Event>)
    requires |pending| <= MAX_MSG_QUEUE_LEN
    ensures HandedAll(pending, es) ==
            pending + Requests(es)[..Least(|Requests(es)|, MAX_MSG_QUEUE_LEN - |pending|)]
    decreases |es|
  {
    if es != [] {
      HandedIs(pending, es[..|es| - 1]);
    }
  }

  /** What one packet adds to the requests received, and what of it is dropped. */
  function NewRequests(b: Inbox, p: Packet): seq<Msg> {
    ReceivedLog(b.chan, p);
    Requests(Received(b.chan, p).log[|b.chan.log|..])
  }

  function Dropped(b: Inbox, p: Packet): nat {
    var n := |b.pending| + |NewRequests(b, p)|;
    if n <= MAX_MSG_QUEUE_LEN then 0 else n - MAX_MSG_QUEUE_LEN
  }

  lemma ArriveReaches(b: Inbox, p: Packet)
    requires |b.pending| <= MAX_MSG_QUEUE_LEN
    ensures var d, new_ := Arrive(b, p), NewRequests(b, p);
            && |d.pending| <= MAX_MSG_QUEUE_LEN && d.taken == b.taken && |new_| >= Dropped(b, p)
            && d.pending == b.pending + new_[..|new_| - Dropped(b, p)]
            && Requests(d.chan.log) == Requests(b.chan.log) + new_
  {
    hide Received, Requests;
    ReceivedLog(b.chan, p);
    var l, m := b.chan.log, Received(b.chan, p).log;
    HandedIs(b.pending, m[|l|..]);
    assert m == l + m[|l|..];
    RequestsSplit(l, m[|l|..]);
  }

  /** A packet completes at most one request. */
  lemma OneRequest(b: Inbox, p: Packet)
    ensures |NewRequests(b, p)| <= 1
  {
    hide Received, OneAtMost;
    var es := ReceivedEvents(b.chan, p);
    assert Received(b.chan, p).log[|b.chan.log|..] == es;
    RequestsOne(es);
  }

  lemma {:induction false} RequestsOne(es: seq<Event>)
    requires OneAtMost(es)
    ensures |Requests(es)| <= 1
    decreases |es|
  {
    if es != [] {
      RequestsOne(es[..|es| - 1]);
      if ForListener(es[|es| - 1]) {
        NoRequests(es[..|es| - 1]);
      }
    }
  }

  lemma {:induction false} NoRequests(es: seq<Event>)
    requires forall i :: 0 <= i < |es| ==> !ForListener(es[i])
    ensures Requests(es) == []
    decreases |es|
  {
    if es != [] {
      NoRequests(es[..|es| - 1]);
    }
  }

  /** A request that is received completely reaches the listener if and only if fewer
      than five wait for it. */
  lemma HandedIff(b: Inbox, p: Packet)
    requires |b.pending| <= MAX_MSG_QUEUE_LEN && NewRequests(b, p) != []
    ensures |NewRequests(b, p)| == 1
    ensures Reached(Arrive(b, p)) == Reached(b) + NewRequests(b, p) <==> |b.pending| < MAX_MSG_QUEUE_LEN
    ensures Reached(Arrive(b, p)) == Reached(b) <==> |b.pending| == MAX_MSG_QUEUE_LEN
  {
    hide NewRequests, Arrive;
    OneRequest(b, p);
    ArriveReaches(b, p);
  }

  // ---- sender, receiver and listener together -----------------------------------------------------

  /** A round of the sender, with the packet it sends received, or of the listener. */
  datatype Turn = Send(r: Ready) | Take

  function Fed(b: Inbox, ps: seq<Packet>): Inbox
    decreases |ps|
  {
    if ps == [] then b else Fed(Arrive(b, ps[0]), ps[1..])
  }

  function TxAfter(c: Chan, ts: seq<Turn>): Chan
    requires TxOk(c)
    decreases |ts|
  {
    if ts == [] then c
    else if ts[0].Take? then TxAfter(c, ts[1..])
    else
      TxNextOk(c, ts[0].r);
      TxAfter(TxNext(c, ts[0].r), ts[1..])
  }

  function RxAfter(c: Chan, b: Inbox, ts: seq<Turn>): Inbox
    requires TxOk(c)
    decreases |ts|
  {
    if ts == [] then b
    else if ts[0].Take? then RxAfter(c, Listen(b), ts[1..])
    else
      TxNextOk(c, ts[0].r);
      RxAfter(TxNext(c, ts[0].r), Fed(b, TxOut(c, ts[0].r)), ts[1..])
  }

  /** Whenever a request is received completely, fewer than five are waiting. */
  predicate Attended(c: Chan, b: Inbox, ts: seq<Turn>)
    requires TxOk(c)
    decreases |ts|
  {
    ts == [] ||
    if ts[0].Take? then Attended(c, Listen(b), ts[1..])
    else
      TxNextOk(c, ts[0].r);
      && (var out := TxOut(c, ts[0].r);
          out == [] || NewRequests(b, out[0]) == [] || |b.pending| < MAX_MSG_QUEUE_LEN)
      && Attended(TxNext(c, ts[0].r), Fed(b, TxOut(c, ts[0].r)), ts[1..])
  }

  function Contents(ms: seq<Msg>): seq<(int, seq<byte>)> {
    if ms == [] then []
    else
      var m := ms[|ms| - 1];
      Contents(ms[..|ms| - 1]) + [(m.id, if m.len <= |m.data| then m.data[..m.len] else m.data)]
  }

  lemma {:induction false} ContentsSplit(a: seq<Msg>, b: seq<Msg>)
    ensures Contents(a + b) == Contents(a) + Contents(b) && |Contents(a)| == |a|
    decreases |a| + |b|
  {
    if b == [] {
      assert a + b == a;
      if a != [] {
        ContentsSplit(a[..|a| - 1], []);
        assert a[..|a| - 1] + [] == a[..|a| - 1];
      }
    } else {
      assert (a + b)[..|a + b| - 1] == a + b[..|b| - 1];
      ContentsSplit(a, b[..|b| - 1]);
    }
  }

  /** Only requests were completed, and one is being received if any. */
  predicate OnlyRequests(x: Chan) {
    Good(x.log) == Contents(Requests(x.log)) && RequestCur(x)
  }

  lemma {:induction false} SameGood(log: seq<Event>, es: seq<Event>)
    requires Good(log) == Contents(Requests(log))
    requires RequestsDone(es)
    ensures Good(log + es) == Contents(Requests(log + es))
    decreases |es|
  {
    if es == [] {
      assert log + es == log;
    } else {
      var e, a := es[|es| - 1], log + es[..|es| - 1];
      SameGood(log, es[..|es| - 1]);
      assert log + es == a + [e];
      GoodGrows(a, e);
      RequestsGrow(a, e);
      ContentsSplit(Requests(a), if ForListener(e) then [e.m] else []);
      OneContents(e);
    }
  }

  lemma RequestsGrow(log: seq<Event>, e: Event)
    ensures Requests(log + [e]) == Requests(log) + if ForListener(e) then [e.m] else []
  {
    assert (log + [e])[..|log|] == log;
  }

  lemma OneContents(e: Event)
    ensures e.Completed? && e.m.len <= |e.m.data| ==> Contents([e.m]) == [(e.m.id, e.m.data[..e.m.len])]
    ensures Contents([]) == []
  {
    if e.Completed? {
      assert [e.m][..0] == [];
    }
  }

  /** Events that complete requests only. */
  predicate RequestsDone(es: seq<Event>) {
    forall i :: 0 <= i < |es| ==>
      (es[i].Completed? && es[i].err == 0 ==> IsRequest(es[i].m.flags) && es[i].m.len <= |es[i].m.data|)
  }

  predicate RequestCur(x: Chan) {
    x.cur.Some? ==> IsRequest(x.cur.value.flags) && x.cur.value.len <= |x.cur.value.data|
  }

  lemma StoreRequest(c: Chan, p: Packet) returns (es: seq<Event>)
    requires !p.Other? && c.cur.Some? && RequestCur(c) && (p.Start? ==> p.size <= |c.cur.value.data|)
    ensures Stored(c, p).log == c.log + es && RequestsDone(es) && RequestCur(Stored(c, p))
  {
    es := StoredLog(c, p);
  }

  lemma OpenRequest(c: Chan, flags: nat, id: int, size: nat)
    requires c.cur.None? && !IsResponse(flags) && IsRequest(flags) && size < MAX_REQ_MSG_SZ
    ensures var o := Opened(c, flags, id, size); o.cur.Some? && RequestCur(o) && size == |o.cur.value.data|
  {
  }

  /** Packets of requests complete requests only. */
  lemma RequestPacket(x: Chan, p: Packet)
    requires OnlyRequests(x) && (p.Start? ==> !IsResponse(p.flags) && IsRequest(p.flags) && p.size < MAX_REQ_MSG_SZ)
    ensures OnlyRequests(Received(x, p))
  {
    hide Good, Requests, Contents, Finished, Opened, Stored, IsRequest, IsResponse;
    match p {
    case Other =>
    case Start(id, flags, size, _, _) =>
      var a := FinishedLog(x);
      var f := Finished(x, EBADMSG);
      NoneCurrent(x);
      var b := OpenedLog(f, flags, id, size);
      OpenRequest(f, flags, id, size);
      var o := Opened(f, flags, id, size);
      var d := StoreRequest(o, p);
      assert Received(x, p).log == x.log + (a + b + d);
      SameGood(x.log, a + b + d);
    case Body(_, _) =>
      if x.cur.Some? {
        var d := StoreRequest(x, p);
        SameGood(x.log, d);
      }
    }
  }

  lemma NoneCurrent(x: Chan)
    ensures Finished(x, EBADMSG).cur.None?
  {
  }

  lemma FedOne(b: Inbox, ps: seq<Packet>)
    requires |ps| <= 1
    ensures Fed(b, ps) == if ps == [] then b else Arrive(b, ps[0])
    ensures Fed(b, ps).chan == Feed(b.chan, ps)
  {
    if ps != [] {
      assert ps == [ps[0]] && ps[1..] == [];
      OneFed(b.chan, ps[0]);
    }
  }

  /** One round of the sender, seen by all three. */
  lemma SendTurn(c: Chan, b: Inbox, r: Ready)
    requires TxOk(c) && AllFine(c) && InStep(c, b.chan) && OnlyRequests(b.chan)
    ensures TxOk(TxNext(c, r)) && AllFine(TxNext(c, r)) && |TxOut(c, r)| <= 1
    ensures var d := Fed(b, TxOut(c, r)); InStep(TxNext(c, r), d.chan) && OnlyRequests(d.chan)
  {
    hide TxReady, InStep, Received, PacketAt, AllFine, OnlyRequests, Arrive;
    var d := TxReady(c, r);
    ReadyInStep(c, b.chan, r);
    TxNextOk(c, r);
    FedOne(b, TxOut(c, r));
    if d.cur.Some? && r.free {
      SendInStep(d, b.chan);
      FineAfter(d);
      FinePacket(d);
      RequestPacket(b.chan, PacketAt(d.cur.value, d.bytesDone));
      OneFed(b.chan, PacketAt(d.cur.value, d.bytesDone));
    } else {
      assert Feed(b.chan, []) == b.chan;
    }
  }

  lemma FinePacket(d: Chan)
    requires TxOk(d) && AllFine(d) && d.cur.Some?
    ensures var p := PacketAt(d.cur.value, d.bytesDone);
            p.Start? ==> !IsResponse(p.flags) && IsRequest(p.flags) && p.size < MAX_REQ_MSG_SZ
  {
  }

  /** Nothing was lost so far, with room for what follows. */
  predicate Whole(b: Inbox) {
    Reached(b) == Requests(b.chan.log)
  }

  /** Requests received completely that the listener will never see. */
  function Missing(b: Inbox): int {
    |Requests(b.chan.log)| - |Reached(b)|
  }

  lemma FedWhole(b: Inbox, ps: seq<Packet>)
    requires |ps| <= 1 && |b.pending| <= MAX_MSG_QUEUE_LEN
    ensures var d := Fed(b, ps);
            var lost := ps != [] && NewRequests(b, ps[0]) != [] && |b.pending| == MAX_MSG_QUEUE_LEN;
            && |d.pending| <= MAX_MSG_QUEUE_LEN
            && (Whole(b) && !lost ==> Whole(d)) && Missing(d) == Missing(b) + if lost then 1 else 0
  {
    hide NewRequests, Arrive, Requests, Fed, Feed;
    FedOne(b, ps);
    if ps != [] {
      OneRequest(b, ps[0]);
      ArriveReaches(b, ps[0]);
    }
  }

  lemma ListenWhole(b: Inbox)
    ensures var d := Listen(b);
            && Reached(d) == Reached(b) && d.chan == b.chan && |d.pending| <= |b.pending|
  {
  }

  /** Over every interleaving of sender and listener: all requests received completely
      reach the listener, in order, if and only if fewer than five are waiting
      whenever one is. No later turn makes up for a request that was dropped. */
  lemma {:induction false} AttendedIff(c: Chan, b: Inbox, ts: seq<Turn>)
    requires TxOk(c) && AllFine(c) && InStep(c, b.chan) && OnlyRequests(b.chan) && |b.pending| <= MAX_MSG_QUEUE_LEN
    ensures var d := RxAfter(c, b, ts);
            && InStep(TxAfter(c, ts), d.chan) && OnlyRequests(d.chan)
            && |d.pending| <= MAX_MSG_QUEUE_LEN && Missing(d) >= Missing(b)
            && (Missing(d) == Missing(b) <==> Attended(c, b, ts))
            && (Whole(b) && Attended(c, b, ts) ==> Whole(d))
    decreases |ts|
  {
    hide InStep, AllFine, OnlyRequests, TxNext, TxOut, Fed, NewRequests, Requests;
    if ts != [] {
      if ts[0].Take? {
        ListenWhole(b);
        AttendedIff(c, Listen(b), ts[1..]);
      } else {
        var out := TxOut(c, ts[0].r);
        SendTurn(c, b, ts[0].r);
        FedWhole(b, out);
        AttendedIff(TxNext(c, ts[0].r), Fed(b, out), ts[1..]);
      }
    }
  }

  /** From the start: the listener gets exactly what was sent completely, each request
      once, whole, in order, if and only if it is attended in time. */
  lemma ListenerGetsAll(c: Chan, ts: seq<Turn>)
    requires TxOk(c) && AllFine(c) && c.cur.None? && Good(c.log) == []
    ensures var d, e := RxAfter(c, EMPTY_INBOX, ts), TxAfter(c, ts);
            Contents(Reached(d)) == Good(e.log) + JustSent(e) <==> Attended(c, EMPTY_INBOX, ts)
  {
    hide RxAfter, TxAfter, Attended, Requests, Contents, AllFine, Good;
    StartTogether(c);
    AttendedIff(c, EMPTY_INBOX, ts);
    var d, e := RxAfter(c, EMPTY_INBOX, ts), TxAfter(c, ts);
    ContentsSplit(Reached(d), []);
    ContentsSplit(Requests(d.chan.log), []);
    assert Contents(Requests(d.chan.log)) == Good(e.log) + JustSent(e);
  }

  lemma StartTogether(c: Chan)
    requires TxOk(c) && c.cur.None? && Good(c.log) == []
    ensures InStep(c, EMPTY_INBOX.chan) && OnlyRequests(EMPTY_INBOX.chan) && Whole(EMPTY_INBOX)
  {
  }

  /** A listener that takes nothing gets the first five. */
  lemma {:induction false} OnlyFive(c: Chan, b: Inbox, ts: seq<Turn>)
    requires TxOk(c) && AllFine(c) && InStep(c, b.chan) && OnlyRequests(b.chan)
    requires b.taken == [] && forall i :: 0 <= i < |ts| ==> ts[i].Send?
    requires var all := Requests(b.chan.log); b.pending == all[..Least(|all|, MAX_MSG_QUEUE_LEN)]
    ensures var d := RxAfter(c, b, ts);
            var all := Requests(d.chan.log);
            Reached(d) == all[..Least(|all|, MAX_MSG_QUEUE_LEN)]
    decreases |ts|
  {
    hide InStep, AllFine, OnlyRequests, TxNext, TxOut, Fed, NewRequests, Requests, Arrive;
    if ts != [] {
      var out := TxOut(c, ts[0].r);
      SendTurn(c, b, ts[0].r);
      FedOne(b, out);
      if out != [] {
        ArriveReaches(b, out[0]);
      }
      OnlyFive(TxNext(c, ts[0].r), Fed(b, out), ts[1..]);
    }
  }

  /** Rounds in which the channel is always ready. */
  function Prompt(n: nat): seq<Turn> {
    if n == 0 then [] else [Send(Ready(true, true))] + Prompt(n - 1)
  }

  /** Messages of one packet each, between two messages of the sender. */
  predicate Small(c: Chan) {
    && (forall i :: 0 <= i < |c.msgs| ==> 0 < c.msgs[i].len <= START_PAYLOAD)
    && (c.cur.Some? ==> c.bytesDone == c.cur.value.len)
  }

  lemma PromptReady(c: Chan)
    requires Small(c) && c.msgs != []
    ensures var d := TxReady(c, Ready(true, true));
            && d.cur == Some(c.msgs[0]) && d.msgs == c.msgs[1..] && (TxOk(c) ==> d.bytesDone == 0)
            && d.log == c.log + (if c.cur.Some? then [Completed(c.cur.value, 0)] else []) + [Started(c.msgs[0].key)]
  {
    assert c.log + [] == c.log;
  }

  lemma PromptGood(c: Chan, key: nat)
    requires TxOk(c) && Small(c)
    ensures Good(c.log + (if c.cur.Some? then [Completed(c.cur.value, 0)] else []) + [Started(key)]) ==
            Good(c.log) + JustSent(c)
  {
    if c.cur.Some? {
      var e := Completed(c.cur.value, 0);
      assert c.cur.value.data[..c.cur.value.len] == c.cur.value.data;
      GoodGrows(c.log, e);
      GoodGrows(c.log + [e], Started(key));
    } else {
      assert c.log + [] == c.log;
      GoodGrows(c.log, Started(key));
    }
  }

  lemma PromptRound(c: Chan)
    requires TxOk(c) && Small(c) && c.msgs != []
    ensures var d := TxNext(c, Ready(true, true));
            && TxOk(d) && Small(d) && d.msgs == c.msgs[1..]
            && Good(d.log) + JustSent(d) == Good(c.log) + JustSent(c) + [(c.msgs[0].id, c.msgs[0].data)]
  {
    hide Good, TxReady;
    var m := c.msgs[0];
    assert Sendable(m) && 0 < m.len <= START_PAYLOAD;
    TxNextOk(c, Ready(true, true));
    PromptReady(c);
    PromptGood(c, m.key);
    var d := TxNext(c, Ready(true, true));
    assert d.cur == Some(m) && d.bytesDone == m.len;
  }

  lemma {:induction false} PromptSends(c: Chan, n: nat)
    requires TxOk(c) && Small(c) && n <= |c.msgs|
    ensures var d := TxAfter(c, Prompt(n)); |Good(d.log) + JustSent(d)| == |Good(c.log) + JustSent(c)| + n
    ensures |Prompt(n)| == n && forall i :: 0 <= i < n ==> Prompt(n)[i].Send?
    decreases n
  {
    hide TxNext, Good, JustSent, Small;
    if n > 0 {
      var d := TxNext(c, Ready(true, true));
      PromptRound(c);
      assert Prompt(n)[0] == Send(Ready(true, true)) && Prompt(n)[1..] == Prompt(n - 1);
      PromptSends(d, n - 1);
    }
  }

  /** Six requests of one packet each, sent while the listener takes none: all six are
      received completely and completed without error, and five reach it. */
  lemma SixRequests(c: Chan)
    requires TxOk(c) && AllFine(c) && c.cur.None? && Good(c.log) == [] && |c.msgs| == 6
    requires forall i :: 0 <= i < 6 ==> c.msgs[i].len <= START_PAYLOAD
    ensures var d := RxAfter(c, EMPTY_INBOX, Prompt(6));
            |Requests(d.chan.log)| == 6 && |Reached(d)| == 5 && !Attended(c, EMPTY_INBOX, Prompt(6))
  {
    hide RxAfter, TxAfter, Attended, Contents, Good, TxNext, Prompt, JustSent, Requests;
    FineSmall(c);
    PromptSends(c, 6);
    StartTogether(c);
    AttendedIff(c, EMPTY_INBOX, Prompt(6));
    NoneYet();
    OnlyFive(c, EMPTY_INBOX, Prompt(6));
    var d := RxAfter(c, EMPTY_INBOX, Prompt(6));
    ContentsSplit(Requests(d.chan.log), []);
    NothingSent(c);
  }

  lemma NoneYet()
    ensures Requests(EMPTY_INBOX.chan.log) == []
  {
  }

  lemma NothingSent(c: Chan)
    requires c.cur.None? && Good(c.log) == []
    ensures |Good(c.log) + JustSent(c)| == 0
  {
  }

  lemma FineSmall(c: Chan)
    requires AllFine(c) && c.cur.None? && forall i :: 0 <= i < |c.msgs| ==> c.msgs[i].len <= START_PAYLOAD
    ensures Small(c)
  {
    forall i | 0 <= i < |c.msgs| ensures 0 < c.msgs[i].len {
      assert Fine(c.msgs[i]);
    }
  }

  // ---- what the worker does is a run of the steps -----------------------------------------

  /** The steps of a round of chan_do_tx. */
  function TxSteps(c: Chan, r: Ready): seq<Step>
    requires TxOk(c)
  {
    TxReadyOk(c, r);
    var d := TxReady(c, r);
    (if c.cur.Some? && r.gone && c.cur.value.len == c.bytesDone then [Done(0)] else []) + [First] +
    if d.cur.None? || !r.free then []
    else
      var m := d.cur.value;
      [Data(m.data, m.len, m.id, d.bytesDone + Chunk(m, d.bytesDone))]
  }

  lemma TxNextIsRun(c: Chan, r: Ready)
    requires TxOk(c)
    ensures Run(c, TxSteps(c, r)) == TxNext(c, r)
    ensures forall i :: 0 <= i < |TxSteps(c, r)| ==> OfTx(TxSteps(c, r)[i])
  {
    hide Run, TakeFirst, Finished, Progress;
    TxReadyOk(c, r);
    var d := TxReady(c, r);
    var gone := c.cur.Some? && r.gone && c.cur.value.len == c.bytesDone;
    var a := if gone then [Done(0)] else [];
    var b := if d.cur.None? || !r.free then []
             else [Data(d.cur.value.data, d.cur.value.len, d.cur.value.id,
                        d.bytesDone + Chunk(d.cur.value, d.bytesDone))];
    NoneRun(c);
    NoneRun(d);
    OneRun(c, Done(0));
    RunSplit(c, a, [First]);
    OneRun(Run(c, a), First);
    RunSplit(c, a + [First], b);
    if b != [] {
      OneRun(d, b[0]);
    }
  }

  /** The steps of do_hw_rx with a packet to read. */
  function OpenSteps(c: Chan, flags: nat, id: int, size: nat): seq<Step> {
    if c.cur.Some? then []
    else if IsResponse(flags) then
      var d := TakeResponse(c, id);
      [Response(id)] + if d.cur.Some? && d.cur.value.len < size then [Done(EMSGSIZE)] else []
    else if IsRequest(flags) && size < MAX_REQ_MSG_SZ then [Request(id, flags, size)]
    else []
  }

  function StoreSteps(c: Chan, p: Packet): seq<Step>
    requires !p.Other? && c.cur.Some?
  {
    var m := c.cur.value;
    var len := if p.Start? then p.size else m.len;
    var id := if p.Start? then p.id else m.id;
    var end := c.bytesDone + |p.payload|;
    if end > len || end > |m.data| then [Data(m.data, len, id, c.bytesDone), Done(EBADMSG)]
    else
      [Data(m.data[..c.bytesDone] + p.payload + m.data[end..], len, id, end)] + if p.eom then [Done(0)] else []
  }

  function RxSteps(c: Chan, p: Packet): seq<Step> {
    match p
    case Other => []
    case Start(id, flags, size, _, _) =>
      var d := Opened(Finished(c, EBADMSG), flags, id, size);
      [Done(EBADMSG)] + OpenSteps(Finished(c, EBADMSG), flags, id, size) + if d.cur.None? then [] else StoreSteps(d, p)
    case Body(_, _) => if c.cur.None? then [] else StoreSteps(c, p)
  }

  lemma NoneRun(c: Chan)
    ensures Run(c, []) == c
  {
  }

  lemma OpenedIsRun(c: Chan, flags: nat, id: int, size: nat)
    ensures Run(c, OpenSteps(c, flags, id, size)) == Opened(c, flags, id, size)
  {
    hide Run, TakeResponse, TakeRequest, Finished, Progress;
    NoneRun(c);
    if c.cur.None? && IsResponse(flags) {
      var d := TakeResponse(c, id);
      OneRun(c, Response(id));
      NoneRun(d);
      OneRun(d, Done(EMSGSIZE));
      RunSplit(c, [Response(id)], if d.cur.Some? && d.cur.value.len < size then [Done(EMSGSIZE)] else []);
    } else {
      OneRun(c, Request(id, flags, size));
    }
  }

  lemma StoredIsRun(c: Chan, p: Packet)
    requires !p.Other? && c.cur.Some?
    ensures Run(c, StoreSteps(c, p)) == Stored(c, p)
  {
    hide Run, Finished, Progress;
    var s := StoreSteps(c, p);
    var d := Apply(c, s[0]);
    OneRun(c, s[0]);
    RunSplit(c, [s[0]], s[1..]);
    assert s == [s[0]] + s[1..];
    NoneRun(d);
    OneRun(d, Done(EBADMSG));
    OneRun(d, Done(0));
  }

  lemma ReceivedIsRun(c: Chan, p: Packet)
    ensures Run(c, RxSteps(c, p)) == Received(c, p)
  {
    hide Run, Finished, Opened, OpenSteps, Stored, StoreSteps;
    NoneRun(c);
    match p
    case Other =>
    case Start(id, flags, size, _, _) =>
      var f := Finished(c, EBADMSG);
      var d := Opened(f, flags, id, size);
      OneRun(c, Done(EBADMSG));
      RunSplit(c, [Done(EBADMSG)], OpenSteps(f, flags, id, size));
      OpenedIsRun(f, flags, id, size);
      RunSplit(c, [Done(EBADMSG)] + OpenSteps(f, flags, id, size), if d.cur.None? then [] else StoreSteps(d, p));
      NoneRun(d);
      if d.cur.Some? {
        StoredIsRun(d, p);
      }
    case Body(_, _) =>
      if c.cur.Some? {
        StoredIsRun(c, p);
      }
  }

  /** So no round of either worker loses or doubles a message, and those of the
      sender keep the order. */
  lemma WorkerConserves(c: Chan, r: Ready, p: Packet)
    requires Conserved(c)
    ensures Conserved(Received(c, p))
    ensures TxOk(c) ==> Conserved(TxNext(c, r)) && (InOrder(c) ==> InOrder(TxNext(c, r)))
  {
    hide Conserved, InOrder, Run, RxSteps, TxSteps, Received, TxNext;
    ReceivedIsRun(c, p);
    RunConserves(c, RxSteps(c, p));
    if TxOk(c) {
      TxNextIsRun(c, r);
      RunConserves(c, TxSteps(c, r));
      if InOrder(c) {
        TxInOrder(c, TxSteps(c, r));
      }
    }
  }

  /** Which waiting message a response completes: one with its id, except that a
      response numbered INVALID_MSG_ID takes the first one, whatever its id. */
  lemma StrayIff(c: Chan, id: int)
    requires c.cur.None?
    ensures var d := TakeResponse(c, id);
            d.cur.Some? && d.cur.value.id != id <==> id == INVALID_MSG_ID && c.msgs != [] && c.msgs[0].id != id
  {
  }

  // ---- the channel object ----------------------------------------------------------------

  class Channel {
    const isRx: bool
    var stopped: bool
    var tick: bool
    var msgs: seq<Msg>
    var cur: Option<Msg>
    var bytesDone: nat
    // stands for the addresses allocated messages get
    var next: nat
    // packets written to the hardware, for a transmit channel
    var wire: seq<Packet>
    // requests for the listener, for a receive channel
    var reqs: seq<Msg>
    ghost var log: seq<Event>

    constructor (rx: bool)
      ensures Abs() == FRESH && wire == [] && reqs == [] && isRx == rx
    {
      isRx := rx;
      stopped, tick, msgs, cur, bytesDone, next, wire, reqs, log := false, false, [], None, 0, 0, [], [], [];
    }

    ghost function Abs(): Chan
      reads this
    {
      Chan(stopped, tick, msgs, cur, bytesDone, next, log)
    }

    /** chan_msg_enqueue */
    method Enqueue(m: Msg) returns (rv: int)
      modifies this
      ensures Abs() == Enqueued(old(Abs()), m)
      ensures rv == if old(stopped) then ESHUTDOWN else 0
      ensures wire == old(wire) && reqs == old(reqs)
    {
      if stopped {
        return ESHUTDOWN;
      }
      msgs := msgs + [m.(key := next)];
      log := log + [Accepted(next)];
      next := next + 1;
      return 0;
    }

    /** chan_msg_dequeue */
    method Dequeue(id: int) returns (msg: Option<Msg>)
      modifies this`msgs
      ensures var i := Pick(old(msgs), id);
              if i < 0 then msg == None && msgs == old(msgs)
              else msg == Some(old(msgs)[i]) && msgs == Without(old(msgs), i)
    {
      msg := None;
      var i := 0;
      if id == INVALID_MSG_ID {
        if msgs == [] {
          return;
        }
      } else {
        while i < |msgs| && msgs[i].id != id
          invariant 0 <= i <= |msgs|
          invariant forall j :: 0 <= j < i ==> msgs[j].id != id
        {
          i := i + 1;
        }
        FindIs(msgs, id, i);
        if i == |msgs| {
          return;
        }
      }
      msg := Some(msgs[i]);
      msgs := Without(msgs, i);
    }

    /** A waiting message taken back by the one who enqueued it. */
    method TakeBack(id: int) returns (msg: Option<Msg>)
      modifies this
      ensures Abs() == Withdraw(old(Abs()), id) && wire == old(wire) && reqs == old(reqs)
    {
      msg := Dequeue(id);
      if msg.Some? {
        log := log + [Withdrawn(msg.value.key)];
      }
    }

    /** msg_done: the waiter is woken up, or a received request is handed to the
        listener unless too many are waiting. */
    method MsgDone(m: Msg, err: int)
      modifies this`log, this`reqs
      ensures log == old(log) + [Completed(m, err)]
      ensures reqs == if isRx then Handed(old(reqs), Completed(m, err)) else old(reqs)
    {
      if isRx && IsRequest(m.flags) && err == 0 && |reqs| < MAX_MSG_QUEUE_LEN {
        reqs := reqs + [m];
      }
      log := log + [Completed(m, err)];
    }

    /** chan_msg_done */
    method CurDone(err: int)
      modifies this
      ensures Abs() == Finished(old(Abs()), err) && wire == old(wire)
      ensures reqs == if isRx && old(cur).Some? then Handed(old(reqs), Completed(old(cur).value, err)) else old(reqs)
    {
      if cur.None? {
        return;
      }
      MsgDone(cur.value, err);
      cur := None;
      bytesDone := 0;
    }

    /** timeout_msg */
    method TimeoutMsg()
      modifies this
      ensures Abs() == TimedOut(old(Abs())) && wire == old(wire) && reqs == old(reqs)
    {
      if cur.Some? {
        if cur.value.ttl > 0 {
          cur := Some(cur.value.(ttl := cur.value.ttl - 1));
        } else {
          CurDone(ETIMEDOUT);
        }
      }
      var late := TakeLate();
      FailAll(late, ETIMEDOUT);
    }

    /** The walk over the waiting messages: those out of time leave the queue. */
    method TakeLate() returns (late: seq<Msg>)
      modifies this`msgs
      ensures msgs == Surviving(old(msgs)) && late == Expired(old(msgs))
    {
      hide Surviving, Expired;
      var all, kept, i := msgs, [], 0;
      late := [];
      while i < |all|
        invariant 0 <= i <= |all|
        invariant kept + Surviving(all[i..]) == Surviving(all)
        invariant late + Expired(all[i..]) == Expired(all)
      {
        LateStep(all, i);
        if all[i].ttl > 0 {
          kept := kept + [all[i].(ttl := all[i].ttl - 1)];
        } else {
          late := late + [all[i]];
        }
        i := i + 1;
      }
      LateStep(all, i);
      assert kept + [] == kept && late + [] == late;
      msgs := kept;
    }

    static lemma LateStep(all: seq<Msg>, i: nat)
      requires i <= |all|
      ensures i == |all| ==> Surviving(all[i..]) == [] && Expired(all[i..]) == []
      ensures i < |all| ==>
        if all[i].ttl > 0 then
          Surviving(all[i..]) == [all[i].(ttl := all[i].ttl - 1)] + Surviving(all[i + 1..])
          && Expired(all[i..]) == Expired(all[i + 1..])
        else Surviving(all[i..]) == Surviving(all[i + 1..]) && Expired(all[i..]) == [all[i]] + Expired(all[i + 1..])
    {
      if i < |all| {
        assert all[i..][1..] == all[i + 1..];
      }
    }

    /** msg_done for every message of a list. */
    method FailAll(late: seq<Msg>, err: int)
      requires err != 0
      modifies this`log, this`reqs
      ensures log == old(log) + AllDone(late, err) && reqs == old(reqs)
    {
      var i := 0;
      while i < |late|
        invariant 0 <= i <= |late|
        invariant log + AllDone(late[i..], err) == old(log) + AllDone(late, err) && reqs == old(reqs)
      {
        assert late[i..][1..] == late[i + 1..];
        assert AllDone(late[i..], err) == [Completed(late[i], err)] + AllDone(late[i + 1..], err);
        MsgDone(late[i], err);
        i := i + 1;
      }
    }

    /** handle_timer_event */
    method HandleTimerEvent()
      modifies this
      ensures Abs() == TickHandled(old(Abs())) && wire == old(wire) && reqs == old(reqs)
    {
      if !tick {
        return;
      }
      TimeoutMsg();
      tick := false;
    }

    /** chan_fini, once the worker is gone. */
    method ChanFini()
      modifies this
      ensures Abs() == Drained(old(Abs())) && wire == old(wire) && reqs == old(reqs)
    {
      stopped := true;
      if cur.Some? {
        CurDone(ESHUTDOWN);
      }
      FailWaiting();
    }

    /** The loop of chan_fini. */
    method FailWaiting()
      modifies this`msgs, this`log, this`reqs
      ensures msgs == [] && log == old(log) + AllDone(old(msgs), ESHUTDOWN) && reqs == old(reqs)
    {
      hide AllDone;
      ghost var goal := log + AllDone(msgs, ESHUTDOWN);
      NoneDone(log, ESHUTDOWN);
      var msg := PopFirst();
      while msg.Some?
        invariant msg.None? ==> msgs == [] && log == goal
        invariant msg.Some? ==> log + AllDone([msg.value] + msgs, ESHUTDOWN) == goal
        invariant reqs == old(reqs)
        decreases msg.Some?, |msgs|
      {
        DoneFirst(log, msg.value, msgs, ESHUTDOWN);
        MsgDone(msg.value, ESHUTDOWN);
        NoneDone(log, ESHUTDOWN);
        msg := PopFirst();
      }
    }

    /** chan_msg_dequeue of the first message. */
    method PopFirst() returns (msg: Option<Msg>)
      modifies this`msgs
      ensures if old(msgs) == [] then msg == None && msgs == [] else msg.Some? && old(msgs) == [msg.value] + msgs
    {
      msg := Dequeue(INVALID_MSG_ID);
      if msg.Some? {
        FirstOut(old(msgs));
      }
    }

    /** dequeue_tx_msg */
    method DequeueTxMsg()
      modifies this
      ensures Abs() == TakeFirst(old(Abs())) && wire == old(wire) && reqs == old(reqs)
    {
      if cur.Some? {
        return;
      }
      cur := Dequeue(INVALID_MSG_ID);
      if cur.Some? {
        log := log + [Started(cur.value.key)];
      }
    }

    /** chan_do_tx on the hardware channel. */
    method DoTx(r: Ready) returns (progress: bool)
      requires TxOk(Abs())
      modifies this
      ensures Abs() == TxNext(old(Abs()), r)
      ensures wire == old(wire) + TxOut(old(Abs()), r)
      ensures !isRx ==> reqs == old(reqs)
      ensures progress <==> (old(cur).Some? && r.gone) || (cur.Some? && r.free)
    {
      progress := false;
      if cur.Some? {
        if r.gone {
          if cur.value.len == bytesDone {
            CurDone(0);
          }
          progress := true;
        }
      }
      DequeueTxMsg();
      TxReadyOk(old(Abs()), r);
      assert Abs() == TxReady(old(Abs()), r);
      if cur.Some? && r.free {
        var pkt := PacketAt(cur.value, bytesDone);
        wire := wire + [pkt];
        bytesDone := bytesDone + |pkt.payload|;
        progress := true;
      }
    }

    /** dequeue_rx_msg */
    method DequeueRxMsg(flags: nat, id: int, size: nat)
      modifies this
      ensures Abs() == Opened(old(Abs()), flags, id, size) && wire == old(wire) && reqs == old(reqs)
    {
      if cur.Some? {
        return;
      }
      var err := 0;
      if IsResponse(flags) {
        cur := Dequeue(id);
        if cur.Some? {
          log := log + [Started(cur.value.key)];
          if cur.value.len < size {
            err := EMSGSIZE;
          }
        }
      } else if IsRequest(flags) && size < MAX_REQ_MSG_SZ {
        cur := Some(Msg(next, id, seq(size, _ => 0), size, flags, MAX_TTL));
        log := log + [Accepted(next), Started(next)];
        next := next + 1;
      }
      if err != 0 {
        CurDone(err);
      }
    }

    /** chan_pkt2msg and the end of do_hw_rx. */
    method StorePkt(p: Packet)
      requires !p.Other? && cur.Some?
      modifies this
      ensures Abs() == Stored(old(Abs()), p) && wire == old(wire) && old(log) <= log
      ensures reqs == if isRx then HandedAll(old(reqs), log[|old(log)|..]) else old(reqs)
    {
      ghost var was := log;
      NoneHanded(reqs);
      var m := cur.value;
      if p.Start? {
        m := m.(id := p.id, len := p.size);
        cur := Some(m);
      }
      var end := bytesDone + |p.payload|;
      if end > m.len || end > |m.data| {
        OneHanded(reqs, was, Completed(m, EBADMSG));
        CurDone(EBADMSG);
        return;
      }
      cur := Some(m.(data := m.data[..bytesDone] + p.payload + m.data[end..]));
      bytesDone := end;
      if p.eom {
        OneHanded(reqs, was, Completed(cur.value, 0));
        CurDone(0);
      }
    }

    /** do_hw_rx with a packet to read. */
    method DoHwRx(p: Packet)
      modifies this
      ensures Abs() == Received(old(Abs()), p) && wire == old(wire) && old(log) <= log
      ensures reqs == if isRx then HandedAll(old(reqs), log[|old(log)|..]) else old(reqs)
    {
      hide Opened, Stored, Finished, HandedAll, NoSuccess;
      NoneHanded(reqs);
      assert log[|log|..] == [];
      match p
      case Other =>
      case Start(id, flags, size, _, _) =>
        ghost var es := OpenPacket(flags, id, size);
        NotHanded(reqs, es, []);
        assert log[|old(log)|..] == es + [];
        if cur.Some? {
          ghost var was := log;
          StorePkt(p);
          assert log[|old(log)|..] == es + log[|was|..];
          NotHanded(old(reqs), es, log[|was|..]);
        }
      case Body(_, _) =>
        if cur.Some? {
          StorePkt(p);
        }
    }

    /** The case of a start packet: an incomplete message fails, and a new one is
        opened. */
    method OpenPacket(flags: nat, id: int, size: nat) returns (ghost es: seq<Event>)
      modifies this
      ensures Abs() == Opened(Finished(old(Abs()), EBADMSG), flags, id, size) && wire == old(wire)
      ensures reqs == old(reqs) && log == old(log) + es && NoSuccess(es)
    {
      hide Opened, NoSuccess;
      ghost var c := Abs();
      ghost var a := FinishedLog(c);
      ghost var b := OpenedLog(Finished(c, EBADMSG), flags, id, size);
      EventsJoin(a, b);
      es := a + b;
      if cur.Some? {
        CurDone(EBADMSG);
      }
      DequeueRxMsg(flags, id, size);
    }

    /** One round of mailbox_recv_request. */
    method TakeRequest() returns (m: Option<Msg>)
      modifies this`reqs
      ensures if old(reqs) == [] then m == None && reqs == [] else m == Some(old(reqs)[0]) && reqs == old(reqs)[1..]
    {
      if reqs == [] {
        return None;
      }
      m := Some(reqs[0]);
      reqs := reqs[1..];
    }
  }

  lemma NoneHanded(pending: seq<Msg>)
    ensures HandedAll(pending, []) == pending
  {
  }

  lemma OneHanded(pending: seq<Msg>, log: seq<Event>, e: Event)
    ensures HandedAll(pending, (log + [e])[|log|..]) == Handed(pending, e)
  {
    assert (log + [e])[|log|..] == [e] && [e][..0] == [];
    assert HandedAll(pending, []) == pending;
  }

  lemma {:induction false} NotHanded(pending: seq<Msg>, es: seq<Event>, ds: seq<Event>)
    requires NoSuccess(es)
    ensures HandedAll(pending, es + ds) == HandedAll(pending, ds)
    decreases |es| + |ds|
  {
    if ds != [] {
      assert (es + ds)[..|es + ds| - 1] == es + ds[..|ds| - 1];
      NotHanded(pending, es, ds[..|ds| - 1]);
    } else {
      assert es + ds == es;
      if es != [] {
        var a := es[..|es| - 1];
        assert es[|es| - 1].Completed? ==> es[|es| - 1].err != 0;
        assert a + [] == a;
        NotHanded(pending, a, []);
      }
    }
  }

  lemma DoneFirst(log: seq<Event>, m: Msg, msgs: seq<Msg>, err: int)
    ensures log + AllDone([m] + msgs, err) == (log + [Completed(m, err)]) + AllDone(msgs, err)
  {
    assert ([m] + msgs)[1..] == msgs;
  }

  lemma NoneDone(log: seq<Event>, err: int)
    ensures log + AllDone([], err) == log
  {
  }

  lemma FirstOut(msgs: seq<Msg>)
    requires msgs != []
    ensures [msgs[0]] + Without(msgs, 0) == msgs
  {
  }

  lemma {:induction false} FindIs(msgs: seq<Msg>, id: int, i: nat)
    requires i <= |msgs| && (forall j :: 0 <= j < i ==> msgs[j].id != id)
    requires i < |msgs| ==> msgs[i].id == id
    ensures Find(msgs, id) == if i == |msgs| then -1 else i
    decreases i
  {
    if i > 0 {
      assert msgs[0].id != id;
      FindIs(msgs[1..], id, i - 1);
    }
  }
}
