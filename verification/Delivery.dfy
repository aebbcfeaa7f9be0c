/**
 The socket layer as the engine's application: it keeps every promise the
 engine needs, so bytes written on one host arrive in order on the other.
 */
module Delivery {
  import opened Machine
  import opened Sequence
  import opened Callback
  import opened SocketModel
  import opened TcpEngine
  import opened TcpTimers
  import opened TcpNetwork

  /** An endpoint with its connection's user data, while attached, and all that was ever written to it. */
  datatype Host = Host(e: End, view: Option<View>, written: seq<byte>)

  const MUTE: Answer := Answer(Keep, false, GoOn, [])

  /** The socket callback's reply as the engine sees it: the chunk in the send buffer, or nothing. */
  ghost function ClientAnswer(v: View, f: AppFlags, data: seq<byte>, stored: bool): Answer
    requires v.output.Ok()
  {
    var r := AppReply(v, f, data, stored);
    Answer(r.flow, r.newdata, if r.close then Shut else GoOn,
           if r.sendLen > 0 then AfterAck(v, f).output.Chunk() else [])
  }

  /** A new connection is served by spare user data, if there is any. */
  ghost function Server(view: Option<View>, f: AppFlags, spare: Option<nat>): Option<View> {
    if view.Some? || !f.connected || spare.None? then view else Some(Fresh(spare.value))
  }

  ghost predicate AnswersFor(view: Option<View>, step: Step, stored: bool, spare: Option<nat>, a: Answer,
                             view': Option<View>) {
    match step.call
    case None => view' == view && a == MUTE
    case Some(f) =>
      match Server(view, f, spare)
      case None => view' == None && a == MUTE
      case Some(v) =>
        && v.output.Ok() && a == ClientAnswer(v, f, step.handed, stored)
        && view' == if Leaves(f) || AppReply(v, f, step.handed, stored).close then None
                    else Some(AppNext(v, f, step.handed, stored))
  }

  // ----- what holds between the queue and the engine

  /**
   What was written is what is acknowledged, then the queue. With a segment
   outstanding, the first block is that segment, whole and sealed.
   */
  ghost predicate QueueOf(len: nat, submitted: seq<byte>, o: OutQueue, written: seq<byte>) {
    && o.Ok() && len <= |submitted|
    && written == submitted[..|submitted| - len] + o.Bytes()
    && (len > 0 ==>
          && o.blocks != [] && o.Ready() == |o.blocks[0]| == len
          && o.blocks[0] == submitted[|submitted| - len..])
  }

  ghost predicate HostOk(h: Host) {
    var c := h.e.conn;
    && h.e.submitted <= h.written
    && (!h.e.live || c.state == SynSent || c.state == SynRcvd ==> h.view == None && h.written == [])
    && (h.e.live && (c.state == SynSent || c.state == SynRcvd || c.state == Established) ==>
          c.mss == TCP_MSS && c.initialmss == TCP_MSS)
    && (c.state == Established ==>
          match h.view
          case None => h.written == []
          case Some(v) => !v.remoteClosed && QueueOf(c.len, h.e.submitted, v.output, h.written))
    && (c.state == FinWait1 || c.state == FinWait2 || c.state == Closing || c.state == TimeWait ==>
          h.written == h.e.submitted)
    && (h.view.Some? ==> (c.state == Established || c.state == Closed) && h.view.value.output.Ok())
  }

  // ----- the callback on an established connection

  /** After the acknowledgement phase: what the queue holds once the acknowledged block is gone. */
  lemma AckedQueue(len: nat, submitted: seq<byte>, o: OutQueue, written: seq<byte>)
    requires QueueOf(len, submitted, o, written) && len > 0
    ensures QueueOf(0, submitted, o.Eaten(), written)
  {
    EatenBytes(o);
    assert submitted[..|submitted|] == submitted;
    assert submitted[..|submitted| - len] + submitted[|submitted| - len..] == submitted;
    assert o.Chunk() == o.blocks[0];
    Associative(submitted[..|submitted| - len], o.Chunk(), o.Eaten().Bytes());
  }

  /** A first transmission: the chunk becomes the outstanding segment, and its block is sealed. */
  lemma SentQueue(len: nat, submitted: seq<byte>, o: OutQueue, written: seq<byte>)
    requires QueueOf(len, submitted, o, written) && len == 0 && o.Ready() > 0
    ensures |o.Chunk()| == o.Ready() <= DATALEN
    ensures QueueOf(o.Ready(), submitted + o.Chunk(), o.Sealed(), written)
  {
    SealedBytes(o);
    var submitted' := submitted + o.Chunk();
    assert submitted'[..|submitted'| - o.Ready()] == submitted == submitted[..|submitted|];
    assert submitted'[|submitted'| - o.Ready()..] == o.Chunk();
  }

  /** A retransmission carries the outstanding bytes, and sealing again changes nothing. */
  lemma ResentQueue(len: nat, submitted: seq<byte>, o: OutQueue, written: seq<byte>)
    requires QueueOf(len, submitted, o, written) && len > 0
    ensures o.Sealed() == o && o.Chunk() == o.blocks[0] && Payload(o.Chunk(), len) == submitted[|submitted| - len..]
  {
    assert o.blocks[0][..|o.blocks[0]|] == o.blocks[0];
  }

  /** Writing behind an outstanding segment does not touch it. */
  lemma WrittenQueue(len: nat, submitted: seq<byte>, o: OutQueue, written: seq<byte>, o': OutQueue, data: seq<byte>)
    requires QueueOf(len, submitted, o, written) && Wrote(o, o', data)
    ensures QueueOf(len, submitted, o', written + data)
  {
    assert written + data == submitted[..|submitted| - len] + (o.Bytes() + data);
    if len > 0 { WroteKeepsChunk(o, o', data); }
  }

  ghost predicate Attached(c: Conn, submitted: seq<byte>, v: View, written: seq<byte>) {
    c.mss == TCP_MSS && c.initialmss == TCP_MSS && !v.remoteClosed && QueueOf(c.len, submitted, v.output, written)
  }

  /** `c` is the connection as the callback finds it, an acknowledged block not yet eaten. */
  ghost predicate Calling(c: Conn, submitted: seq<byte>, v: View, f: AppFlags, written: seq<byte>) {
    && c.state == Established && c.mss == TCP_MSS && c.initialmss == TCP_MSS
    && v.output.Ok() && !v.remoteClosed && !Leaves(f)
    && QueueOf(c.len, submitted, AfterAck(v, f).output, written)
  }

  lemma AnswerFaithful(c: Conn, submitted: seq<byte>, v: View, f: AppFlags, data: seq<byte>, stored: bool,
                       written: seq<byte>)
    requires Calling(c, submitted, v, f, written) && (c.len > 0 ==> !f.poll)
    ensures Faithful(c, submitted, ClientAnswer(v, f, data, stored))
    ensures ClientAnswer(v, f, data, stored).verdict == Shut ==> c.len == 0 && written == submitted
  {
    var o := AfterAck(v, f).output;
    if c.len > 0 { ResentQueue(c.len, submitted, o, written); }
    assert submitted[..|submitted|] == submitted;
    assert o.blocks == [] ==> o.Bytes() == [];
  }

  /** What the callback leaves behind, and what it wants sent, when it neither leaves nor closes. */
  lemma NextView(v: View, f: AppFlags, data: seq<byte>, stored: bool)
    requires v.output.Ok() && !Leaves(f) && ClientAnswer(v, f, data, stored).verdict == GoOn
    ensures var o, sends := AfterAck(v, f).output, f.poll || f.rexmit;
      && AppNext(v, f, data, stored).output == (if sends && o.blocks != [] then o.Sealed() else o)
      && AppNext(v, f, data, stored).remoteClosed == v.remoteClosed
      && ClientAnswer(v, f, data, stored).data == (if sends && o.blocks != [] && o.Ready() > 0 then o.Chunk() else [])
  {
  }

  lemma UnreadySealed(o: OutQueue)
    requires o.Ok() && o.Ready() == 0
    ensures o.Sealed() == o
  {
  }

  /** The engine, given the answer, goes on from a queue that still fits. */
  lemma AppSendAttached(c: Conn, submitted: seq<byte>, v: View, f: AppFlags, data: seq<byte>, stored: bool,
                        written: seq<byte>)
    requires Calling(c, submitted, v, f, written) && (c.len > 0 ==> !f.poll) && !f.rexmit
    requires ClientAnswer(v, f, data, stored).verdict == GoOn
    ensures var step := AppSend(c, f, ClientAnswer(v, f, data, stored), []);
      && step.conn.state == Established
      && Attached(step.conn, submitted + step.taken, AppNext(v, f, data, stored), written)
  {
    hide Make, Emit, AppNext, ClientAnswer, QueueOf;
    var a, o := ClientAnswer(v, f, data, stored), AfterAck(v, f).output;
    NextView(v, f, data, stored);
    hide AfterAck;
    if f.poll && o.blocks != [] && o.Ready() > 0 {
      SentQueue(c.len, submitted, o, written);
      assert a.data[..|a.data|] == a.data;
    } else {
      assert submitted + [] == submitted;
      if o.Ready() == 0 { UnreadySealed(o); }
    }
  }

  lemma ResendAttached(c: Conn, submitted: seq<byte>, v: View, f: AppFlags, data: seq<byte>, stored: bool,
                       written: seq<byte>)
    requires Calling(c, submitted, v, f, written) && c.len > 0 && f == NONE.(rexmit := true)
    ensures Attached(c, submitted, AppNext(v, f, data, stored), written) && AppNext(v, f, data, stored).output.Ok()
    ensures ClientAnswer(v, f, data, stored).verdict == GoOn && !AppReply(v, f, data, stored).close
    ensures ClientAnswer(v, f, data, stored).data == submitted[|submitted| - c.len..]
  {
    ResentQueue(c.len, submitted, v.output, written);
    assert v.output.blocks[0][..|v.output.blocks[0]|] == v.output.blocks[0];
  }

  // ----- one host's steps

  ghost predicate HostReady(h: Host) {
    HostOk(h) && SenderOk(h.e) && h.e.live
  }

  /** A callback on an established connection with nothing outstanding, or one that is not a poll. */
  lemma CalledHost(e: End, c: Conn, view: Option<View>, f: AppFlags, got: seq<byte>, data: seq<byte>, stored: bool,
                   spare: Option<nat>, a: Answer, view': Option<View>, written: seq<byte>)
    requires c.state == Established && c.mss == TCP_MSS && c.initialmss == TCP_MSS && c.len <= |e.submitted|
    requires !Leaves(f) && !f.rexmit && (c.len > 0 ==> !f.poll)
    requires match Server(view, f, spare)
      case None => written == [] && e.submitted == [] && a == MUTE && view' == None
      case Some(v) =>
        && Calling(c, e.submitted, v, f, written) && a == ClientAnswer(v, f, data, stored)
        && view' == if AppReply(v, f, data, stored).close then None else Some(AppNext(v, f, data, stored))
    requires e.submitted <= written && e.live
    ensures Faithful(c, e.submitted, a)
    ensures var step := AppSend(c, f, a, got);
      HostOk(Host(e.(conn := step.conn, submitted := e.submitted + step.taken), view', written))
  {
    var step := AppSend(c, f, a, got);
    AppSendHands(c, f, a, got);
    match Server(view, f, spare) {
      case None =>
        assert step.taken == [] && e.submitted + [] == [];
      case Some(v) =>
        AnswerFaithful(c, e.submitted, v, f, data, stored, written);
        if a.verdict == GoOn {
          AppSendAttached(c, e.submitted, v, f, data, stored, written);
          QueuePrefix(step.conn.len, e.submitted + step.taken, AppNext(v, f, data, stored).output, written);
        } else {
          assert e.submitted + [] == e.submitted;
        }
    }
  }

  lemma QueuePrefix(len: nat, submitted: seq<byte>, o: OutQueue, written: seq<byte>)
    requires QueueOf(len, submitted, o, written)
    ensures submitted <= written
  {
    if len > 0 {
      var k := |submitted| - len;
      ResentQueue(len, submitted, o, written);
      EatenBytes(o);
      hide QueueOf;
      SplitPrefix(submitted, k, o.Eaten().Bytes());
    } else {
      assert submitted[..|submitted|] == submitted;
    }
  }

  lemma SplitPrefix(s: seq<byte>, k: nat, rest: seq<byte>)
    requires k <= |s|
    ensures s <= s[..k] + (s[k..] + rest)
  {
    assert s[..k] + (s[k..] + rest) == s + rest;
  }

  lemma CallingNow(h: Host, f: AppFlags)
    requires HostReady(h) && h.e.conn.state == Established && !f.acked && !Leaves(f) && !f.connected
    ensures h.e.conn.mss == TCP_MSS && h.e.conn.initialmss == TCP_MSS && h.e.conn.len <= |h.e.submitted|
    ensures h.e.submitted <= h.written
    ensures match h.view
      case None => h.written == [] && h.e.submitted == []
      case Some(v) => v.output.Ok() && Calling(h.e.conn, h.e.submitted, v, f, h.written)
  {
  }

  /** The poll, by the timer or between its ticks. */
  lemma PolledHost(h: Host, a: Answer, stored: bool, spare: Option<nat>, view': Option<View>)
    requires HostReady(h) && h.e.conn.state == Established && h.e.conn.len == 0
    requires AnswersFor(h.view, AppSend(h.e.conn, NONE.(poll := true), a, []), stored, spare, a, view')
    ensures Faithful(h.e.conn, h.e.submitted, a)
    ensures var step := AppSend(h.e.conn, NONE.(poll := true), a, []);
      HostOk(Host(h.e.(conn := step.conn, submitted := h.e.submitted + step.taken), view', h.written))
  {
    hide HostOk, QueueOf, Make, Emit, AppNext, ClientAnswer, AppReply, AfterAck, Calling, AppSend;
    var f := NONE.(poll := true);
    CallingNow(h, f);
    AppSendCalls(h.e.conn, f, a, []);
    CalledHost(h.e, h.e.conn, h.view, f, [], [], stored, spare, a, view', h.written);
  }

  lemma AppSendCalls(c: Conn, f: AppFlags, a: Answer, got: seq<byte>)
    ensures AppSend(c, f, a, got).call == Some(f) && AppSend(c, f, a, got).handed == got
  {
  }

  lemma TickHost(h: Host, a: Answer, stored: bool, spare: Option<nat>, view': Option<View>)
    requires HostReady(h) && AnswersFor(h.view, Tick(h.e.conn, a), stored, spare, a, view')
    ensures Faithful(h.e.conn, h.e.submitted, a) && Meek(h.e.conn, Tick(h.e.conn, a).call, a)
    ensures HostOk(Host(Ticked(h.e, a), view', h.written))
  {
    hide HostOk, QueueOf, AppNext, ClientAnswer, AppReply, AppSend, AfterAck;
    hide AnswersFor, SenderOk, GivesUp, Backoff, Retransmit;
    var c := h.e.conn;
    if c.state == Established && c.len == 0 {
      PolledHost(h, a, stored, spare, view');
      AppSendCalls(c, NONE.(poll := true), a, []);
      assert h.e.handed + [] == h.e.handed;
      assert Ticked(h.e, a) == AppSent(h.e, NONE.(poll := true), a);
    } else if c.state == Established && c.timer == 0 {
      if GivesUp(c) { GaveUpHost(h, a, stored, spare, view'); } else { ResentHost(h, a, stored, spare, view'); }
    } else {
      WaitedHost(h, a, stored, spare, view');
    }
  }

  lemma GaveUpHost(h: Host, a: Answer, stored: bool, spare: Option<nat>, view': Option<View>)
    requires HostReady(h) && AnswersFor(h.view, Tick(h.e.conn, a), stored, spare, a, view')
    requires h.e.conn.state == Established && h.e.conn.len > 0 && h.e.conn.timer == 0 && GivesUp(h.e.conn)
    ensures Faithful(h.e.conn, h.e.submitted, a) && Meek(h.e.conn, Tick(h.e.conn, a).call, a)
    ensures HostOk(Host(Ticked(h.e, a), view', h.written))
  {
    assert h.e.submitted + [] == h.e.submitted;
  }

  lemma ResentHost(h: Host, a: Answer, stored: bool, spare: Option<nat>, view': Option<View>)
    requires HostReady(h) && AnswersFor(h.view, Tick(h.e.conn, a), stored, spare, a, view')
    requires h.e.conn.state == Established && h.e.conn.len > 0 && h.e.conn.timer == 0 && !GivesUp(h.e.conn)
    ensures Faithful(h.e.conn, h.e.submitted, a) && Meek(h.e.conn, Tick(h.e.conn, a).call, a)
    ensures HostOk(Host(Ticked(h.e, a), view', h.written))
  {
    hide QueueOf, AppNext, ClientAnswer, AppReply, AfterAck, Make, Emit;
    assert h.e.submitted + [] == h.e.submitted;
    CallingNow(h, NONE.(rexmit := true));
    if h.view.Some? {
      ResendAttached(h.e.conn, h.e.submitted, h.view.value, NONE.(rexmit := true), [], stored, h.written);
    }
  }

  lemma WaitedHost(h: Host, a: Answer, stored: bool, spare: Option<nat>, view': Option<View>)
    requires HostReady(h) && AnswersFor(h.view, Tick(h.e.conn, a), stored, spare, a, view')
    requires h.e.conn.state == Established ==> h.e.conn.len > 0 && h.e.conn.timer > 0
    ensures Faithful(h.e.conn, h.e.submitted, a) && Meek(h.e.conn, Tick(h.e.conn, a).call, a)
    ensures HostOk(Host(Ticked(h.e, a), view', h.written))
  {
    hide QueueOf, AppNext, ClientAnswer, AppReply, AfterAck, PureAck, FinAck, RstAck;
    hide SynAck, Syn, SenderOk, AppSend, Emit, Backoff;
    assert h.e.submitted + [] == h.e.submitted;
  }

  lemma PollHost(h: Host, a: Answer, stored: bool, spare: Option<nat>, view': Option<View>)
    requires HostReady(h) && AnswersFor(h.view, Poll(h.e.conn, a), stored, spare, a, view')
    ensures HostOk(Host(Polled(h.e, a), view', h.written))
  {
    hide HostOk, QueueOf, AppNext, ClientAnswer, AppReply, AppSend, AfterAck;
    if h.e.conn.state == Established && h.e.conn.len == 0 {
      PolledHost(h, a, stored, spare, view');
      AppSendCalls(h.e.conn, NONE.(poll := true), a, []);
    } else {
      assert h.e.submitted + [] == h.e.submitted && h.e.handed + [] == h.e.handed;
      assert Host(Polled(h.e, a), view', h.written) == h;
    }
  }

  // ----- segments arriving

  /** What the engine itself puts on the network: a window of nothing or of one block, and an mss with every SYN. */
  predicate Framed(s: Segment) {
    !s.rst ==> (s.wnd == 0 || s.wnd == RECEIVE_WINDOW) && (s.syn ==> s.mss == Some(TCP_MSS))
  }

  ghost predicate Arriving(h: Host, s: Segment, a: Answer, rtt: byte, stored: bool, spare: Option<nat>,
                           view': Option<View>) {
    && HostReady(h) && !h.e.conn.IsClosed() && Framed(s)
    && AnswersFor(h.view, Input(h.e.conn, s, a, rtt), stored, spare, a, view')
  }

  lemma ResetHost(h: Host, s: Segment, a: Answer, rtt: byte, stored: bool, spare: Option<nat>, view': Option<View>)
    requires Arriving(h, s, a, rtt, stored, spare, view') && s.rst
    ensures Faithful(Acked(h.e.conn, s, rtt), h.e.submitted, a) && Meek(h.e.conn, Input(h.e.conn, s, a, rtt).call, a)
    ensures HostOk(Host(Receive(h.e, s, a, rtt), view', h.written))
  {
    hide ClientAnswer, AppNext, AppReply, AfterAck, SenderOk, Acked, Add32;
    AckedState(h.e.conn, s, rtt);
    assert h.e.submitted + [] == h.e.submitted;
    if h.view.Some? { AbortAnswer(h.view.value, stored); }
  }

  /** Told of a reset, the callback sends nothing, and asks to close only if nothing waits for output. */
  lemma AbortAnswer(v: View, stored: bool)
    requires v.output.Ok()
    ensures var a := ClientAnswer(v, NONE.(aborted := true), [], stored);
      a.data == [] && (a.verdict == Shut ==> v.output.blocks == [])
    ensures AppNext(v, NONE.(aborted := true), [], stored).output.Ok()
  {
  }

  /** A segment out of order, or one that fails to open the connection. */
  lemma RejectedHost(h: Host, s: Segment, a: Answer, rtt: byte, stored: bool, spare: Option<nat>, view': Option<View>)
    requires Arriving(h, s, a, rtt, stored, spare, view') && !s.rst
    requires OutOfOrder(h.e.conn, s) || ((h.e.conn.state == SynRcvd || h.e.conn.state == SynSent) && !Acks(h.e.conn, s))
      || (h.e.conn.state == SynSent && !s.OnlySynAck())
    ensures Faithful(Acked(h.e.conn, s, rtt), h.e.submitted, a) && Meek(h.e.conn, Input(h.e.conn, s, a, rtt).call, a)
    ensures HostOk(Host(Receive(h.e, s, a, rtt), view', h.written))
  {
    hide QueueOf, AppNext, ClientAnswer, AppReply, AfterAck, Make, Emit, AppSend, Add32;
    assert h.e.submitted + [] == h.e.submitted;
  }

  /** A segment on a connection that has given up its user data. */
  lemma ClosingHost(h: Host, s: Segment, a: Answer, rtt: byte, stored: bool, spare: Option<nat>, view': Option<View>)
    requires Arriving(h, s, a, rtt, stored, spare, view') && !s.rst && !OutOfOrder(h.e.conn, s)
    requires h.e.conn.state != Established && h.e.conn.state != SynRcvd && h.e.conn.state != SynSent
    ensures Faithful(Acked(h.e.conn, s, rtt), h.e.submitted, a) && Meek(h.e.conn, Input(h.e.conn, s, a, rtt).call, a)
    ensures HostOk(Host(Receive(h.e, s, a, rtt), view', h.written))
  {
    hide QueueOf, AppNext, ClientAnswer, AppReply, AfterAck, OutOfOrder, Acks, SenderOk, Input, Acked;
    assert h.e.submitted + [] == h.e.submitted;
    StateFacts(h.e);
    ClosingStep(h.e.conn, s, a, rtt);
    AckedState(h.e.conn, s, rtt);
  }

  /** Once closing, a connection takes on nothing, hands up nothing, and never opens again. */
  lemma ClosingStep(c: Conn, s: Segment, a: Answer, rtt: byte)
    requires !s.rst && !OutOfOrder(c, s) && c.state != Established && c.state != SynRcvd && c.state != SynSent
    ensures var step := Input(c, s, a, rtt);
      && step.taken == [] && step.handed == [] && (step.call.Some? ==> step.call == Some(NONE.(closed := true)))
      && (step.conn.state == c.state || step.conn.state == Closed
          || (step.conn.state != SynSent && step.conn.state != SynRcvd && step.conn.state != Established
              && step.conn.state != LastAck && c.state != LastAck && c.state != Closed))
  {
    hide Add32, OutOfOrder, Acks, PureAck, SynRcvdInput, SynSentInput, EstablishedInput;
  }

  lemma AckedState(c: Conn, s: Segment, rtt: byte)
    ensures Acked(c, s, rtt).state == c.state && (Acked(c, s, rtt).len == c.len || Acked(c, s, rtt).len == 0)
  {
  }

  /** The connection becomes established, and its first callback attaches spare user data if there is any. */
  lemma OpenedHost(h: Host, s: Segment, a: Answer, rtt: byte, stored: bool, spare: Option<nat>, view': Option<View>)
    requires Arriving(h, s, a, rtt, stored, spare, view') && !s.rst && !OutOfOrder(h.e.conn, s) && Acks(h.e.conn, s)
    requires h.e.conn.state == SynRcvd || (h.e.conn.state == SynSent && s.OnlySynAck())
    ensures Faithful(Acked(h.e.conn, s, rtt), h.e.submitted, a) && Meek(h.e.conn, Input(h.e.conn, s, a, rtt).call, a)
    ensures HostOk(Host(Receive(h.e, s, a, rtt), view', h.written))
  {
    hide QueueOf, HostOk, AppNext, ClientAnswer, AppReply, AfterAck, Make, Emit, AppSend;
    var c := Acked(h.e.conn, s, rtt);
    var f := NONE.(connected := true, newdata := h.e.conn.state == SynSent || |s.data| > 0);
    OpeningFacts(h, s);
    var c' := if h.e.conn.state == SynRcvd
      then c.(state := Established, stopped := false, len := 0, rcvNxt := Add32(c.rcvNxt, |s.data|))
      else c.(state := Established, stopped := false, len := 0, rcvNxt := Add32(s.seqno, 1),
              initialmss := TCP_MSS, mss := TCP_MSS);
    var got := if h.e.conn.state == SynRcvd then s.data else [];
    var r := Receive(h.e, s, a, rtt);
    var e' := h.e.(una := r.una, rcvd := r.rcvd, handed := h.e.handed + got);
    AppSendCalls(c', f, a, got);
    if spare.Some? { FreshCalling(c', spare.value, f); }
    CalledHost(e', c', None, f, got, got, stored, spare, a, view', h.written);
    var step := AppSend(c', f, a, got);
    assert Receive(h.e, s, a, rtt) == e'.(conn := step.conn, submitted := e'.submitted + step.taken);
  }

  lemma OpeningFacts(h: Host, s: Segment)
    requires HostReady(h) && (h.e.conn.state == SynSent || h.e.conn.state == SynRcvd)
    ensures h.view == None && h.written == [] && h.e.submitted == []
    ensures h.e.conn.mss == TCP_MSS && h.e.conn.initialmss == TCP_MSS
  {
  }

  lemma FreshCalling(c: Conn, sock: nat, f: AppFlags)
    requires c.state == Established && c.mss == TCP_MSS && c.initialmss == TCP_MSS && c.len == 0
    requires !f.acked && !Leaves(f)
    ensures Fresh(sock).output.Ok() && Calling(c, [], Fresh(sock), f, [])
  {
  }

  /** The connection as the callback of an accepted segment finds it. */
  ghost predicate Reached(h: Host, c: Conn, f: AppFlags, acked: bool) {
    && h.e.submitted <= h.written && f.acked == acked && c.state == Established
    && c.mss == TCP_MSS && c.initialmss == TCP_MSS && c.len == (if acked then 0 else h.e.conn.len) <= |h.e.submitted|
    && match h.view
       case None => h.written == [] && h.e.submitted == []
       case Some(v) => v.output.Ok() && Calling(c, h.e.submitted, v, f, h.written)
  }

  lemma CallingAcked(h: Host, s: Segment, rtt: byte, f: AppFlags, c: Conn)
    requires HostReady(h) && h.e.conn.state == Established && Framed(s) && !s.rst
    requires f.acked == Acks(h.e.conn, s) && !Leaves(f)
    requires c == Acked(h.e.conn, s, rtt).(mss := c.mss, rcvNxt := c.rcvNxt, stopped := c.stopped) && c.mss == TCP_MSS
    ensures Reached(h, c, f, f.acked)
  {
    if f.acked && h.view.Some? { AckedQueue(h.e.conn.len, h.e.submitted, h.view.value.output, h.written); }
  }

  /** What the engine does with data or an acknowledgement, when windows are those the engine itself sends. */
  lemma EstablishedStep(c: Conn, s: Segment, a: Answer, rtt: byte)
    requires c.state == Established && c.initialmss == TCP_MSS && Framed(s) && !s.rst && !OutOfOrder(c, s)
    requires !(s.fin && !c.stopped) && (Acks(c, s) || (|s.data| > 0 && !c.stopped))
    ensures var c1, acked, take := Acked(c, s, rtt), Acks(c, s), |s.data| > 0 && !c.stopped;
      var c2 := c1.(rcvNxt := if take then Add32(c1.rcvNxt, |s.data|) else c1.rcvNxt, mss := TCP_MSS);
      Input(c, s, a, rtt) == AppSend(c2, NONE.(acked := acked, newdata := take), a, if take then s.data else [])
  {
    hide AppSend, Add32, OutOfOrder;
  }

  /** Data or an acknowledgement on an established connection. */
  lemma EstablishedHost(h: Host, s: Segment, a: Answer, rtt: byte, stored: bool, spare: Option<nat>,
                        view': Option<View>)
    requires Arriving(h, s, a, rtt, stored, spare, view') && !s.rst && !OutOfOrder(h.e.conn, s)
    requires h.e.conn.state == Established && !(s.fin && !h.e.conn.stopped)
    requires Acks(h.e.conn, s) || (|s.data| > 0 && !h.e.conn.stopped)
    ensures Faithful(Acked(h.e.conn, s, rtt), h.e.submitted, a) && Meek(h.e.conn, Input(h.e.conn, s, a, rtt).call, a)
    ensures HostOk(Host(Receive(h.e, s, a, rtt), view', h.written))
  {
    hide QueueOf, HostOk, SenderOk, Calling, AppNext, ClientAnswer, AppReply, AfterAck;
    hide AppSend, Input, Acked, Add32, OutOfOrder, Framed;
    var c, acked, take := Acked(h.e.conn, s, rtt), Acks(h.e.conn, s), |s.data| > 0 && !h.e.conn.stopped;
    var f, got := NONE.(acked := acked, newdata := take), if take then s.data else [];
    CallingNow(h, NONE);
    var c' := c.(rcvNxt := if take then Add32(c.rcvNxt, |s.data|) else c.rcvNxt, mss := TCP_MSS);
    CallingAcked(h, s, rtt, f, c');
    EstablishedStep(h.e.conn, s, a, rtt);
    var e' := Receive(h.e, s, a, rtt).(conn := h.e.conn, submitted := h.e.submitted);
    hide Acks, Receive, Arriving;
    ReachedHost(h, e', c', f, got, a, stored, spare, view');
  }

  lemma ReachedHost(h: Host, e: End, c: Conn, f: AppFlags, got: seq<byte>, a: Answer, stored: bool, spare: Option<nat>,
                    view': Option<View>)
    requires HostReady(h) && Reached(h, c, f, f.acked) && !Leaves(f) && !f.poll && !f.rexmit && !f.connected
    requires AnswersFor(h.view, AppSend(c, f, a, got), stored, spare, a, view')
    requires e.live && e.submitted == h.e.submitted <= h.written
    ensures Faithful(c, h.e.submitted, a)
    ensures var step := AppSend(c, f, a, got);
      HostOk(Host(e.(conn := step.conn, submitted := e.submitted + step.taken), view', h.written))
  {
    hide QueueOf, HostOk, SenderOk, Calling, AppNext, ClientAnswer, AppReply, AfterAck, AppSend, Faithful;
    AppSendCalls(c, f, a, got);
    CalledHost(e, c, h.view, f, got, got, stored, spare, a, view', h.written);
  }

  /** Nothing for the callback: an empty segment, data while stopped, or a FIN before all is acknowledged. */
  lemma IgnoredHost(h: Host, s: Segment, a: Answer, rtt: byte, stored: bool, spare: Option<nat>, view': Option<View>)
    requires Arriving(h, s, a, rtt, stored, spare, view') && !s.rst && !OutOfOrder(h.e.conn, s)
    requires h.e.conn.state == Established && !Acks(h.e.conn, s)
    requires if s.fin && !h.e.conn.stopped then h.e.conn.len > 0 else !(|s.data| > 0 && !h.e.conn.stopped)
    ensures Faithful(Acked(h.e.conn, s, rtt), h.e.submitted, a) && Meek(h.e.conn, Input(h.e.conn, s, a, rtt).call, a)
    ensures HostOk(Host(Receive(h.e, s, a, rtt), view', h.written))
  {
    hide QueueOf, AppNext, ClientAnswer, AppReply, AfterAck, Make, Emit, AppSend;
    assert h.e.submitted + [] == h.e.submitted;
  }

  /** The peer's FIN: the callback is told that the connection ends, and gives its user data up. */
  lemma FinHost(h: Host, s: Segment, a: Answer, rtt: byte, stored: bool, spare: Option<nat>, view': Option<View>)
    requires Arriving(h, s, a, rtt, stored, spare, view') && !s.rst && !OutOfOrder(h.e.conn, s)
    requires h.e.conn.state == Established && s.fin && !h.e.conn.stopped && (h.e.conn.len > 0 ==> Acks(h.e.conn, s))
    ensures Faithful(Acked(h.e.conn, s, rtt), h.e.submitted, a) && Meek(h.e.conn, Input(h.e.conn, s, a, rtt).call, a)
    ensures HostOk(Host(Receive(h.e, s, a, rtt), view', h.written))
  {
    hide QueueOf, AppNext, ClientAnswer, AppReply, AfterAck, Make, Emit, AppSend;
    assert h.e.submitted + [] == h.e.submitted;
  }

  /** The socket callback keeps the engine's conditions whatever segment arrives, and queue and engine still agree. */
  lemma ReceiveHost(h: Host, s: Segment, a: Answer, rtt: byte, stored: bool, spare: Option<nat>, view': Option<View>)
    requires Arriving(h, s, a, rtt, stored, spare, view')
    ensures Faithful(Acked(h.e.conn, s, rtt), h.e.submitted, a) && Meek(h.e.conn, Input(h.e.conn, s, a, rtt).call, a)
    ensures HostOk(Host(Receive(h.e, s, a, rtt), view', h.written))
  {
    hide HostOk, SenderOk, AnswersFor, Acks, OutOfOrder, Input, Receive, Acked, Arriving;
    var c := h.e.conn;
    if s.rst {
      ResetHost(h, s, a, rtt, stored, spare, view');
    } else if OutOfOrder(c, s) {
      RejectedHost(h, s, a, rtt, stored, spare, view');
    } else if c.state == Established {
      if s.fin && !c.stopped && (c.len > 0 ==> Acks(c, s)) {
        FinHost(h, s, a, rtt, stored, spare, view');
      } else if Acks(c, s) || (|s.data| > 0 && !c.stopped && !s.fin) {
        EstablishedHost(h, s, a, rtt, stored, spare, view');
      } else {
        IgnoredHost(h, s, a, rtt, stored, spare, view');
      }
    } else if Acks(c, s) && (c.state == SynRcvd || (c.state == SynSent && s.OnlySynAck())) {
      OpenedHost(h, s, a, rtt, stored, spare, view');
    } else if c.state == SynRcvd || c.state == SynSent {
      RejectedHost(h, s, a, rtt, stored, spare, view');
    } else {
      ClosingHost(h, s, a, rtt, stored, spare, view');
    }
  }

  lemma MadeFramed(c: Conn)
    ensures Framed(PureAck(c)) && Framed(FinAck(c)) && Framed(RstAck(c)) && Framed(SynAck(c)) && Framed(Syn(c))
    ensures forall d :: Framed(Data(c, d))
  {
  }

  lemma EmitFramed(c: Conn, a: Answer, newdata: bool)
    ensures Emit(c, a, newdata).Some? ==> Framed(Emit(c, a, newdata).value)
  {
    hide Data, PureAck, Framed;
    MadeFramed(c);
  }

  lemma AppSendFramed(c: Conn, f: AppFlags, a: Answer, got: seq<byte>)
    ensures AppSend(c, f, a, got).out.Some? ==> Framed(AppSend(c, f, a, got).out.value)
  {
    hide Emit, FinAck, RstAck, Framed;
    var c' := AppSend(c, f, a, got).conn;
    MadeFramed(c');
    EmitFramed(c', a, f.newdata);
  }

  lemma InputFramed(c: Conn, s: Segment, a: Answer, rtt: byte)
    ensures Input(c, s, a, rtt).out.Some? ==> Framed(Input(c, s, a, rtt).out.value)
  {
    hide Framed, PureAck, FinAck, Refusal, AppSend, Acks, OutOfOrder, Add32, Acked;
    var c0 := Acked(c, s, rtt);
    MadeFramed(Input(c, s, a, rtt).conn);
    OpenFramed(c, s, 0);
    CallFramed(c0, s, Acks(c, s), a);
  }

  lemma CallFramed(c: Conn, s: Segment, acked: bool, a: Answer)
    ensures SynRcvdInput(c, s, acked, a).out.Some? ==> Framed(SynRcvdInput(c, s, acked, a).out.value)
    ensures SynSentInput(c, s, acked, a).out.Some? ==> Framed(SynSentInput(c, s, acked, a).out.value)
    ensures EstablishedInput(c, s, acked, a).out.Some? ==> Framed(EstablishedInput(c, s, acked, a).out.value)
  {
    hide Framed, PureAck, FinAck, Refusal, AppSend, Add32;
    OpenFramed(c, s, 0);
    MadeFramed(EstablishedInput(c, s, acked, a).conn);
    forall c', f, got ensures AppSend(c', f, a, got).out.Some? ==> Framed(AppSend(c', f, a, got).out.value) {
      AppSendFramed(c', f, a, got);
    }
  }

  lemma TickFramed(c: Conn, a: Answer)
    ensures Tick(c, a).out.Some? ==> Framed(Tick(c, a).out.value)
    ensures Poll(c, a).out.Some? ==> Framed(Poll(c, a).out.value)
  {
    hide Framed, PureAck, FinAck, RstAck, SynAck, Syn, Emit, AppSend, GivesUp;
    MadeFramed(Tick(c, a).conn);
    AppSendFramed(c, NONE.(poll := true), a, []);
    EmitFramed(Tick(c, a).conn, a, false);
  }

  lemma OpenFramed(c: Conn, s: Segment, iss: u32)
    ensures Framed(Accept(c, s, iss).out.value)
    ensures Refusal(s).Some? ==> Framed(Refusal(s).value)
  {
  }

  // ----- two hosts

  datatype Hosts = Hosts(a: Host, b: Host, net: set<Packet>) {
    function At(atA: bool): Host {
      if atA then a else b
    }

    function Engines(): System {
      System(a.e, b.e, net)
    }

    ghost predicate Changes(atA: bool, s': Hosts) {
      s'.net == net && s'.At(!atA) == At(!atA) && s'.At(atA).e == At(atA).e
    }
  }

  /** A step of the engines with its callback served by the socket layer, or a call of the user's. */
  datatype Act =
    | Engine(ev: Event, stored: bool, spare: Option<nat>)
    | Write(atA: bool, data: seq<byte>)
    | Read(atA: bool, got: seq<byte>)
    | Stop(atA: bool)

  /** The callback's answer is the socket layer's. */
  ghost predicate Serves(s: Hosts, ev: Event, stored: bool, spare: Option<nat>, s': Hosts) {
    match ev
    case Arrival(atA, p, a, rtt) =>
      && s'.At(!atA) == s.At(!atA)
      && AnswersFor(s.At(atA).view, Input(s.At(atA).e.conn, p.seg, a, rtt), stored, spare, a, s'.At(atA).view)
    case Timeout(atA, a) =>
      && s'.At(!atA) == s.At(!atA)
      && AnswersFor(s.At(atA).view, Tick(s.At(atA).e.conn, a), stored, spare, a, s'.At(atA).view)
    case PollAt(atA, a) =>
      && s'.At(!atA) == s.At(!atA)
      && AnswersFor(s.At(atA).view, Poll(s.At(atA).e.conn, a), stored, spare, a, s'.At(atA).view)
    case _ =>
      s'.a.view == s.a.view && s'.b.view == s.b.view
  }

  /** The engines' step without the conditions on the callback's answer. */
  ghost predicate Moves(s: System, ev: Event, s': System) {
    match ev
    case Arrival(atA, p, a, rtt) =>
      var e := s.At(atA);
      && e.live && !e.conn.IsClosed() && p in s.net && p.fromA == !atA
      && s' == s.With(atA, Receive(e, p.seg, a, rtt), Input(e.conn, p.seg, a, rtt).out)
    case Timeout(atA, a) =>
      s.At(atA).live && s' == s.With(atA, Ticked(s.At(atA), a), Tick(s.At(atA).conn, a).out)
    case _ =>
      Next(s, ev, s')
  }

  /** What the user's calls do to an attached connection. */
  ghost predicate WriteView(v: View, v': View, data: seq<byte>) {
    !v.close && v' == v.(output := v'.output) && Wrote(v.output, v'.output, data)
  }

  /** A restart is asked for exactly if the read uses up a block while the connection is stopped. */
  ghost predicate ReadView(v: View, v': View, got: seq<byte>, stopped: bool) {
    && v' == v.(input := v'.input, restart := v'.restart)
    && Concat(v.input) == got + Concat(v'.input) && |v'.input| <= |v.input|
    && (v'.restart <==> v.restart || (stopped && !v.close && |v'.input| < |v.input|))
  }

  function StopView(v: View): View {
    v.(input := [], close := true)
  }

  ghost predicate Does(s: Hosts, act: Act, s': Hosts) {
    match act
    case Engine(ev, stored, spare) =>
      && Moves(s.Engines(), ev, s'.Engines()) && Serves(s, ev, stored, spare, s')
      && s'.a.written == s.a.written && s'.b.written == s.b.written
    case Write(atA, data) =>
      var h, h' := s.At(atA), s'.At(atA);
      && s.Changes(atA, s') && h'.written == h.written + data
      && h.view.Some? && h'.view.Some? && WriteView(h.view.value, h'.view.value, data)
    case Read(atA, got) =>
      var h, h' := s.At(atA), s'.At(atA);
      && s.Changes(atA, s') && h'.written == h.written
      && h.view.Some? && h'.view.Some? && ReadView(h.view.value, h'.view.value, got, h.e.conn.stopped)
    case Stop(atA) =>
      var h, h' := s.At(atA), s'.At(atA);
      && s.Changes(atA, s') && h'.written == h.written
      && h.view.Some? && h'.view == Some(StopView(h.view.value))
  }

  ghost predicate Starts(s: Hosts) {
    && Initial(s.Engines())
    && s.a.view == None && s.a.written == [] && s.b.view == None && s.b.written == []
  }

  ghost predicate HostsInv(s: Hosts) {
    && Inv(s.Engines()) && HostOk(s.a) && HostOk(s.b)
    && forall p :: p in s.net ==> Framed(p.seg)
  }

  /** The socket layer's answers meet the engine's conditions, so an engine step is one of the network's. */
  lemma ServedStep(s: Hosts, ev: Event, stored: bool, spare: Option<nat>, s': Hosts)
    requires HostsInv(s) && Does(s, Engine(ev, stored, spare), s')
    ensures Next(s.Engines(), ev, s'.Engines()) && HostOk(s'.a) && HostOk(s'.b)
  {
    hide HostOk, AnswersFor, SenderOk, ReceiverOk, PacketOk, Faithful, Meek;
    hide Input, Tick, Poll, Receive, Ticked, Polled, Accept, Connect, Refusal;
    match ev {
      case Arrival(atA, p, a, rtt) =>
        ReceiveHost(s.At(atA), p.seg, a, rtt, stored, spare, s'.At(atA).view);
        assert s'.At(atA) == Host(Receive(s.At(atA).e, p.seg, a, rtt), s'.At(atA).view, s.At(atA).written);
      case Timeout(atA, a) =>
        TickHost(s.At(atA), a, stored, spare, s'.At(atA).view);
        assert s'.At(atA) == Host(Ticked(s.At(atA).e, a), s'.At(atA).view, s.At(atA).written);
      case PollAt(atA, a) =>
        PollHost(s.At(atA), a, stored, spare, s'.At(atA).view);
        assert s'.At(atA) == Host(Polled(s.At(atA).e, a), s'.At(atA).view, s.At(atA).written);
      case ActiveOpen =>
        OpenHost(s.a, s'.a);
        assert s'.b == s.b;
      case PassiveOpen(p) =>
        AcceptHost(s.b, p.seg, s'.b);
        assert s'.a == s.a;
      case Refused(atA, p) =>
        assert s'.a == s.a && s'.b == s.b;
    }
  }

  lemma OpenHost(h: Host, h': Host)
    requires HostOk(h) && !h.e.live && h'.written == h.written && h'.view == h.view
    requires h'.e == h.e.(live := true, conn := Connect(h.e.conn, h.e.iss))
    ensures HostOk(h')
  {
  }

  lemma AcceptHost(h: Host, s: Segment, h': Host)
    requires HostOk(h) && !h.e.live && h'.written == h.written && h'.view == h.view && Framed(s) && s.OnlySyn()
    requires h'.e == Accepted(h.e, s)
    ensures HostOk(h')
  {
  }

  lemma StepFramed(s: Hosts, ev: Event, s': Hosts)
    requires Next(s.Engines(), ev, s'.Engines())
    requires forall p :: p in s.net ==> Framed(p.seg)
    ensures forall p :: p in s'.net ==> Framed(p.seg)
  {
    hide Framed, Input, Tick, Poll, Receive, Ticked, Polled, Accept, Connect, Refusal, Faithful, Meek;
    match ev {
      case Arrival(atA, p, a, rtt) => InputFramed(s.At(atA).e.conn, p.seg, a, rtt);
      case Timeout(atA, a) => TickFramed(s.At(atA).e.conn, a);
      case PollAt(atA, a) => TickFramed(s.At(atA).e.conn, a);
      case ActiveOpen =>
      case PassiveOpen(p) => OpenFramed(s.b.e.conn, p.seg, s.b.e.iss);
      case Refused(atA, p) => OpenFramed(s.b.e.conn, p.seg, 0);
    }
  }

  lemma WriteHost(h: Host, h': Host, data: seq<byte>)
    requires HostOk(h) && h'.e == h.e && h'.written == h.written + data && h.view.Some? && h'.view.Some?
    requires h'.view.value == h.view.value.(output := h'.view.value.output)
    requires Wrote(h.view.value.output, h'.view.value.output, data)
    ensures HostOk(h')
  {
    hide QueueOf, Wrote;
    assert h'.view.value.output.Ok() by { WroteOk(h.view.value.output, h'.view.value.output, data); }
    if h.e.conn.state == Established {
      WrittenQueue(h.e.conn.len, h.e.submitted, h.view.value.output, h.written, h'.view.value.output, data);
    }
  }

  lemma WroteOk(o: OutQueue, o': OutQueue, data: seq<byte>)
    requires Wrote(o, o', data)
    ensures o'.Ok()
  {
  }

  /** The user's calls leave engines and network alone, and keep what holds between queue and engine. */
  lemma UserStep(s: Hosts, act: Act, s': Hosts)
    requires HostsInv(s) && Does(s, act, s') && !act.Engine?
    ensures HostsInv(s') && s'.Engines() == s.Engines()
  {
    hide Inv, Framed, QueueOf, Wrote;
    if act.Write? {
      hide HostOk;
      WriteHost(s.At(act.atA), s'.At(act.atA), act.data);
    }
  }

  ghost predicate HostRun(states: seq<Hosts>, acts: seq<Act>) {
    && |states| == |acts| + 1 && Starts(states[0])
    && forall i :: 0 <= i < |acts| ==> ActHappens(states, acts, i)
  }

  ghost predicate ActHappens(states: seq<Hosts>, acts: seq<Act>, i: nat)
    requires i < |acts| && |states| == |acts| + 1
  {
    Does(states[i], acts[i], states[i + 1]) && Short(states[i + 1].Engines())
  }

  lemma {:induction false} HostRunKeeps(states: seq<Hosts>, acts: seq<Act>, i: nat)
    requires HostRun(states, acts) && i < |states|
    ensures HostsInv(states[i])
  {
    hide Inv, HostOk, Framed, Does, Next;
    if i == 0 {
      InitialInv(states[0].Engines());
      StartsOk(states[0]);
    } else {
      HostRunKeeps(states, acts, i - 1);
      assert ActHappens(states, acts, i - 1);
      var s, act, s' := states[i - 1], acts[i - 1], states[i];
      if act.Engine? {
        ServedStep(s, act.ev, act.stored, act.spare, s');
        NextKeeps(s.Engines(), act.ev, s'.Engines());
        StepFramed(s, act.ev, s');
      } else {
        UserStep(s, act, s');
      }
    }
  }

  lemma StartsOk(s: Hosts)
    requires Starts(s)
    ensures HostOk(s.a) && HostOk(s.b) && s.net == {}
  {
    assert s.Engines().At(true) == s.a.e && s.Engines().At(false) == s.b.e;
  }

  /**
   In every state of every run of two hosts, whatever the network does: the
   bytes handed up on one host are the first ones written on the other.
   */
  lemma WrittenIsDelivered(states: seq<Hosts>, acts: seq<Act>, i: nat)
    requires HostRun(states, acts) && i < |states|
    ensures states[i].b.e.handed <= states[i].a.written
    ensures states[i].a.e.handed <= states[i].b.written
  {
    hide QueueOf;
    HostRunKeeps(states, acts, i);
  }

  /** With data outstanding, the first block of the queue is the segment in flight, whole. */
  lemma FirstBlockInFlight(states: seq<Hosts>, acts: seq<Act>, i: nat, atA: bool)
    requires HostRun(states, acts) && i < |states|
    requires var h := states[i].At(atA); h.e.live && h.e.conn.state == Established && h.e.conn.len > 0
    ensures var h := states[i].At(atA);
      && h.view.Some? && h.view.value.output.blocks != []
      && |h.view.value.output.blocks[0]| == h.e.conn.len <= |h.e.submitted|
      && h.e.submitted[|h.e.submitted| - |h.view.value.output.blocks[0]|..] == h.view.value.output.blocks[0]
  {
    hide HostsInv, HostRun, HostOk, SenderOk, ReceiverOk;
    HostRunKeeps(states, acts, i);
    EndOk(states[i], atA);
    InFlight(states[i].At(atA));
  }

  lemma InFlight(h: Host)
    requires HostReady(h) && h.e.conn.state == Established && h.e.conn.len > 0
    ensures h.view.Some? && h.view.value.output.blocks != []
    ensures |h.view.value.output.blocks[0]| == h.e.conn.len <= |h.e.submitted|
    ensures h.e.submitted[|h.e.submitted| - h.e.conn.len..] == h.view.value.output.blocks[0]
  {
    CallingNow(h, NONE);
  }

  lemma EndOk(s: Hosts, atA: bool)
    requires HostsInv(s)
    ensures HostOk(s.At(atA)) && SenderOk(s.At(atA).e) && ReceiverOk(s.At(!atA).e, s.At(atA).e)
  {
  }

  /**
   A local close sends its FIN only after every byte ever written has been acknowledged,
   and so accepted by the peer.
   */
  lemma CloseAfterAll(states: seq<Hosts>, acts: seq<Act>, i: nat, atA: bool)
    requires HostRun(states, acts) && i < |states|
    requires var c := states[i].At(atA).e.conn;
      c.state == FinWait1 || c.state == FinWait2 || c.state == Closing || c.state == TimeWait
    ensures var e := states[i].At(atA).e; e.una >= 1 + |states[i].At(atA).written|
    ensures var peer := states[i].At(!atA).e;
      && peer.rcvd >= 1 + |states[i].At(atA).written|
      && (peer.conn.state == Established ==> peer.handed == states[i].At(atA).written)
  {
    hide QueueOf;
    HostRunKeeps(states, acts, i);
  }

  // ----- what retransmissions carry

  /**
   Over every run of two hosts, every retransmission carries the bytes of the first
   transmission, writes in between or not.
   */
  lemma {:induction false} HostsSameBytes(states: seq<Hosts>, acts: seq<Act>, i: nat)
    requires HostRun(states, acts) && i < |states|
    ensures Agree(states[i].net)
  {
    hide Inv, HostOk, Framed, Does, Next, Agree;
    if i == 0 {
      StartsAgree(states[0]);
    } else {
      HostsSameBytes(states, acts, i - 1);
      HostRunKeeps(states, acts, i - 1);
      HostRunKeeps(states, acts, i);
      assert ActHappens(states, acts, i - 1);
      var s, act, s' := states[i - 1], acts[i - 1], states[i];
      if act.Engine? {
        ServedStep(s, act.ev, act.stored, act.spare, s');
        NextAgrees(s.Engines(), act.ev, s'.Engines());
      } else {
        UserStep(s, act, s');
      }
    }
  }

  lemma StartsAgree(s: Hosts)
    requires Starts(s)
    ensures Agree(s.net)
  {
  }

  // ----- what goes out

  /** Only a poll or a retransmission makes the callback hand out a chunk, and then it does not close. */
  lemma ChunkAsked(view: Option<View>, step: Step, f: AppFlags, stored: bool, spare: Option<nat>, a: Answer,
                   view': Option<View>)
    requires AnswersFor(view, step, stored, spare, a, view') && step.call == Some(f) && a.data != [] && !f.acked
    ensures (f.poll || f.rexmit) && !Leaves(f) && a.verdict == GoOn
    ensures !f.connected ==> view.Some? && view.value.output.Ok()
    ensures !f.connected ==> view.value.output.Ready() > 0 && a.data == view.value.output.Chunk()
  {
  }

  lemma NoChunk(view: Option<View>, step: Step, stored: bool, spare: Option<nat>, a: Answer, view': Option<View>)
    requires AnswersFor(view, step, stored, spare, a, view')
    requires step.call.Some? ==> !step.call.value.poll && !step.call.value.rexmit
    ensures a.data == []
  {
  }

  lemma InputNoPoll(c: Conn, s: Segment, a: Answer, rtt: byte)
    ensures var call := Input(c, s, a, rtt).call; call.Some? ==> !call.value.poll && !call.value.rexmit
  {
    hide Make, Payload, Add32, Acks, OutOfOrder, Emit;
  }

  lemma PollGoesOut(h: Host, a: Answer, stored: bool, spare: Option<nat>, view': Option<View>)
    requires HostReady(h) && h.e.conn.state == Established && h.e.conn.len == 0 && a.data != []
    requires AnswersFor(h.view, AppSend(h.e.conn, NONE.(poll := true), a, []), stored, spare, a, view')
    ensures var out := AppSend(h.e.conn, NONE.(poll := true), a, []).out; out.Some? && out.value.data == a.data
  {
    hide HostOk, SenderOk, QueueOf, AnswersFor;
    var f := NONE.(poll := true);
    CallingNow(h, f);
    AppSendCalls(h.e.conn, f, a, []);
    ChunkAsked(h.view, AppSend(h.e.conn, f, a, []), f, stored, spare, a, view');
    SentQueue(0, h.e.submitted, h.view.value.output, h.written);
    assert a.data[..|a.data|] == a.data;
  }

  lemma ResendGoesOut(h: Host, a: Answer, stored: bool, spare: Option<nat>, view': Option<View>)
    requires HostReady(h) && h.e.conn.state == Established && h.e.conn.len > 0 && a.data != []
    requires h.e.conn.timer == 0 && !GivesUp(h.e.conn)
    requires AnswersFor(h.view, Tick(h.e.conn, a), stored, spare, a, view')
    ensures Tick(h.e.conn, a).out.Some? && Tick(h.e.conn, a).out.value.data == a.data
  {
    hide HostOk, SenderOk, QueueOf, AnswersFor;
    var f := NONE.(rexmit := true);
    CallingNow(h, f);
    ChunkAsked(h.view, Tick(h.e.conn, a), f, stored, spare, a, view');
    ResentQueue(h.e.conn.len, h.e.submitted, h.view.value.output, h.written);
    InFlight(h);
    assert a.data[..|a.data|] == a.data;
  }

  /** A chunk the callback hands out is always sent, whole: no send block stays behind marked as due. */
  lemma ChunkGoesOut(h: Host, step: Step, s: Segment, a: Answer, rtt: byte, stored: bool, spare: Option<nat>,
                     view': Option<View>)
    requires HostReady(h) && AnswersFor(h.view, step, stored, spare, a, view') && a.data != []
    requires step == Tick(h.e.conn, a) || step == Poll(h.e.conn, a) || step == Input(h.e.conn, s, a, rtt)
    ensures step.out.Some? && step.out.value.data == a.data
  {
    hide HostReady, AnswersFor, Input, GivesUp, Make, AppSend;
    var c := h.e.conn;
    AppSendCalls(c, NONE.(poll := true), a, []);
    if step == Input(c, s, a, rtt) {
      InputNoPoll(c, s, a, rtt);
      NoChunk(h.view, step, stored, spare, a, view');
    } else if c.state == Established && c.len == 0 {
      PollGoesOut(h, a, stored, spare, view');
    } else if step == Tick(c, a) && c.state == Established && c.timer == 0 && !GivesUp(c) {
      ResendGoesOut(h, a, stored, spare, view');
    } else {
      NoChunk(h.view, step, stored, spare, a, view');
    }
  }

  // ----- what the timers rely on

  /** Past the established state the callback has no user data left to answer for. */
  lemma AnswerKind(h: Host, step: Step, stored: bool, spare: Option<nat>, a: Answer, view': Option<View>)
    requires HostReady(h) && AnswersFor(h.view, step, stored, spare, a, view')
    requires step.call.Some? && step.call.value.closed ==> !step.call.value.connected && h.e.conn.state != Closed
    ensures Kind(h.e.conn, step.call, a)
  {
    hide QueueOf, SenderOk, ClientAnswer, AppNext, AppReply;
  }

  lemma InputFlags(c: Conn, s: Segment, a: Answer, rtt: byte)
    ensures var call := Input(c, s, a, rtt).call;
      call.Some? && call.value.closed ==> !call.value.connected && c.state != Closed
  {
    hide Make, Payload, Add32, Acks, OutOfOrder, Emit;
  }

  /** A live connection's step keeps what the timers rely on. */
  lemma ServedSane(s: Hosts, ev: Event, stored: bool, spare: Option<nat>, s': Hosts, atA: bool)
    requires HostsInv(s) && Does(s, Engine(ev, stored, spare), s')
    requires s.At(atA).e.live ==> Sane(s.At(atA).e.conn)
    ensures s'.At(atA).e.live ==> Sane(s'.At(atA).e.conn)
  {
    hide HostOk, AnswersFor, SenderOk, ReceiverOk, PacketOk, Faithful, Meek, Kind, Sane;
    hide Input, Tick, Poll, Accept, Connect, Refusal;
    var h, c := s.At(atA), s.At(atA).e.conn;
    assert HostOk(h) && SenderOk(h.e) by { EndOk(s, atA); }
    match ev {
      case Arrival(at, p, a, rtt) =>
        if at == atA {
          InputFlags(c, p.seg, a, rtt);
          AnswerKind(h, Input(c, p.seg, a, rtt), stored, spare, a, s'.At(at).view);
          InputSane(c, p.seg, a, rtt);
        }
      case Timeout(at, a) =>
        if at == atA { TickSane(c, a); }
      case PollAt(at, a) =>
        if at == atA { TickSane(c, a); }
      case ActiveOpen =>
        ConnectSane(c, s.a.e.iss);
      case PassiveOpen(p) =>
        AcceptSane(c, p.seg, s.b.e.iss);
      case Refused(at, p) =>
    }
  }

  /**
   Over every run of two hosts a live connection is as the timers need it, so that every
   wait ends as `ClosesExactly` says.
   */
  lemma {:induction false} HostRunSane(states: seq<Hosts>, acts: seq<Act>, i: nat, atA: bool)
    requires HostRun(states, acts) && i < |states|
    ensures states[i].At(atA).e.live ==> Sane(states[i].At(atA).e.conn)
  {
    hide Inv, HostOk, Framed, Does, Next, Sane;
    if i == 0 {
      assert states[0].Engines().At(atA) == states[0].At(atA).e;
    } else {
      HostRunSane(states, acts, i - 1, atA);
      HostRunKeeps(states, acts, i - 1);
      assert ActHappens(states, acts, i - 1);
      var s, act, s' := states[i - 1], acts[i - 1], states[i];
      if act.Engine? {
        ServedSane(s, act.ev, act.stored, act.spare, s', atA);
      } else {
        UserStep(s, act, s');
        assert s'.Engines().At(atA) == s.Engines().At(atA);
      }
    }
  }
}
