/**
 Two endpoints over a network that loses, duplicates and reorders segments:
 what one application is handed is always a prefix of what the other submitted.
 */
module TcpNetwork {
  import opened Machine
  import opened Sequence
  import opened Callback
  import opened TcpEngine

  /**
   An endpoint with its history. Its stream numbers the SYN 0, the submitted bytes
   from 1 on and the FIN last; `una` of them are acknowledged, `rcvd` of the peer's accepted.
   */
  datatype End = End(
    conn: Conn, live: bool, active: bool, iss: u32,
    una: nat, submitted: seq<byte>, rcvd: nat, handed: seq<byte>)
  {
    function Sent(): nat {
      if live then una + conn.len else una
    }
  }

  /** A segment on the network, with the stream positions its numbers stand for. */
  datatype Packet = Packet(fromA: bool, seg: Segment, off: nat, acked: nat)

  // ----- one endpoint's steps

  /** How many stream numbers of the peer the segment makes the connection accept. */
  function Progress(c: Conn, s: Segment): nat {
    if s.rst || OutOfOrder(c, s) then 0
    else match c.state
      case SynRcvd => if Acks(c, s) then |s.data| else 0
      case SynSent => if Acks(c, s) && s.OnlySynAck() then 1 else 0
      case Established =>
        if s.fin && !c.stopped then (if c.len > 0 && !Acks(c, s) then 0 else 1 + |s.data|)
        else if c.stopped then 0 else |s.data|
      case FinWait1 => |s.data| + if s.fin then 1 else 0
      case FinWait2 => |s.data| + if s.fin then 1 else 0
      case _ => 0
  }

  function After(e: End, step: Step, acked: nat, progress: nat): End {
    e.(conn := step.conn, una := e.una + acked, submitted := e.submitted + step.taken,
       rcvd := e.rcvd + progress, handed := e.handed + step.handed)
  }

  function Receive(e: End, s: Segment, a: Answer, rtt: byte): End {
    After(e, Input(e.conn, s, a, rtt), if !s.rst && !OutOfOrder(e.conn, s) && Acks(e.conn, s) then e.conn.len else 0,
          Progress(e.conn, s))
  }

  // ----- the invariant

  /** The connection's state agrees with the history of what it sent. */
  ghost predicate SenderOk(e: End) {
    && |e.submitted| + 2 < MODULUS
    && (e.una == 0 ==> e.submitted == [] && e.Sent() <= 1)
    && (!e.live ==> e.conn.IsClosed() && e.una == 0 && e.rcvd == 0 && e.handed == [])
    && (e.live ==>
          && e.conn.sndNxt == Wrap(e.iss + e.una) && e.Sent() <= |e.submitted| + 2
          && (e.conn.state == Closed && e.conn.stopped ==> e.rcvd >= 1)
          && (e.conn.state == SynSent || e.conn.state == SynRcvd ==> e.una == 0 && e.conn.len == 1)
          && (e.conn.state == Established ==> e.una >= 1 && e.Sent() == 1 + |e.submitted|)
          && (e.conn.state == FinWait1 || e.conn.state == Closing || e.conn.state == LastAck ==>
                e.una == 1 + |e.submitted| && e.conn.len == 1)
          && (e.conn.state == FinWait2 || e.conn.state == TimeWait ==> e.una == 2 + |e.submitted| && e.conn.len == 0)
          && (e.conn.state == SynSent ==> e.active && e.rcvd == 0)
          && (e.conn.state == SynRcvd ==> !e.active)
          && (e.conn.state != SynSent && e.conn.state != Closed ==> e.rcvd >= 1))
  }

  /** Stop and wait: the peer has accepted all of what is sent, or all but the outstanding segment. */
  ghost predicate InStep(e: End, peer: End) {
    peer.rcvd == e.una || peer.rcvd == e.Sent()
  }

  /** What the endpoint accepted is the start of its peer's stream. */
  ghost predicate ReceiverOk(e: End, peer: End) {
    && InStep(peer, e)
    && (e.rcvd >= 1 ==> e.live && e.conn.rcvNxt == Wrap(peer.iss + e.rcvd))
    && e.handed <= peer.submitted
    && (e.conn.state == SynRcvd || e.conn.state == Established ==> |e.handed| == e.rcvd - 1)
    && (e.conn.state == SynSent ==> e.handed == [])
  }

  /** A segment says nothing that its sender's stream does not bear out. */
  ghost predicate PacketOk(p: Packet, e: End, peer: End) {
    var s := p.seg;
    s.rst ||
      (&& s.seqno == Wrap(e.iss + p.off) && p.off <= e.una
       && (s.ack ==> s.ackno == Wrap(peer.iss + p.acked) && p.acked <= e.rcvd)
       && (s.data != [] ==>
             && 1 <= p.off && p.off - 1 + |s.data| <= |e.submitted|
             && (p.off + |s.data| <= e.una || (p.off == e.una && p.off + |s.data| == e.Sent()))
             && s.data == e.submitted[p.off - 1..p.off - 1 + |s.data|] && !s.syn && !s.fin)
       && (s.fin ==> p.off == 1 + |e.submitted| && 2 + |e.submitted| <= e.Sent() && !s.syn)
       && (s.syn ==> p.off == 0 && 1 <= e.Sent() && s.ack == !e.active && !s.psh))
  }

  /** What a step of one endpoint owes the rest: its own consistency, and that nothing already said is taken back. */
  ghost predicate Evolves(e: End, e': End, peer: End, out: Option<Segment>) {
    && e'.iss == e.iss && e'.active == e.active && (e.live ==> e'.live)
    && e.una <= e'.una && InStep(e', peer) && e.Sent() <= e'.Sent() && e.rcvd <= e'.rcvd
    && (e'.una == e.una ==> e'.Sent() == e.Sent() || e.Sent() == e.una)
    && (e'.una != e.una ==> e.Sent() <= e'.una)
    && e.submitted <= e'.submitted && (e.Sent() == 2 + |e.submitted| ==> e'.submitted == e.submitted)
    && SenderOk(e') && ReceiverOk(e', peer)
    && (out.Some? ==> PacketOk(Packet(true, out.value, e'.una, e'.rcvd), e', peer))
  }

  // ----- segments an endpoint may send

  lemma AckOk(e: End, peer: End)
    requires SenderOk(e) && ReceiverOk(e, peer) && e.live && e.rcvd >= 1
    ensures PacketOk(Packet(true, PureAck(e.conn), e.una, e.rcvd), e, peer)
  {
  }

  lemma FinOk(e: End, peer: End)
    requires SenderOk(e) && ReceiverOk(e, peer) && e.live && e.rcvd >= 1
    requires e.conn.state == FinWait1 || e.conn.state == Closing || e.conn.state == LastAck
    ensures PacketOk(Packet(true, FinAck(e.conn), e.una, e.rcvd), e, peer)
  {
  }

  lemma DataOk(e: End, peer: End, data: seq<byte>)
    requires SenderOk(e) && ReceiverOk(e, peer) && e.live && e.conn.state == Established
    requires 0 < e.conn.len <= |e.submitted| && Payload(data, e.conn.len) == e.submitted[|e.submitted| - e.conn.len..]
    ensures PacketOk(Packet(true, Data(e.conn, data), e.una, e.rcvd), e, peer)
  {
    var n := e.conn.len;
    assert e.una - 1 == |e.submitted| - n;
    assert e.submitted[e.una - 1..e.una - 1 + n] == e.submitted[|e.submitted| - n..];
  }

  lemma EmitOk(e: End, peer: End, a: Answer, newdata: bool)
    requires SenderOk(e) && ReceiverOk(e, peer) && e.live && e.conn.state == Established
    requires e.conn.len <= |e.submitted|
    requires |a.data| > 0 && e.conn.len > 0 ==> Payload(a.data, e.conn.len) == e.submitted[|e.submitted| - e.conn.len..]
    ensures var out := Emit(e.conn, a, newdata);
      out.Some? ==> PacketOk(Packet(true, out.value, e.una, e.rcvd), e, peer)
  {
    if |a.data| > 0 && e.conn.len > 0 { DataOk(e, peer, a.data); } else { AckOk(e, peer); }
  }

  // ----- steps without a segment

  ghost predicate CallReady(e: End, peer: End, a: Answer) {
    && SenderOk(e) && ReceiverOk(e, peer) && InStep(e, peer) && e.live && e.conn.state == Established
    && Faithful(e.conn, e.submitted, a)
  }

  function AppSent(e: End, f: AppFlags, a: Answer): End {
    var step := AppSend(e.conn, f, a, []);
    e.(conn := step.conn, submitted := e.submitted + step.taken)
  }

  lemma AppSendState(e: End, peer: End, f: AppFlags, a: Answer)
    requires CallReady(e, peer, a) && |AppSent(e, f, a).submitted| + 2 < MODULUS
    ensures var e' := AppSent(e, f, a);
      && SenderOk(e') && ReceiverOk(e', peer) && e.Sent() <= e'.Sent()
      && (a.verdict == GoOn ==> e'.conn.state == Established)
      && (a.verdict == Shut ==> e'.conn.state == FinWait1)
  {
    hide Wrap, Make, Emit;
  }

  /** An endpoint all of whose data are acknowledged takes on new ones; one with data outstanding keeps them. */
  lemma AppSendEvolves(e: End, peer: End, f: AppFlags, a: Answer, got: seq<byte>)
    requires CallReady(e, peer, a) && |AppSent(e, f, a).submitted| + 2 < MODULUS
    ensures AppSend(e.conn, f, a, got) == AppSend(e.conn, f, a, []).(handed := got)
    ensures Evolves(e, AppSent(e, f, a), peer, AppSend(e.conn, f, a, got).out)
  {
    hide PacketOk, SenderOk, ReceiverOk, Wrap, Make, Emit;
    AppSendState(e, peer, f, a);
    AppSendPacket(e, peer, f, a);
    assert e.una >= 1 && e.Sent() == 1 + |e.submitted| by { EstablishedSent(e); }
  }

  lemma EstablishedSent(e: End)
    requires SenderOk(e) && e.live && e.conn.state == Established
    ensures e.una >= 1 && e.Sent() == 1 + |e.submitted| && e.rcvd >= 1
  {
  }

  lemma AppSendPacket(e: End, peer: End, f: AppFlags, a: Answer)
    requires CallReady(e, peer, a)
    requires var e' := AppSent(e, f, a); SenderOk(e') && ReceiverOk(e', peer)
    ensures var e', out := AppSent(e, f, a), AppSend(e.conn, f, a, []).out;
      out.Some? ==> PacketOk(Packet(true, out.value, e'.una, e'.rcvd), e', peer)
  {
    hide PacketOk, SenderOk, ReceiverOk, Wrap, Make, Emit;
    EstablishedSent(e);
    var e' := AppSent(e, f, a);
    match a.verdict {
      case Abort =>
        var c' := Flowed(e.conn, a).(state := Closed, stopped := false);
        RstAckResets(c');
        ResetOk(e', peer, RstAck(c'));
      case Shut => FinOk(e', peer);
      case GoOn =>
        if e.conn.len == 0 {
          var n := Min(|a.data|, e.conn.mss);
          assert e'.submitted[|e'.submitted| - n..] == a.data[..n];
        } else {
          assert e'.submitted == e.submitted;
        }
        EmitOk(e', peer, a, f.newdata);
    }
  }

  lemma RstAckResets(c: Conn)
    ensures RstAck(c).rst
  {
  }

  lemma ResetOk(e: End, peer: End, s: Segment)
    requires s.rst
    ensures PacketOk(Packet(true, s, e.una, e.rcvd), e, peer)
  {
  }

  ghost predicate Ready(e: End, peer: End) {
    SenderOk(e) && ReceiverOk(e, peer) && InStep(e, peer) && e.live
  }

  function Ticked(e: End, a: Answer): End {
    After(e, Tick(e.conn, a), 0, 0)
  }

  function Polled(e: End, a: Answer): End {
    After(e, Poll(e.conn, a), 0, 0)
  }

  /** A change of timers, of the state to closed, or of the stopped flag while established. */
  lemma IdleEvolves(e: End, peer: End, c: Conn)
    requires Ready(e, peer)
    requires c == e.conn.(timer := c.timer, nrtx := c.nrtx, rto := c.rto, mss := c.mss, initialmss := c.initialmss,
                          stopped := c.stopped, state := c.state)
    requires c.state == e.conn.state || c.state == Closed
    requires c.state == Closed && c.stopped ==> e.rcvd >= 1
    ensures Evolves(e, e.(conn := c), peer, None) && Ready(e.(conn := c), peer)
  {
  }

  lemma TickEvolves(e: End, peer: End, a: Answer)
    requires Ready(e, peer) && Meek(e.conn, Tick(e.conn, a).call, a) && Faithful(e.conn, e.submitted, a)
    requires |Ticked(e, a).submitted| + 2 < MODULUS
    ensures Evolves(e, Ticked(e, a), peer, Tick(e.conn, a).out)
  {
    hide PacketOk, Wrap, Make, SenderOk, ReceiverOk, AppSend, Emit;
    var step := Tick(e.conn, a);
    StateFacts(e);
    if e.conn.state == Established && e.conn.len == 0 {
      AppSendEvolves(e, peer, NONE.(poll := true), a, []);
      assert Ticked(e, a) == AppSent(e, NONE.(poll := true), a);
    } else {
      assert step.taken == [] && step.handed == [];
      assert e.submitted + [] == e.submitted && e.handed + [] == e.handed;
      assert Ticked(e, a) == e.(conn := step.conn);
      IdleEvolves(e, peer, step.conn);
      if step.out.Some? { ResendOk(e, peer, a); }
    }
  }

  lemma StateFacts(e: End)
    requires SenderOk(e) && e.live
    ensures e.conn.state == Closed && e.conn.stopped ==> e.rcvd >= 1
    ensures e.conn.state == Established ==> e.conn.len <= |e.submitted| && e.rcvd >= 1
    ensures e.conn.state == SynSent || e.conn.state == SynRcvd ==> e.una == 0 && e.conn.len == 1
    ensures e.conn.state == SynSent ==> e.rcvd == 0
    ensures e.conn.state != SynSent && e.conn.state != Closed ==> e.rcvd >= 1
  {
  }

  /** What the timer sends again is still true. */
  lemma ResendOk(e: End, peer: End, a: Answer)
    requires Ready(e, peer) && Faithful(e.conn, e.submitted, a) && Tick(e.conn, a).out.Some?
    requires e.conn.state == Established ==> e.conn.len > 0
    requires Ready(e.(conn := Tick(e.conn, a).conn), peer)
    ensures PacketOk(Packet(true, Tick(e.conn, a).out.value, e.una, e.rcvd), e.(conn := Tick(e.conn, a).conn), peer)
  {
    hide PacketOk, Wrap, Make, SenderOk, ReceiverOk, Emit, SynAck, Syn, RstAck;
    StateFacts(e);
    var e' := e.(conn := Tick(e.conn, a).conn);
    if GivesUp(e.conn) {
      RstAckResets(e'.conn);
      ResetOk(e', peer, RstAck(e'.conn));
    } else if e.conn.state == Established {
      EmitOk(e', peer, a, false);
    } else if e.conn.state == SynSent || e.conn.state == SynRcvd {
      SynOk(e', peer);
    } else {
      FinOk(e', peer);
    }
  }

  lemma SynOk(e: End, peer: End)
    requires SenderOk(e) && ReceiverOk(e, peer) && e.live && (e.conn.state == SynSent || e.conn.state == SynRcvd)
    ensures var out := if e.conn.state == SynSent then Syn(e.conn) else SynAck(e.conn);
      PacketOk(Packet(true, out, e.una, e.rcvd), e, peer)
  {
  }

  lemma PollEvolves(e: End, peer: End, a: Answer)
    requires Ready(e, peer) && |Polled(e, a).submitted| + 2 < MODULUS
    ensures Evolves(e, Polled(e, a), peer, Poll(e.conn, a).out)
  {
    hide PacketOk, Wrap, Make, SenderOk, ReceiverOk, AppSend, Emit;
    StateFacts(e);
    if e.conn.state == Established && e.conn.len == 0 {
      AppSendEvolves(e, peer, NONE.(poll := true), a, []);
      assert Polled(e, a) == AppSent(e, NONE.(poll := true), a);
    } else {
      assert e.submitted + [] == e.submitted && e.handed + [] == e.handed;
      IdleEvolves(e, peer, e.conn);
    }
  }

  // ----- steps on a segment of the peer

  /** The segment is one the peer may have sent, and it is the one the connection now looks at. */
  ghost predicate Arrives(e: End, peer: End, p: Packet) {
    Ready(e, peer) && SenderOk(peer) && PacketOk(p, peer, e)
  }

  /** An accepted acknowledgement is of everything sent, and everything sent has been received. */
  lemma AckSound(e: End, peer: End, p: Packet)
    requires Arrives(e, peer, p) && ReceiverOk(peer, e) && !p.seg.rst && Acks(e.conn, p.seg)
    ensures peer.rcvd == e.Sent()
  {
    hide Wrap, Add32;
    SentBound(e);
    AddWrap(e.iss + e.una, e.conn.len);
    WrapInjective(e.iss, p.acked, e.una + e.conn.len);
  }

  /** A segment that is not out of order continues the accepted part of the peer's stream. */
  lemma SeqSound(e: End, peer: End, p: Packet)
    requires Arrives(e, peer, p) && !p.seg.rst && !OutOfOrder(e.conn, p.seg) && e.rcvd >= 1
    requires e.conn.state != SynSent && (p.seg.data != [] || p.seg.syn || p.seg.fin)
    ensures p.off == e.rcvd && !p.seg.syn
    ensures p.seg.data != [] ==> !p.seg.fin && p.seg.data == peer.submitted[e.rcvd - 1..e.rcvd - 1 + |p.seg.data|]
    ensures p.seg.data != [] ==> e.rcvd - 1 + |p.seg.data| <= |peer.submitted| && e.rcvd + |p.seg.data| == peer.Sent()
    ensures p.seg.fin ==> e.rcvd == 1 + |peer.submitted| && e.rcvd + 1 == peer.Sent()
  {
    hide Wrap, Add32;
    SentBound(peer);
    WrapInjective(peer.iss, p.off, e.rcvd);
  }

  lemma SentBound(e: End)
    requires SenderOk(e)
    ensures e.una <= e.Sent() <= |e.submitted| + 2 < MODULUS
  {
  }

  /** Before the peer's SYN is accepted, it has sent nothing that could be taken for data, a FIN or a bare SYN. */
  lemma UnsyncedSound(e: End, peer: End, p: Packet)
    requires Arrives(e, peer, p) && !p.seg.rst && e.conn.state == SynSent && !peer.active
    ensures p.seg.data == [] && !p.seg.fin && (p.seg.syn ==> p.seg.OnlySynAck())
    ensures !OutOfOrder(e.conn, p.seg)
  {
  }

  lemma EvolvesTwice(e: End, e1: End, e2: End, peer: End, out: Option<Segment>)
    requires SenderOk(e1) && e1.live && Evolves(e, e1, peer, None) && Evolves(e1, e2, peer, out)
    ensures Evolves(e, e2, peer, out)
  {
    hide PacketOk, ReceiverOk;
  }

  /** Accepting a segment's data extends what was handed up by exactly the next bytes of the peer's stream. */
  lemma HandedGrows(e: End, peer: End, p: Packet)
    requires Arrives(e, peer, p) && !p.seg.rst && !OutOfOrder(e.conn, p.seg)
    requires e.conn.state == SynRcvd || e.conn.state == Established
    ensures e.handed + p.seg.data <= peer.submitted && |e.handed + p.seg.data| == e.rcvd - 1 + |p.seg.data|
    ensures p.seg.data != [] ==> e.rcvd + |p.seg.data| == peer.Sent()
  {
    if p.seg.data != [] {
      SeqSound(e, peer, p);
      assert e.handed == peer.submitted[..e.rcvd - 1];
    } else {
      assert e.handed + p.seg.data == e.handed;
    }
  }

  /** The connection before its callback: acknowledgement and data accepted, established or now becoming so. */
  function Before(e: End, s: Segment, rtt: byte): End {
    var c, n := Acked(e.conn, s, rtt), Progress(e.conn, s);
    var c' := c.(state := Established, stopped := e.conn.state == Established && c.stopped, mss := c.mss,
                 rcvNxt := if e.conn.state == SynSent then Add32(s.seqno, 1) else Add32(c.rcvNxt, n));
    e.(conn := c', una := e.una + if Acks(e.conn, s) then e.conn.len else 0,
       rcvd := e.rcvd + n, handed := e.handed + if n > 0 then s.data else [])
  }

  /** All a change of conversation state must keep, said without unfolding what is kept. */
  lemma BeforeEstablished(e: End, peer: End, p: Packet, rtt: byte)
    requires Arrives(e, peer, p) && ReceiverOk(peer, e) && !p.seg.rst && !OutOfOrder(e.conn, p.seg)
    requires e.conn.state == Established && (!p.seg.fin || e.conn.stopped)
    ensures Evolves(e, Before(e, p.seg, rtt), peer, None) && Ready(Before(e, p.seg, rtt), peer)
  {
    hide Wrap, Add32, PacketOk, Make;
    var e' := Before(e, p.seg, rtt);
    var n := Progress(e.conn, p.seg);
    if Acks(e.conn, p.seg) { AckSound(e, peer, p); AddWrap(e.iss + e.una, e.conn.len); }
    HandedGrows(e, peer, p);
    AddWrap(peer.iss + e.rcvd, n);
    assert n > 0 ==> n == |p.seg.data|;
    assert e.handed + [] == e.handed;
    assert ReceiverOk(e', peer);
    assert SenderOk(e');
  }

  lemma BeforeSynRcvd(e: End, peer: End, p: Packet, rtt: byte)
    requires Arrives(e, peer, p) && ReceiverOk(peer, e) && !p.seg.rst && !OutOfOrder(e.conn, p.seg)
    requires e.conn.state == SynRcvd && Acks(e.conn, p.seg)
    ensures Evolves(e, Before(e, p.seg, rtt), peer, None) && Ready(Before(e, p.seg, rtt), peer)
  {
    hide Wrap, Add32, PacketOk, Make;
    var e' := Before(e, p.seg, rtt);
    AckSound(e, peer, p);
    AddWrap(e.iss + e.una, e.conn.len);
    HandedGrows(e, peer, p);
    AddWrap(peer.iss + e.rcvd, |p.seg.data|);
    assert e.handed + [] == e.handed;
    assert ReceiverOk(e', peer);
    assert SenderOk(e');
  }

  lemma BeforeSynSent(e: End, peer: End, p: Packet, rtt: byte)
    requires Arrives(e, peer, p) && ReceiverOk(peer, e) && !p.seg.rst
    requires e.conn.state == SynSent && Acks(e.conn, p.seg) && p.seg.OnlySynAck()
    ensures Evolves(e, Before(e, p.seg, rtt), peer, None) && Ready(Before(e, p.seg, rtt), peer)
  {
    hide Wrap, Add32, PacketOk, Make;
    var e' := Before(e, p.seg, rtt);
    AckSound(e, peer, p);
    AddWrap(e.iss + e.una, e.conn.len);
    SynSeq(e, peer, p);
    assert ReceiverOk(e', peer);
    assert SenderOk(e');
  }

  lemma SynSeq(e: End, peer: End, p: Packet)
    requires Arrives(e, peer, p) && p.seg.syn && !p.seg.rst && e.rcvd == 0
    ensures Add32(p.seg.seqno, 1) == Wrap(peer.iss + 1) && p.seg.data == [] && peer.Sent() == 1
  {
    hide Wrap, Add32;
    AddWrap(peer.iss, 1);
    assert p.off == 0 && peer.iss + p.off == peer.iss;
    AddWrap(peer.iss + p.off, 1);
  }

  /** The callback's answer after `Before`, once the mss is settled. */
  lemma CalledEvolves(e: End, e1: End, peer: End, c: Conn, f: AppFlags, a: Answer, got: seq<byte>)
    requires Evolves(e, e1, peer, None) && Ready(e1, peer) && e1.conn.state == Established
    requires c == e1.conn.(mss := c.mss, initialmss := c.initialmss) && Faithful(c, e1.submitted, a)
    requires var step := AppSend(c, f, a, got); |e1.submitted + step.taken| + 2 < MODULUS
    ensures var step := AppSend(c, f, a, got);
      Evolves(e, e1.(conn := step.conn, submitted := e1.submitted + step.taken), peer, step.out)
  {
    hide PacketOk, SenderOk, ReceiverOk, Wrap, Make, Emit, AppSend;
    var e2 := e1.(conn := c);
    IdleEvolves(e1, peer, c);
    AppSendHands(c, f, a, got);
    AppSendEvolves(e2, peer, f, a, got);
    EvolvesTwice(e1, e2, AppSent(e2, f, a), peer, AppSend(c, f, a, got).out);
    EvolvesTwice(e, e1, AppSent(e2, f, a), peer, AppSend(c, f, a, got).out);
  }

  ghost predicate ReceiveOk(e: End, peer: End, p: Packet, a: Answer, rtt: byte) {
    && Arrives(e, peer, p) && ReceiverOk(peer, e) && peer.active == !e.active && !e.conn.IsClosed()
    && Meek(e.conn, Input(e.conn, p.seg, a, rtt).call, a)
    && Faithful(Acked(e.conn, p.seg, rtt), e.submitted, a)
    && |Receive(e, p.seg, a, rtt).submitted| + 2 < MODULUS
  }

  lemma EstablishedEvolves(e: End, peer: End, p: Packet, a: Answer, rtt: byte)
    requires ReceiveOk(e, peer, p, a, rtt) && !p.seg.rst && !OutOfOrder(e.conn, p.seg)
    requires e.conn.state == Established && (!p.seg.fin || e.conn.stopped)
    ensures Evolves(e, Receive(e, p.seg, a, rtt), peer, Input(e.conn, p.seg, a, rtt).out)
  {
    hide PacketOk, SenderOk, ReceiverOk, Wrap, Add32, Make, Emit, AppSend;
    BeforeEstablished(e, peer, p, rtt);
    var e1 := Before(e, p.seg, rtt);
    var c0, s := Acked(e.conn, p.seg, rtt), p.seg;
    var take := |s.data| > 0 && !c0.stopped;
    var c := e1.conn.(mss := if s.wnd > c0.initialmss || s.wnd == 0 then c0.initialmss else s.wnd);
    AddZero(c0.rcvNxt);
    if take || Acks(e.conn, s) {
      CalledEvolves(e, e1, peer, c, NONE.(acked := Acks(e.conn, s), newdata := take), a, if take then s.data else []);
      AppSendHands(c, NONE.(acked := Acks(e.conn, s), newdata := take), a, if take then s.data else []);
    } else {
      IdleEvolves(e1, peer, c);
      EvolvesTwice(e, e1, e1.(conn := c), peer, None);
      assert e.submitted + [] == e.submitted;
    }
  }

  lemma AppSendHands(c: Conn, f: AppFlags, a: Answer, got: seq<byte>)
    ensures AppSend(c, f, a, got) == AppSend(c, f, a, []).(handed := got)
  {
  }

  lemma OpeningEvolves(e: End, peer: End, p: Packet, a: Answer, rtt: byte)
    requires ReceiveOk(e, peer, p, a, rtt) && !p.seg.rst && !OutOfOrder(e.conn, p.seg) && Acks(e.conn, p.seg)
    requires e.conn.state == SynRcvd || (e.conn.state == SynSent && p.seg.OnlySynAck())
    ensures Evolves(e, Receive(e, p.seg, a, rtt), peer, Input(e.conn, p.seg, a, rtt).out)
  {
    hide PacketOk, SenderOk, ReceiverOk, Wrap, Add32, Make, Emit, AppSend;
    StateFacts(e);
    if e.conn.state == SynRcvd {
      BeforeSynRcvd(e, peer, p, rtt);
    } else {
      BeforeSynSent(e, peer, p, rtt);
      SynSeq(e, peer, p);
    }
    var e1, s := Before(e, p.seg, rtt), p.seg;
    var f := NONE.(connected := true, newdata := e.conn.state == SynSent || |s.data| > 0);
    var c := if e.conn.state == SynRcvd then e1.conn
      else e1.conn.(initialmss := match s.mss case Some(m) => Min(m, TCP_MSS) case None => e1.conn.initialmss,
                    mss := match s.mss case Some(m) => Min(m, TCP_MSS) case None => e1.conn.mss);
    CalledEvolves(e, e1, peer, c, f, a, s.data);
    AppSendHands(c, f, a, s.data);
  }

  /** Our FIN is out: data and the peer's FIN are accepted but handed to nobody. */
  lemma FinWait1Evolves(e: End, peer: End, p: Packet, a: Answer, rtt: byte)
    requires ReceiveOk(e, peer, p, a, rtt) && !p.seg.rst && !OutOfOrder(e.conn, p.seg)
    requires e.conn.state == FinWait1 && !Acks(e.conn, p.seg)
    ensures Evolves(e, Receive(e, p.seg, a, rtt), peer, Input(e.conn, p.seg, a, rtt).out)
  {
    hide Wrap, Add32, PacketOk, Make;
    var e', step := Receive(e, p.seg, a, rtt), Input(e.conn, p.seg, a, rtt);
    ClosingProgress(e, peer, p);
    AddWrap(peer.iss + e.rcvd, |p.seg.data|);
    AddWrap(peer.iss + e.rcvd + |p.seg.data|, 1);
    assert e.submitted + [] == e.submitted && e.handed + [] == e.handed;
    assert SenderOk(e') && ReceiverOk(e', peer);
    if step.out.Some? { AckOk(e', peer); }
  }

  /** The same while our FIN is being acknowledged. */
  lemma FinAckedEvolves(e: End, peer: End, p: Packet, a: Answer, rtt: byte)
    requires ReceiveOk(e, peer, p, a, rtt) && !p.seg.rst && !OutOfOrder(e.conn, p.seg)
    requires e.conn.state == FinWait1 && Acks(e.conn, p.seg)
    ensures Evolves(e, Receive(e, p.seg, a, rtt), peer, Input(e.conn, p.seg, a, rtt).out)
  {
    hide Wrap, Add32, PacketOk, Make;
    var e', step := Receive(e, p.seg, a, rtt), Input(e.conn, p.seg, a, rtt);
    ClosingProgress(e, peer, p);
    AckSound(e, peer, p);
    AddWrap(e.iss + e.una, e.conn.len);
    AddWrap(peer.iss + e.rcvd, |p.seg.data|);
    AddWrap(peer.iss + e.rcvd + |p.seg.data|, 1);
    assert e.submitted + [] == e.submitted && e.handed + [] == e.handed;
    assert SenderOk(e') && ReceiverOk(e', peer);
    if step.out.Some? { AckOk(e', peer); }
  }

  /** The same once our FIN is acknowledged. */
  lemma FinWait2Evolves(e: End, peer: End, p: Packet, a: Answer, rtt: byte)
    requires ReceiveOk(e, peer, p, a, rtt) && !p.seg.rst && !OutOfOrder(e.conn, p.seg)
    requires e.conn.state == FinWait2
    ensures Evolves(e, Receive(e, p.seg, a, rtt), peer, Input(e.conn, p.seg, a, rtt).out)
  {
    hide Wrap, Add32, PacketOk, Make;
    var e', step := Receive(e, p.seg, a, rtt), Input(e.conn, p.seg, a, rtt);
    ClosingProgress(e, peer, p);
    AddWrap(peer.iss + e.rcvd, |p.seg.data|);
    AddWrap(peer.iss + e.rcvd + |p.seg.data|, 1);
    assert e.submitted + [] == e.submitted && e.handed + [] == e.handed;
    assert SenderOk(e') && ReceiverOk(e', peer);
    if step.out.Some? { AckOk(e', peer); }
  }

  /** Both FINs are out: nothing is accepted any more. */
  lemma ClosingEvolves(e: End, peer: End, p: Packet, a: Answer, rtt: byte)
    requires ReceiveOk(e, peer, p, a, rtt) && !p.seg.rst && !OutOfOrder(e.conn, p.seg)
    requires e.conn.state == Closing || e.conn.state == TimeWait
    ensures Evolves(e, Receive(e, p.seg, a, rtt), peer, Input(e.conn, p.seg, a, rtt).out)
  {
    hide Wrap, Add32, PacketOk, Make;
    var e', step := Receive(e, p.seg, a, rtt), Input(e.conn, p.seg, a, rtt);
    ClosingProgress(e, peer, p);
    if Acks(e.conn, p.seg) {
      AckSound(e, peer, p);
      AddWrap(e.iss + e.una, e.conn.len);
    }
    AddWrap(peer.iss + e.rcvd, |p.seg.data|);
    AddWrap(peer.iss + e.rcvd + |p.seg.data|, 1);
    assert e.submitted + [] == e.submitted && e.handed + [] == e.handed;
    assert SenderOk(e') && ReceiverOk(e', peer);
    if step.out.Some? { AckOk(e', peer); }
  }

  /** A connection closed but for the stopped flag still minds acknowledgements, to no effect. */
  lemma ClosedEvolves(e: End, peer: End, p: Packet, a: Answer, rtt: byte)
    requires ReceiveOk(e, peer, p, a, rtt) && !p.seg.rst && !OutOfOrder(e.conn, p.seg)
    requires e.conn.state == Closed
    ensures Evolves(e, Receive(e, p.seg, a, rtt), peer, Input(e.conn, p.seg, a, rtt).out)
  {
    hide Wrap, Add32, PacketOk, Make;
    var e' := Receive(e, p.seg, a, rtt);
    if Acks(e.conn, p.seg) {
      AckSound(e, peer, p);
      AddWrap(e.iss + e.una, e.conn.len);
    }
    assert e.submitted + [] == e.submitted && e.handed + [] == e.handed;
    assert SenderOk(e') && ReceiverOk(e', peer);
  }

  /** The same, waiting for the last acknowledgement. */
  lemma LastAckEvolves(e: End, peer: End, p: Packet, a: Answer, rtt: byte)
    requires ReceiveOk(e, peer, p, a, rtt) && !p.seg.rst && !OutOfOrder(e.conn, p.seg)
    requires e.conn.state == LastAck
    ensures Evolves(e, Receive(e, p.seg, a, rtt), peer, Input(e.conn, p.seg, a, rtt).out)
  {
    hide Wrap, Add32, PacketOk, Make;
    var e', step := Receive(e, p.seg, a, rtt), Input(e.conn, p.seg, a, rtt);
    ClosingProgress(e, peer, p);
    if Acks(e.conn, p.seg) {
      AckSound(e, peer, p);
      AddWrap(e.iss + e.una, e.conn.len);
    }
    AddWrap(peer.iss + e.rcvd, |p.seg.data|);
    AddWrap(peer.iss + e.rcvd + |p.seg.data|, 1);
    assert e.submitted + [] == e.submitted && e.handed + [] == e.handed;
    assert SenderOk(e') && ReceiverOk(e', peer);
    if step.out.Some? { AckOk(e', peer); }
  }

  lemma ClosingProgress(e: End, peer: End, p: Packet)
    requires Arrives(e, peer, p) && !p.seg.rst && !OutOfOrder(e.conn, p.seg)
    requires e.conn.state != SynSent && e.rcvd >= 1
    ensures var n := |p.seg.data| + if p.seg.fin then 1 else 0; n > 0 ==> e.rcvd + n == peer.Sent()
    ensures p.seg.fin ==> p.seg.data == []
  {
    if p.seg.data != [] || p.seg.fin { SeqSound(e, peer, p); }
  }

  /** The peer's FIN on an established connection: the last of its stream, answered by our own. */
  lemma FinEvolves(e: End, peer: End, p: Packet, a: Answer, rtt: byte)
    requires ReceiveOk(e, peer, p, a, rtt) && !p.seg.rst && !OutOfOrder(e.conn, p.seg)
    requires e.conn.state == Established && p.seg.fin && !e.conn.stopped
    ensures Evolves(e, Receive(e, p.seg, a, rtt), peer, Input(e.conn, p.seg, a, rtt).out)
  {
    hide Wrap, Add32, PacketOk, Make;
    var e', step := Receive(e, p.seg, a, rtt), Input(e.conn, p.seg, a, rtt);
    ClosingProgress(e, peer, p);
    if Acks(e.conn, p.seg) { AckSound(e, peer, p); AddWrap(e.iss + e.una, e.conn.len); }
    AddWrap(peer.iss + e.rcvd, 1);
    assert e.submitted + [] == e.submitted && e.handed + [] == e.handed;
    assert SenderOk(e') && ReceiverOk(e', peer);
    if step.out.Some? { FinOk(e', peer); }
  }

  lemma ReceiveEvolves(e: End, peer: End, p: Packet, a: Answer, rtt: byte)
    requires ReceiveOk(e, peer, p, a, rtt)
    ensures Evolves(e, Receive(e, p.seg, a, rtt), peer, Input(e.conn, p.seg, a, rtt).out)
  {
    StateFacts(e);
    if !p.seg.rst && e.conn.state == SynSent { UnsyncedSound(e, peer, p); }
    if p.seg.rst || OutOfOrder(e.conn, p.seg) {
      RejectedEvolves(e, peer, p, a, rtt);
    } else if e.conn.state == Established {
      if p.seg.fin && !e.conn.stopped {
        FinEvolves(e, peer, p, a, rtt);
      } else {
        EstablishedEvolves(e, peer, p, a, rtt);
      }
    } else if e.conn.state == SynRcvd || e.conn.state == SynSent {
      if Acks(e.conn, p.seg) && (e.conn.state == SynRcvd || p.seg.OnlySynAck()) {
        OpeningEvolves(e, peer, p, a, rtt);
      } else {
        UnopenedEvolves(e, peer, p, a, rtt);
      }
    } else if e.conn.state == FinWait1 {
      if Acks(e.conn, p.seg) { FinAckedEvolves(e, peer, p, a, rtt); } else { FinWait1Evolves(e, peer, p, a, rtt); }
    } else if e.conn.state == FinWait2 {
      FinWait2Evolves(e, peer, p, a, rtt);
    } else if e.conn.state == LastAck {
      LastAckEvolves(e, peer, p, a, rtt);
    } else if e.conn.state == Closed {
      ClosedEvolves(e, peer, p, a, rtt);
    } else {
      ClosingEvolves(e, peer, p, a, rtt);
    }
  }

  /** Resets, and segments out of order. */
  lemma RejectedEvolves(e: End, peer: End, p: Packet, a: Answer, rtt: byte)
    requires ReceiveOk(e, peer, p, a, rtt)
    requires p.seg.rst || (OutOfOrder(e.conn, p.seg) && e.conn.state != SynSent)
    ensures Evolves(e, Receive(e, p.seg, a, rtt), peer, Input(e.conn, p.seg, a, rtt).out)
  {
    hide Wrap, Add32, PacketOk, SenderOk, ReceiverOk, PureAck, Acks, OutOfOrder;
    StateFacts(e);
    var c := Input(e.conn, p.seg, a, rtt).conn;
    assert e.submitted + [] == e.submitted && e.handed + [] == e.handed;
    IdleEvolves(e, peer, c);
    if !p.seg.rst { AckOk(e, peer); }
  }

  /** Segments that fail to open the connection. */
  lemma UnopenedEvolves(e: End, peer: End, p: Packet, a: Answer, rtt: byte)
    requires ReceiveOk(e, peer, p, a, rtt) && !p.seg.rst && !OutOfOrder(e.conn, p.seg)
    requires (e.conn.state == SynRcvd && !Acks(e.conn, p.seg))
      || (e.conn.state == SynSent && !(Acks(e.conn, p.seg) && p.seg.OnlySynAck()))
    ensures Evolves(e, Receive(e, p.seg, a, rtt), peer, Input(e.conn, p.seg, a, rtt).out)
  {
    hide Wrap, Add32, PacketOk, Make, Refusal, OutOfOrder;
    var e' := Receive(e, p.seg, a, rtt);
    if Acks(e.conn, p.seg) { AckSound(e, peer, p); AddWrap(e.iss + e.una, e.conn.len); }
    assert e.submitted + [] == e.submitted && e.handed + [] == e.handed;
    assert SenderOk(e') && ReceiverOk(e', peer);
    if e.conn.state == SynSent {
      RefusalResets(p.seg);
      ResetOk(e', peer, Refusal(p.seg).value);
    }
  }

  lemma RefusalResets(s: Segment)
    ensures Refusal(s).None? <==> s.rst
    ensures Refusal(s).Some? ==> Refusal(s).value.rst
  {
  }

  // ----- opening

  lemma ConnectEvolves(e: End, peer: End)
    requires SenderOk(e) && ReceiverOk(e, peer) && InStep(e, peer) && !e.live && e.active
    ensures Evolves(e, e.(live := true, conn := Connect(e.conn, e.iss)), peer, None)
  {
  }

  function Accepted(e: End, s: Segment): End {
    e.(live := true, conn := Accept(e.conn, s, e.iss).conn, rcvd := 1)
  }

  lemma AcceptEvolves(e: End, peer: End, p: Packet)
    requires SenderOk(e) && SenderOk(peer) && ReceiverOk(e, peer) && InStep(e, peer) && !e.live && !e.active
    requires PacketOk(p, peer, e) && p.seg.OnlySyn()
    ensures Evolves(e, Accepted(e, p.seg), peer, Accept(e.conn, p.seg, e.iss).out)
  {
    assert SenderOk(Accepted(e, p.seg)) && ReceiverOk(Accepted(e, p.seg), peer);
  }

  // ----- the two endpoints and the network

  datatype System = System(a: End, b: End, net: set<Packet>) {
    function At(atA: bool): End {
      if atA then a else b
    }

    /** A step of one endpoint: its new state, and its segment added to what the network may deliver from now on. */
    function With(atA: bool, e: End, out: Option<Segment>): System {
      var sent := match out case Some(seg) => {Packet(atA, seg, e.una, e.rcvd)} case None => {};
      if atA then System(e, b, net + sent) else System(a, e, net + sent)
    }
  }

  datatype Event =
    | ActiveOpen
    | PassiveOpen(syn: Packet)
    | Arrival(atA: bool, p: Packet, answer: Answer, rtt: byte)
    | Timeout(atA: bool, answer: Answer)
    | PollAt(atA: bool, answer: Answer)
    | Refused(atA: bool, p: Packet)

  ghost predicate Initial(s: System) {
    && s.a.active && !s.b.active && s.net == {}
    && forall atA :: var e := s.At(atA);
         e.conn.IsClosed() && !e.live && e.una == 0 && e.submitted == [] && e.rcvd == 0 && e.handed == []
  }

  /** Delivery takes any segment ever sent: it may have been lost before, come again later, or overtake others. */
  ghost predicate Next(s: System, ev: Event, s': System) {
    match ev
    case ActiveOpen =>
      !s.a.live && s' == s.With(true, s.a.(live := true, conn := Connect(s.a.conn, s.a.iss)), None)
    case PassiveOpen(p) =>
      && !s.b.live && p in s.net && p.fromA && p.seg.OnlySyn()
      && s' == s.With(false, Accepted(s.b, p.seg), Accept(s.b.conn, p.seg, s.b.iss).out)
    case Arrival(atA, p, a, rtt) =>
      var e := s.At(atA);
      && e.live && !e.conn.IsClosed() && p in s.net && p.fromA == !atA
      && Meek(e.conn, Input(e.conn, p.seg, a, rtt).call, a) && Faithful(Acked(e.conn, p.seg, rtt), e.submitted, a)
      && s' == s.With(atA, Receive(e, p.seg, a, rtt), Input(e.conn, p.seg, a, rtt).out)
    case Timeout(atA, a) =>
      var e := s.At(atA);
      && e.live && Meek(e.conn, Tick(e.conn, a).call, a) && Faithful(e.conn, e.submitted, a)
      && s' == s.With(atA, Ticked(e, a), Tick(e.conn, a).out)
    case PollAt(atA, a) =>
      var e := s.At(atA);
      e.live && s' == s.With(atA, Polled(e, a), Poll(e.conn, a).out)
    case Refused(atA, p) =>
      var e := s.At(atA);
      && e.conn.IsClosed() && p in s.net && p.fromA == !atA
      && s' == s.With(atA, e, Refusal(p.seg))
  }

  /** Neither stream has used up the sequence numbers. */
  ghost predicate Short(s: System) {
    |s.a.submitted| + 2 < MODULUS && |s.b.submitted| + 2 < MODULUS
  }

  ghost predicate Inv(s: System) {
    && s.a.active && !s.b.active
    && SenderOk(s.a) && SenderOk(s.b) && ReceiverOk(s.a, s.b) && ReceiverOk(s.b, s.a)
    && forall p :: p in s.net ==> PacketOk(p, s.At(p.fromA), s.At(!p.fromA))
  }

  /** What was said stays true, and what was received stays the start of the sender's stream. */
  lemma EvolvesKeeps(e: End, e': End, peer: End, out: Option<Segment>)
    requires SenderOk(e) && ReceiverOk(peer, e) && Evolves(e, e', peer, out)
    ensures ReceiverOk(peer, e')
    ensures forall p :: PacketOk(p, e, peer) ==> PacketOk(p, e', peer)
    ensures forall p :: PacketOk(p, peer, e) ==> PacketOk(p, peer, e')
  {
    forall p | PacketOk(p, e, peer) ensures PacketOk(p, e', peer) {
      PacketKept(p, e, e', peer, out);
    }
  }

  lemma PacketKept(p: Packet, e: End, e': End, peer: End, out: Option<Segment>)
    requires SenderOk(e) && Evolves(e, e', peer, out) && PacketOk(p, e, peer)
    ensures PacketOk(p, e', peer)
  {
    hide Wrap;
    if !p.seg.rst && p.seg.data != [] {
      assert e'.submitted[p.off - 1..p.off - 1 + |p.seg.data|] == e.submitted[p.off - 1..p.off - 1 + |p.seg.data|];
    }
  }

  lemma StepKeeps(s: System, atA: bool, e': End, out: Option<Segment>)
    requires Inv(s) && Evolves(s.At(atA), e', s.At(!atA), out)
    ensures Inv(s.With(atA, e', out))
  {
    hide PacketOk, SenderOk, ReceiverOk;
    var e, peer, s' := s.At(atA), s.At(!atA), s.With(atA, e', out);
    EvolvesKeeps(e, e', peer, out);
    forall p | p in s'.net ensures PacketOk(p, s'.At(p.fromA), s'.At(!p.fromA)) {
      if p in s.net {
        assert PacketOk(p, s.At(p.fromA), s.At(!p.fromA));
      } else {
        SameEitherWay(out.value, e', peer);
      }
    }
  }

  lemma SameEitherWay(seg: Segment, e: End, peer: End)
    ensures PacketOk(Packet(true, seg, e.una, e.rcvd), e, peer) ==> PacketOk(Packet(false, seg, e.una, e.rcvd), e, peer)
  {
  }

  /** Every event keeps the invariant, whatever the callbacks answer. */
  lemma NextKeeps(s: System, ev: Event, s': System)
    requires Inv(s) && Next(s, ev, s') && Short(s')
    ensures Inv(s')
  {
    hide Evolves, PacketOk;
    match ev {
      case ActiveOpen =>
        ConnectEvolves(s.a, s.b);
        StepKeeps(s, true, s'.a, None);
      case PassiveOpen(p) =>
        AcceptEvolves(s.b, s.a, p);
        StepKeeps(s, false, s'.b, Accept(s.b.conn, p.seg, s.b.iss).out);
      case Arrival(atA, p, a, rtt) =>
        var e := s.At(atA);
        StateFacts(e);
        ReceiveEvolves(e, s.At(!atA), p, a, rtt);
        StepKeeps(s, atA, s'.At(atA), Input(e.conn, p.seg, a, rtt).out);
      case Timeout(atA, a) =>
        TickEvolves(s.At(atA), s.At(!atA), a);
        StepKeeps(s, atA, s'.At(atA), Tick(s.At(atA).conn, a).out);
      case PollAt(atA, a) =>
        PollEvolves(s.At(atA), s.At(!atA), a);
        StepKeeps(s, atA, s'.At(atA), Poll(s.At(atA).conn, a).out);
      case Refused(atA, p) =>
        RefusalEvolves(s.At(atA), s.At(!atA), p.seg);
        StepKeeps(s, atA, s.At(atA), Refusal(p.seg));
    }
  }

  lemma RefusalEvolves(e: End, peer: End, s: Segment)
    requires SenderOk(e) && ReceiverOk(e, peer) && InStep(e, peer)
    ensures Evolves(e, e, peer, Refusal(s))
  {
    RefusalResets(s);
  }

  // ----- runs

  ghost predicate Run(states: seq<System>, events: seq<Event>) {
    && |states| == |events| + 1 && Initial(states[0])
    && forall i :: 0 <= i < |events| ==> Happens(states, events, i)
  }

  ghost predicate Happens(states: seq<System>, events: seq<Event>, i: nat)
    requires i < |events| && |states| == |events| + 1
  {
    Next(states[i], events[i], states[i + 1]) && Short(states[i + 1])
  }

  lemma {:induction false} RunKeeps(states: seq<System>, events: seq<Event>, i: nat)
    requires Run(states, events) && i < |states|
    ensures Inv(states[i])
  {
    if i == 0 {
      InitialInv(states[0]);
    } else {
      RunKeeps(states, events, i - 1);
      assert Happens(states, events, i - 1);
      NextKeeps(states[i - 1], events[i - 1], states[i]);
    }
  }

  lemma InitialInv(s: System)
    requires Initial(s)
    ensures Inv(s)
  {
    assert s.At(true) == s.a && s.At(false) == s.b;
  }

  /**
   In every state of every run, in both directions: the bytes handed to the
   receiving application are the first ones the sending application submitted,
   in order and once each.
   */
  lemma InOrderDelivery(states: seq<System>, events: seq<Event>, i: nat)
    requires Run(states, events) && i < |states|
    ensures states[i].b.handed <= states[i].a.submitted
    ensures states[i].a.handed <= states[i].b.submitted
  {
    RunKeeps(states, events, i);
  }

  /** While both ends are established, all that was submitted but for the outstanding segment has been handed over. */
  lemma OnlyOutstandingMissing(states: seq<System>, events: seq<Event>, i: nat)
    requires Run(states, events) && i < |states|
    requires states[i].a.live && states[i].b.live
    requires states[i].a.conn.state == Established && states[i].b.conn.state == Established
    ensures states[i].a.conn.len <= |states[i].a.submitted|
    ensures var a, b := states[i].a, states[i].b;
      && (b.handed == a.submitted || b.handed == a.submitted[..|a.submitted| - a.conn.len])
      && (b.conn.rcvNxt == a.conn.sndNxt || b.conn.rcvNxt == Add32(a.conn.sndNxt, a.conn.len))
  {
    hide Run, SenderOk, ReceiverOk, PacketOk, Add32;
    RunKeeps(states, events, i);
    PairMissing(states[i].a, states[i].b);
  }

  lemma PairMissing(a: End, b: End)
    requires SenderOk(a) && ReceiverOk(b, a) && a.live && a.conn.state == Established && b.conn.state == Established
    ensures a.conn.len <= |a.submitted|
    ensures b.handed == a.submitted || b.handed == a.submitted[..|a.submitted| - a.conn.len]
    ensures b.live ==> b.conn.rcvNxt == a.conn.sndNxt || b.conn.rcvNxt == Add32(a.conn.sndNxt, a.conn.len)
  {
    hide Wrap, Add32;
    EstablishedSent(a);
    AddWrap(a.iss + a.una, a.conn.len);
    assert b.handed == a.submitted[..|b.handed|];
    assert a.submitted == a.submitted[..|a.submitted|];
  }

  /** Any two transmissions of the same stretch of a stream carry the same bytes. */
  ghost predicate Agree(net: set<Packet>) {
    forall p, q :: p in net && q in net && p.fromA == q.fromA && p.off == q.off && Carries(p) && Carries(q) ==>
      p.seg.data == q.seg.data
  }

  predicate Carries(p: Packet) {
    !p.seg.rst && p.seg.data != []
  }

  /** A segment at the sender's present position is exactly the outstanding one. */
  lemma AtOutstanding(p: Packet, e: End, peer: End)
    requires PacketOk(p, e, peer) && Carries(p) && p.off == e.una
    ensures e.una >= 1 && e.una <= e.Sent() <= 1 + |e.submitted|
    ensures p.seg.data == e.submitted[e.una - 1..e.Sent() - 1]
  {
  }

  lemma StepAgrees(s: System, atA: bool, e': End, out: Option<Segment>)
    requires Agree(s.net) && Inv(s.With(atA, e', out))
    ensures Agree(s.With(atA, e', out).net)
  {
    hide PacketOk, SenderOk, ReceiverOk;
    var s' := s.With(atA, e', out);
    forall p, q | p in s'.net && q in s'.net && p.fromA == q.fromA && p.off == q.off && Carries(p) && Carries(q)
      ensures p.seg.data == q.seg.data
    {
      if p !in s.net || q !in s.net {
        AtOutstanding(p, s'.At(p.fromA), s'.At(!p.fromA));
        AtOutstanding(q, s'.At(p.fromA), s'.At(!p.fromA));
      }
    }
  }

  lemma NextAgrees(s: System, ev: Event, s': System)
    requires Agree(s.net) && Next(s, ev, s') && Inv(s')
    ensures Agree(s'.net)
  {
    hide Agree, Inv, Receive, Input, Ticked, Tick, Polled, Poll, Accept, Connect, Refusal;
    match ev {
      case ActiveOpen => StepAgrees(s, true, s'.a, None);
      case PassiveOpen(p) => StepAgrees(s, false, s'.b, Accept(s.b.conn, p.seg, s.b.iss).out);
      case Arrival(atA, p, a, rtt) => StepAgrees(s, atA, s'.At(atA), Input(s.At(atA).conn, p.seg, a, rtt).out);
      case Timeout(atA, a) => StepAgrees(s, atA, s'.At(atA), Tick(s.At(atA).conn, a).out);
      case PollAt(atA, a) => StepAgrees(s, atA, s'.At(atA), Poll(s.At(atA).conn, a).out);
      case Refused(atA, p) => StepAgrees(s, atA, s.At(atA), Refusal(p.seg));
    }
  }

  /** Every retransmission carries the bytes of the first transmission. */
  lemma {:induction false} SameBytesAgain(states: seq<System>, events: seq<Event>, i: nat)
    requires Run(states, events) && i < |states|
    ensures Agree(states[i].net)
  {
    hide Next, Inv;
    if i > 0 {
      SameBytesAgain(states, events, i - 1);
      RunKeeps(states, events, i);
      assert Happens(states, events, i - 1);
      NextAgrees(states[i - 1], events[i - 1], states[i]);
    }
  }

  /**
   The engine tells positions apart only up to a whole cycle of sequence numbers:
   a data segment from a full cycle earlier would be accepted as new.
   */
  lemma AcceptedModulo(c: Conn, s: Segment, iss: u32, expected: nat, off: nat)
    requires c.state != SynSent && s.data != [] && c.rcvNxt == Wrap(iss + expected) && s.seqno == Wrap(iss + off)
    ensures !OutOfOrder(c, s) <==> (expected - off) % MODULUS == 0
  {
  }
}
