/**
 What the engine sends, so that nothing that is lost stays lost: old segments are
 acknowledged again, new ones at once, and what is outstanding goes out again with the timer.
 */
module TcpAnswers {
  import opened Machine
  import opened Sequence
  import opened Callback
  import opened TcpEngine
  import opened TcpTimers
  import opened TcpNetwork

  /** The segment says no more than what its sender has accepted, and what it sends next. */
  ghost predicate Acknowledges(s: Segment, e: End, peer: End) {
    && s.ack && !s.rst && !s.syn
    && s.ackno == Wrap(peer.iss + e.rcvd) && s.seqno == Wrap(e.iss + e.una)
  }

  // ----- segments seen before

  /**
   A segment with data, SYN or FIN from before what is accepted changes nothing, and is
   answered with what is expected next.
   */
  lemma OldSegmentAnswered(e: End, peer: End, p: Packet, a: Answer, rtt: byte)
    requires Arrives(e, peer, p) && !p.seg.rst && p.off < e.rcvd
    requires p.seg.data != [] || p.seg.syn || p.seg.fin
    ensures Receive(e, p.seg, a, rtt) == e
    ensures var out := Input(e.conn, p.seg, a, rtt).out;
      out.Some? && Acknowledges(out.value, e, peer) && out.value.data == [] && !out.value.fin
  {
    hide Wrap, Add32;
    SentBound(peer);
    if p.seg.seqno == e.conn.rcvNxt { WrapInjective(peer.iss, p.off, e.rcvd); }
    assert e.handed + [] == e.handed && e.submitted + [] == e.submitted;
  }

  /** The acknowledgement of everything outstanding is taken as such. */
  lemma AllAcknowledged(e: End, peer: End, s: Segment)
    requires SenderOk(e) && e.live && e.conn.len > 0 && peer.rcvd == e.Sent() && Acknowledges(s, peer, e)
    ensures Acks(e.conn, s)
  {
    AddWrap(e.iss + e.una, e.conn.len);
  }

  /** If only the acknowledgement was lost, the next transmission makes that good, and the receiver is as before. */
  lemma LostAckMadeGood(e: End, peer: End, p: Packet, a: Answer, rtt: byte)
    requires Ready(e, peer) && Arrives(peer, e, p) && e.conn.len > 0 && peer.rcvd == e.Sent()
    requires !p.seg.rst && p.off == e.una && (p.seg.data != [] || p.seg.syn || p.seg.fin)
    ensures Receive(peer, p.seg, a, rtt) == peer
    ensures var out := Input(peer.conn, p.seg, a, rtt).out;
      out.Some? && Acknowledges(out.value, peer, e) && Acks(e.conn, out.value)
  {
    hide Input, Receive, Acks, Wrap;
    OldSegmentAnswered(peer, e, p, a, rtt);
    AllAcknowledged(e, peer, Input(peer.conn, p.seg, a, rtt).out.value);
  }

  // ----- new segments

  /**
   The next data of the stream are taken as a whole and acknowledged at once, whatever
   the callback answers short of an abort.
   */
  lemma NewDataAnswered(e: End, peer: End, p: Packet, a: Answer, rtt: byte)
    requires Arrives(e, peer, p) && e.conn.state == Established && !e.conn.stopped && a.verdict != Abort
    requires p.seg.data != [] && !p.seg.rst && p.off == e.rcvd
    ensures var e', out := Receive(e, p.seg, a, rtt), Input(e.conn, p.seg, a, rtt).out;
      && e'.handed == e.handed + p.seg.data && e'.rcvd == e.rcvd + |p.seg.data| == peer.Sent()
      && out.Some? && out.value.ack && !out.value.rst && out.value.ackno == Wrap(peer.iss + peer.Sent())
  {
    hide Wrap, Add32;
    SentBound(peer);
    AddWrap(peer.iss + e.rcvd, |p.seg.data|);
    SeqSound(e, peer, p);
  }

  /** So each new segment of data that arrives frees its sender for the next one, as soon as the answer arrives. */
  lemma DataRoundTrip(e: End, peer: End, p: Packet, a: Answer, rtt: byte, b: Answer, rtt': byte)
    requires Ready(e, peer) && Arrives(peer, e, p) && ReceiverOk(e, peer)
    requires e.conn.state == Established && e.conn.len > 0
    requires peer.conn.state == Established && !p.seg.rst && p.off == e.una && p.seg.data != []
    requires peer.rcvd == e.una ==> !peer.conn.stopped && a.verdict != Abort
    requires var out := Input(peer.conn, p.seg, a, rtt).out;
      out.Some? ==> !OutOfOrder(e.conn, out.value) && b.verdict == GoOn && b.data == []
    ensures var out := Input(peer.conn, p.seg, a, rtt).out;
      && out.Some?
      && var e' := Receive(e, out.value, b, rtt');
         e'.una == e.Sent() && (!out.value.fin || e.conn.stopped ==> e'.conn.state == Established && e'.conn.len == 0)
    ensures Receive(peer, p.seg, a, rtt).rcvd == e.Sent()
    ensures peer.rcvd == e.una ==> Receive(peer, p.seg, a, rtt).handed == peer.handed + p.seg.data
  {
    var out := Input(peer.conn, p.seg, a, rtt).out;
    hide Wrap, Add32, Input, Receive;
    if peer.rcvd == e.una {
      NewDataAnswered(peer, e, p, a, rtt);
      AddWrap(e.iss + e.una, e.conn.len);
    } else {
      LostAckMadeGood(e, peer, p, a, rtt);
    }
    assert Acks(e.conn, out.value);
    AckTaken(e, out.value, b, rtt');
  }

  lemma AckTaken(e: End, s: Segment, b: Answer, rtt: byte)
    requires e.live && e.conn.state == Established && Acks(e.conn, s) && !s.rst && !OutOfOrder(e.conn, s)
    requires b.verdict == GoOn && b.data == []
    ensures Receive(e, s, b, rtt).una == e.Sent()
    ensures !s.fin || e.conn.stopped ==>
      Receive(e, s, b, rtt).conn.state == Established && Receive(e, s, b, rtt).conn.len == 0
  {
  }

  // ----- what the timer sends

  /** At the end of a wait what is outstanding goes out again: the SYN, the FIN, or the data the callback repeats. */
  lemma TimerSends(e: End, peer: End, a: Answer)
    requires Ready(e, peer) && e.conn.len > 0 && e.conn.timer == 0 && e.conn.state != Closed
    requires e.conn.nrtx < if e.conn.state == SynSent || e.conn.state == SynRcvd then 5 else 8
    requires e.conn.state == SynSent || e.conn.state == SynRcvd ==> !e.conn.stopped
    requires e.conn.state == Established ==> a.data == e.submitted[|e.submitted| - e.conn.len..]
    ensures var out := Tick(e.conn, a).out;
      && out.Some? && out.value.seqno == Wrap(e.iss + e.una)
      && if e.conn.state == SynSent then
           out.value.OnlySyn() && out.value.mss == Some(512)
         else if e.conn.state == SynRcvd then
           out.value.OnlySynAck() && out.value.mss == Some(512) && out.value.ackno == Wrap(peer.iss + e.rcvd)
         else if e.conn.state == Established then
           Acknowledges(out.value, e, peer) && out.value.data == a.data && !out.value.fin
         else
           Acknowledges(out.value, e, peer) && out.value.data == [] && out.value.fin
  {
    assert a.data[..|a.data|] == a.data;
  }

  /** A connection given up tells its peer with a reset. */
  lemma GivenUpResets(c: Conn, a: Answer)
    requires Sane(c) && Waiting(c) && c.state != FinWait2 && c.state != TimeWait && c.timer == 0
    requires c.nrtx >= if c.state == SynSent || c.state == SynRcvd then 5 else 8
    ensures var step := Tick(c, a);
      step.out.Some? && step.out.value.rst && step.call == Some(NONE.(timedout := true)) && step.conn.state == Closed
  {
  }

  // ----- acknowledgements and the timer

  /**
   An acknowledgement starts the timer anew, and the round trip is measured only if
   nothing was sent twice (section 4.3 of RFC 1122, Karn's rule).
   */
  lemma AckRestartsTimer(c: Conn, s: Segment, a: Answer, rtt: byte)
    requires Acks(c, s) && !s.rst && !OutOfOrder(c, s)
    requires c.state == Established && (!s.fin || c.stopped) && a.verdict == GoOn
    ensures var c' := Input(c, s, a, rtt).conn;
      && c'.rto == (if c.nrtx == 0 then rtt else c.rto) && c'.timer == c'.rto && c'.nrtx == 0
      && c'.sndNxt == Add32(c.sndNxt, c.len) && c'.len == Min(|a.data|, c'.mss)
  {
  }

  lemma FirstWait(c: Conn)
    requires c.nrtx == 0 && (c.state == Established || c.state == FinWait1 || c.state == LastAck)
    ensures Lifetime(c) == c.timer as int + 1 + WaitSum(0, 8)
  {
    WaitsSum(0, 8);
    hide WaitSum, Waits;
  }

  /** Whatever is newly sent, data or a FIN, may be sent again as often as if nothing had been before. */
  lemma NewlySentWaits(c: Conn, f: AppFlags, a: Answer, got: seq<byte>)
    requires c.state == Established
    requires a.verdict == Shut || (a.verdict == GoOn && c.len == 0 && a.data != [] && c.mss > 0)
    ensures var c' := AppSend(c, f, a, got).conn;
      && c'.len == (if a.verdict == Shut then 1 else Min(|a.data|, c.mss))
      && Lifetime(c') == c.timer as int + 1 + WaitSum(0, 8)
      && (a.verdict == Shut ==> c'.state == FinWait1 && !c'.stopped)
  {
    hide Make, Emit, Lifetime, WaitSum;
    FirstWait(AppSend(c, f, a, got).conn);
  }

  /**
   So may the FIN that answers the peer's, whose data are handed up; the callback is told
   of the end, the data, and whether all that was outstanding is acknowledged.
   */
  lemma FinAnswerWaits(c: Conn, s: Segment, a: Answer, rtt: byte)
    requires c.state == Established && s.fin && !c.stopped && !s.rst && s.seqno == c.rcvNxt
    requires c.len == 0 || Acks(c, s)
    ensures var step := Input(c, s, a, rtt);
      && step.conn.state == LastAck && step.conn.len == 1 && !step.conn.stopped
      && Lifetime(step.conn) == step.conn.timer as int + 1 + WaitSum(0, 8)
      && step.handed == s.data && step.call.Some? && step.call.value.closed
      && (step.call.value.newdata <==> s.data != []) && (step.call.value.acked <==> Acks(c, s))
      && step.out.Some? && step.out.value.fin && step.out.value.ackno == Add32(c.rcvNxt, |s.data| + 1)
  {
    hide Lifetime, WaitSum;
    FirstWait(Input(c, s, a, rtt).conn);
  }

  // ----- refusals and resets

  /**
   The refusal of a segment of connection `c`: a reset with the number `c` expects next,
   which acknowledges the segment.
   */
  lemma RefusedWith(c: Conn, syn: bool, ack: bool, fin: bool, psh: bool, data: seq<byte>)
    ensures var r := Refusal(Make(c, syn, ack, fin, false, psh, data));
      && r.Some? && r.value.rst && r.value.ack && !r.value.syn && !r.value.fin && r.value.data == []
      && r.value.seqno == c.rcvNxt && r.value.ackno == Add32(c.sndNxt, 1)
  {
  }

  /**
   A reset ends any connection at once, hands nothing up and is not answered, so that no
   two hosts reset each other for ever.
   */
  lemma ResetEnds(c: Conn, s: Segment, a: Answer, rtt: byte)
    requires s.rst
    ensures var step := Input(c, s, a, rtt);
      && step.out == None && step.handed == [] && step.taken == [] && step.call == Some(NONE.(aborted := true))
      && step.conn.state == Closed && (step.conn.IsClosed() <==> a.flow != Halt)
    ensures Refusal(s) == None
  {
  }

  /** A lingering connection answers every segment but a reset with what it expects next, and does nothing else. */
  lemma LingeringAnswers(c: Conn, s: Segment, a: Answer, rtt: byte)
    requires c.state == TimeWait && c.len == 0 && !s.rst
    ensures var step := Input(c, s, a, rtt);
      && step.conn == c && step.call == None
      && step.out.Some? && step.out.value.ack && step.out.value.ackno == c.rcvNxt && step.out.value.seqno == c.sndNxt
      && step.out.value.data == [] && !step.out.value.syn && !step.out.value.fin && !step.out.value.rst
  {
  }

  /** An opening connection that hears anything but the acknowledgement of its SYN is aborted, and says so. */
  lemma OpeningRefused(c: Conn, s: Segment, a: Answer, rtt: byte)
    requires c.state == SynSent && !s.rst && !OutOfOrder(c, s) && !(Acks(c, s) && s.OnlySynAck())
    ensures var step := Input(c, s, a, rtt);
      && step.conn.state == Closed && step.call == Some(NONE.(aborted := true))
      && step.out.Some? && step.out.value.rst && step.out.value.seqno == s.ackno
      && step.out.value.ackno == Add32(s.seqno, 1)
  {
  }

  /** A callback that aborts resets the peer. */
  lemma AbortResets(c: Conn, f: AppFlags, a: Answer, got: seq<byte>)
    requires a.verdict == Abort
    ensures var step := AppSend(c, f, a, got);
      step.conn.IsClosed() && step.out.Some? && step.out.value.rst && step.out.value.seqno == c.sndNxt
  {
  }

  // ----- the peer's limits, and one's own

  /**
   No more than the agreed size is taken on at a time, and that never exceeds 512 bytes,
   the peer's offer or its window.
   */
  lemma SizeAgreed(c: Conn, s: Segment, a: Answer, rtt: byte)
    requires !s.rst && !OutOfOrder(c, s)
    ensures c.state == SynSent && Acks(c, s) && s.OnlySynAck() && s.mss.Some? ==>
      var m := Input(c, s, a, rtt).conn.mss; m == Min(s.mss.value, 512) && Input(c, s, a, rtt).conn.initialmss == m
    ensures c.state == Established && (!s.fin || c.stopped) ==>
      var m := Input(c, s, a, rtt).conn.mss;
      m == if s.wnd == 0 || s.wnd > c.initialmss then c.initialmss else s.wnd
    ensures |Input(c, s, a, rtt).taken| <= Input(c, s, a, rtt).conn.mss
    ensures c.mss <= c.initialmss && c.state != SynSent ==> Input(c, s, a, rtt).conn.mss <= c.initialmss
  {
    hide Make, Emit;
  }

  /** A passive open takes over the SYN's offer, and without one whatever the slot's last occupant had agreed. */
  lemma OfferTaken(slot: Conn, s: Segment, iss: u32)
    ensures var c := Accept(slot, s, iss).conn;
      match s.mss
      case Some(m) => c.mss == Min(m, 512) && c.initialmss == c.mss
      case None => c.mss == slot.mss && c.initialmss == slot.initialmss
  {
  }

  ghost predicate Unsized(step: Step) {
    step.conn.mss == 0 && step.conn.initialmss == 0 && step.taken == []
  }

  /** In a slot never used before that is nothing at all, and then the connection never takes on a byte to send. */
  lemma UnsizedSendsNothing(c: Conn, s: Segment, a: Answer, rtt: byte)
    requires c.mss == 0 && c.initialmss == 0 && c.state != SynSent
    ensures Unsized(Input(c, s, a, rtt)) && Unsized(Tick(c, a)) && Unsized(Poll(c, a))
  {
    hide Make, Add32, Acks, OutOfOrder, AppSend;
    hide SynRcvdInput, EstablishedInput, FinWait1Input, FinWait2Input;
    var c1 := Acked(c, s, rtt);
    UnsizedInput(c1, s, Acks(c, s), a);
    UnsizedPoll(c, NONE.(poll := true), a, []);
    UnsizedPoll(c.(timer := Backoff(c.nrtx), nrtx := (c.nrtx as int + 1) % 0x100), NONE, a, []);
  }

  lemma UnsizedPoll(c: Conn, f: AppFlags, a: Answer, got: seq<byte>)
    requires c.mss == 0 && c.initialmss == 0
    ensures Unsized(AppSend(c, f, a, got))
  {
    hide Make, Emit;
    assert a.data[..0] == [];
  }

  lemma UnsizedInput(c: Conn, s: Segment, acked: bool, a: Answer)
    requires c.mss == 0 && c.initialmss == 0
    ensures Unsized(SynRcvdInput(c, s, acked, a)) && Unsized(EstablishedInput(c, s, acked, a))
    ensures Unsized(FinWait1Input(c, s, acked, a)) && Unsized(FinWait2Input(c, s, a))
  {
    hide Make, Add32, Emit;
    assert a.data[..0] == [];
  }

  /** A stopped connection announces a closed window and takes no data; any other one announces 512 bytes. */
  lemma WindowAnnounced(c: Conn, s: Segment, a: Answer, rtt: byte)
    requires c.state == Established && !s.rst && a.verdict != Abort
    ensures var step := Input(c, s, a, rtt);
      && (step.out.Some? ==> step.out.value.wnd == if step.conn.stopped then 0 else 512)
      && (c.stopped ==> step.handed == [] && step.conn.rcvNxt == c.rcvNxt)
      && (step.call.Some? && step.conn.state == Established ==>
            (step.conn.stopped <==> a.flow == Halt || (a.flow == Keep && c.stopped)))
  {
  }

  /** Taking up the flow of data again goes out at once, with the window open. */
  lemma ReopeningSent(c: Conn, a: Answer)
    requires c.state == Established && c.len == 0 && a.flow == Resume && a.newdata && a.verdict == GoOn
    ensures var out := Poll(c, a).out;
      && Tick(c, a).out == out && !Poll(c, a).conn.stopped
      && out.Some? && out.value.ack && out.value.ackno == c.rcvNxt && out.value.wnd == 512
  {
  }
}
