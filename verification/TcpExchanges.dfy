/** Whole exchanges in which nothing is lost: the three segments that open a connection, and those that close it. */
module TcpExchanges {
  import opened Machine
  import opened Sequence
  import opened Callback
  import opened TcpEngine

  /** Neither end has anything outstanding, and each expects what the other sends next. */
  ghost predicate Settled(a: Conn, b: Conn) {
    a.len == 0 && b.len == 0 && a.sndNxt == b.rcvNxt && b.sndNxt == a.rcvNxt
  }

  const IDLE: Answer := Answer(Keep, false, GoOn, [])

  lemma AddOne(n: u32, m: u32)
    ensures Add32(n, 1) != n && Add32(m, 1) != m
  {
  }

  /** SYN, SYN with acknowledgement, acknowledgement: from any two slots, both ends are connected and settled. */
  lemma OpensBothEnds(slotA: Conn, issA: u32, slotB: Conn, issB: u32, rtt: byte)
      returns (waiting: Step, syn: Step, synack: Step, ack: Step, last: Step)
    ensures waiting == Tick(Connect(slotA, issA), IDLE) && waiting.out == None
    ensures syn == Tick(waiting.conn, IDLE)
    ensures syn.out.Some? && syn.out.value.OnlySyn() && syn.out.value.seqno == issA
    ensures synack == Accept(slotB, syn.out.value, issB)
    ensures synack.out.Some? && synack.out.value.OnlySynAck()
    ensures ack == Input(syn.conn, synack.out.value, IDLE, rtt)
    ensures ack.out.Some? && ack.call.Some? && ack.call.value.connected && ack.conn.state == Established
    ensures last == Input(synack.conn, ack.out.value, IDLE, rtt)
    ensures last.call.Some? && last.call.value.connected && last.conn.state == Established
    ensures Settled(ack.conn, last.conn) && !ack.conn.stopped && !last.conn.stopped
    ensures ack.conn.sndNxt == Add32(issA, 1) && last.conn.sndNxt == Add32(issB, 1)
    ensures ack.conn.mss == ack.conn.initialmss == 512 && last.conn.mss == last.conn.initialmss == 512
  {
    AddOne(issA, issB);
    waiting := Tick(Connect(slotA, issA), IDLE);
    syn := Tick(waiting.conn, IDLE);
    synack := Accept(slotB, syn.out.value, issB);
    ack := Input(syn.conn, synack.out.value, IDLE, rtt);
    last := Input(synack.conn, ack.out.value, IDLE, rtt);
  }

  /** One end closes, the other follows: FIN, FIN with acknowledgement, acknowledgement. */
  lemma ClosesBothEnds(a: Conn, b: Conn, shut: Answer, told: Answer, answer: Answer, rtt: byte)
      returns (fin: Step, finack: Step, ack: Step, last: Step)
    requires a.state == Established && b.state == Established && Settled(a, b) && !b.stopped
    requires shut.verdict == Shut && told.flow != Halt
    ensures fin == Poll(a, shut) && fin.out.Some? && fin.conn.state == FinWait1
    ensures finack == Input(b, fin.out.value, answer, rtt)
    ensures finack.out.Some? && finack.conn.state == LastAck && finack.call.Some? && finack.call.value.closed
    ensures ack == Input(fin.conn, finack.out.value, told, rtt)
    ensures ack.out.Some? && ack.conn.state == TimeWait && ack.call.Some? && ack.call.value.closed && !ack.conn.stopped
    ensures last == Input(finack.conn, ack.out.value, told, rtt)
    ensures last.out == None && last.call.Some? && last.call.value.closed && last.conn.IsClosed()
    ensures ack.conn.len == 0 && ack.conn.timer == 0 && Settled(ack.conn, last.conn)
  {
    hide Flowed;
    AddOne(a.sndNxt, b.sndNxt);
    FlowedNumbers(a, shut);
    fin := Poll(a, shut);
    FlowedNumbers(b.(rcvNxt := Add32(b.rcvNxt, 1)), answer);
    finack := Input(b, fin.out.value, answer, rtt);
    FinAnswered(fin.conn, finack.out.value, told, rtt);
    ack := Input(fin.conn, finack.out.value, told, rtt);
    LastAcknowledged(finack.conn, ack.out.value, told, rtt);
    last := Input(finack.conn, ack.out.value, told, rtt);
  }

  lemma FlowedNumbers(c: Conn, a: Answer)
    ensures Flowed(c, a) == c.(stopped := Flowed(c, a).stopped)
    ensures a.flow != Halt && !c.stopped ==> Flowed(c, a) == c
  {
  }

  /** A FIN that acknowledges one's own, in order. */
  lemma FinAnswered(c: Conn, s: Segment, told: Answer, rtt: byte)
    requires c.state == FinWait1 && c.len == 1 && s.fin && s.data == [] && !s.syn && !s.rst && told.flow != Halt
    requires s.seqno == c.rcvNxt && Acks(c, s)
    ensures var ack := Input(c, s, told, rtt);
      && ack.out.Some? && ack.conn.state == TimeWait && ack.call == Some(NONE.(closed := true)) && !ack.conn.stopped
      && ack.conn.len == 0 && ack.conn.timer == 0
      && ack.conn.sndNxt == Add32(c.sndNxt, 1) && ack.conn.rcvNxt == Add32(c.rcvNxt, 1)
      && ack.out.value.ack && ack.out.value.ackno == ack.conn.rcvNxt && ack.out.value.seqno == ack.conn.sndNxt
      && !ack.out.value.rst && !ack.out.value.syn && !ack.out.value.fin && ack.out.value.data == []
  {
  }

  lemma LastAcknowledged(c: Conn, s: Segment, told: Answer, rtt: byte)
    requires c.state == LastAck && Acks(c, s) && !s.rst && !s.syn && !s.fin && s.data == [] && told.flow != Halt
    ensures var last := Input(c, s, told, rtt);
      && last.out == None && last.call == Some(NONE.(closed := true)) && last.conn.IsClosed() && last.conn.len == 0
      && last.conn.sndNxt == s.ackno && last.conn.rcvNxt == c.rcvNxt
  {
  }

  /** Both ends close at the same time: each answers the other's FIN, and both linger. */
  lemma ClosesCrossing(a: Conn, b: Conn, shut: Answer, told: Answer, rtt: byte)
      returns (fin: Step, fin': Step, ack: Step, ack': Step, last: Step, last': Step)
    requires a.state == Established && b.state == Established && Settled(a, b)
    requires shut.verdict == Shut && told.flow != Halt
    ensures fin == Poll(a, shut) && fin' == Poll(b, shut) && fin.out.Some? && fin'.out.Some?
    ensures ack == Input(fin.conn, fin'.out.value, told, rtt) && ack' == Input(fin'.conn, fin.out.value, told, rtt)
    ensures ack.conn.state == Closing && ack'.conn.state == Closing && ack.out.Some? && ack'.out.Some?
    ensures last == Input(ack.conn, ack'.out.value, IDLE, rtt) && last' == Input(ack'.conn, ack.out.value, IDLE, rtt)
    ensures last.conn.state == TimeWait && last'.conn.state == TimeWait && Settled(last.conn, last'.conn)
    ensures last.out == None && last'.out == None
  {
    hide Flowed;
    AddOne(a.sndNxt, b.sndNxt);
    FlowedNumbers(a, shut);
    FlowedNumbers(b, shut);
    fin, fin' := Poll(a, shut), Poll(b, shut);
    FinCrossed(fin.conn, fin'.out.value, told, rtt);
    FinCrossed(fin'.conn, fin.out.value, told, rtt);
    ack, ack' := Input(fin.conn, fin'.out.value, told, rtt), Input(fin'.conn, fin.out.value, told, rtt);
    CrossingAcknowledged(ack.conn, ack'.out.value, rtt);
    CrossingAcknowledged(ack'.conn, ack.out.value, rtt);
    last, last' := Input(ack.conn, ack'.out.value, IDLE, rtt), Input(ack'.conn, ack.out.value, IDLE, rtt);
  }

  lemma FinCrossed(c: Conn, s: Segment, told: Answer, rtt: byte)
    requires c.state == FinWait1 && c.len == 1 && s.fin && s.data == [] && !s.syn && !s.rst && told.flow != Halt
    requires s.seqno == c.rcvNxt && !Acks(c, s)
    ensures var ack := Input(c, s, told, rtt);
      && ack.out.Some? && ack.conn.state == Closing && ack.call == Some(NONE.(closed := true)) && !ack.conn.stopped
      && ack.conn.len == 1 && ack.conn.sndNxt == c.sndNxt && ack.conn.rcvNxt == Add32(c.rcvNxt, 1)
      && ack.out.value.ack && ack.out.value.ackno == ack.conn.rcvNxt
      && !ack.out.value.rst && !ack.out.value.syn && !ack.out.value.fin && ack.out.value.data == []
  {
  }

  lemma CrossingAcknowledged(c: Conn, s: Segment, rtt: byte)
    requires c.state == Closing && Acks(c, s) && !s.rst && !s.syn && !s.fin && s.data == []
    ensures var last := Input(c, s, IDLE, rtt);
      && last.conn.state == TimeWait && last.out == None && last.conn.len == 0 && last.conn.timer == 0
      && last.conn.sndNxt == s.ackno && last.conn.rcvNxt == c.rcvNxt && !last.conn.stopped
  {
  }

  /**
   An end whose FIN alone is acknowledged waits for the other's, answers it, and
   lingers; data in between are acknowledged.
   */
  lemma HalfClosed(c: Conn, s: Segment, told: Answer, rtt: byte)
    requires !s.rst && !s.syn && told.flow != Halt && (s.data != [] || s.fin ==> s.seqno == c.rcvNxt)
    ensures c.state == FinWait1 && Acks(c, s) && !s.fin ==>
      var c' := Input(c, s, told, rtt).conn; c'.state == FinWait2 && c'.len == 0 && !c'.stopped
    ensures (c.state == FinWait1 && !Acks(c, s)) || c.state == FinWait2 ==>
      var step := Input(c, s, told, rtt);
      && step.conn.rcvNxt == Add32(c.rcvNxt, |s.data| + if s.fin then 1 else 0)
      && (s.data != [] || s.fin ==> step.out.Some? && step.out.value.ack && step.out.value.ackno == step.conn.rcvNxt)
      && (s.fin <==> step.call == Some(NONE.(closed := true)))
      && step.conn.state == (if !s.fin then c.state else if c.state == FinWait1 then Closing else TimeWait)
  {
    hide Acks;
    AddTwice(c.rcvNxt, |s.data|);
  }

  lemma AddTwice(n: u32, k: nat)
    ensures Add32(Add32(n, k), 1) == Add32(n, k + 1) && Add32(n, 0) == n
  {
  }
}
