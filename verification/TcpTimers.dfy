/** Without incoming segments every waiting connection closes, after an exactly known number of timer ticks. */
module TcpTimers {
  import opened Machine
  import opened Callback
  import opened TcpEngine

  function Limit(c: Conn): byte {
    if c.state == SynSent || c.state == SynRcvd then MAXSYNRTX else MAXRTX
  }

  /**
   What the engine keeps over every step: one outstanding number in the SYN and FIN
   states, none once the FIN is acknowledged.
   */
  ghost predicate Sane(c: Conn) {
    && c.nrtx <= Limit(c)
    && (c.state == SynSent || c.state == SynRcvd ==> c.len == 1 && !c.stopped)
    && (c.state == FinWait1 || c.state == Closing || c.state == LastAck ==> c.len == 1)
    && (c.state == FinWait2 || c.state == TimeWait ==> c.len == 0 && !c.stopped)
  }

  lemma ConnectSane(slot: Conn, iss: u32)
    ensures Sane(Connect(slot, iss))
  {
  }

  lemma AcceptSane(slot: Conn, s: Segment, iss: u32)
    ensures Sane(Accept(slot, s, iss).conn)
  {
  }

  lemma InputSane(c: Conn, s: Segment, a: Answer, rtt: byte)
    requires Sane(c) && Kind(c, Input(c, s, a, rtt).call, a)
    ensures Sane(Input(c, s, a, rtt).conn)
  {
    hide AppSend, Make;
    if !s.rst && !OutOfOrder(c, s) {
      var c1, acked := Acked(c, s, rtt), Acks(c, s);
      match c.state {
        case SynRcvd =>
          if acked { EnteredSane(c1, s, a); }
        case SynSent => if acked && s.OnlySynAck() { EnteredSane(c1, s, a); }
        case Established => EstablishedSane(c1, s, acked, a);
        case _ =>
      }
    }
  }

  lemma EnteredSane(c: Conn, s: Segment, a: Answer)
    requires c.nrtx <= MAXRTX
    ensures Sane(SynRcvdInput(c, s, true, a).conn)
    ensures s.OnlySynAck() ==> Sane(SynSentInput(c, s, true, a).conn)
  {
  }

  lemma EstablishedSane(c: Conn, s: Segment, acked: bool, a: Answer)
    requires c.state == Established && c.nrtx <= MAXRTX
    ensures Sane(EstablishedInput(c, s, acked, a).conn)
  {
  }

  lemma TickSane(c: Conn, a: Answer)
    requires Sane(c)
    ensures Sane(Tick(c, a).conn) && Sane(Poll(c, a).conn)
  {
  }

  /** Ticks still to come after retransmission `n`'s wait has begun. */
  function Waits(n: nat, limit: nat): nat
    decreases limit - n
  {
    if n >= limit then 0 else Backoff(n) as int + 1 + Waits(n + 1, limit)
  }

  /**
   In a final state, or with something outstanding; a stopped flag keeps the timer going
   even once the state is closed.
   */
  predicate Waiting(c: Conn) {
    c.state == FinWait2 || c.state == TimeWait || (!c.IsClosed() && c.len > 0)
  }

  /** The number of ticks after which a waiting connection is closed. */
  function Lifetime(c: Conn): nat {
    if c.state == FinWait2 || c.state == TimeWait then
      if c.timer < TIME_WAIT_TIMEOUT then TIME_WAIT_TIMEOUT as int - c.timer as int
      else 0x100 + TIME_WAIT_TIMEOUT as int - c.timer as int
    else c.timer as int + 1 + Waits(c.nrtx, Limit(c))
  }

  function Ticks(c: Conn, answers: seq<Answer>): Conn
    decreases |answers|
  {
    if answers == [] then c else Ticks(Tick(c, answers[0]).conn, answers[1..])
  }

  /** The timeout of a retransmission wait: the next, longer wait begins, or the connection is given up. */
  lemma WaitOver(c: Conn, a: Answer)
    requires Sane(c) && Waiting(c) && c.state != FinWait2 && c.state != TimeWait && c.timer == 0
    ensures var c' := Tick(c, a).conn;
      if c.nrtx == Limit(c) then c'.state == Closed && (c'.IsClosed() <==> a.flow != Halt)
      else
        && c'.state == c.state && c'.len == c.len && c'.timer == Backoff(c.nrtx) && c'.nrtx == c.nrtx as int + 1
        && (c.state != Established ==> c'.stopped == c.stopped)
  {
  }

  /** One tick uses up one unit of the lifetime, and the last one closes. */
  lemma OneTick(c: Conn, a: Answer)
    requires Sane(c) && Waiting(c)
    ensures 0 < Lifetime(c)
    ensures var c' := Tick(c, a).conn;
      if Lifetime(c) == 1 then c'.state == Closed && (c'.IsClosed() <==> EndsClosed(c, a))
      else c'.state == c.state && Sane(c') && Waiting(c') && Lifetime(c') == Lifetime(c) - 1
  {
    if c.state != FinWait2 && c.state != TimeWait && c.timer == 0 {
      WaitOver(c, a);
      hide Tick;
    }
  }

  /**
   What the last tick's callback, if there is one, must not do: stop the flow, which
   leaves the flag on the closed state.
   */
  predicate EndsClosed(c: Conn, last: Answer) {
    c.state == FinWait2 || c.state == TimeWait || last.flow != Halt
  }

  /**
   Whatever the callback answers: still waiting before the lifetime is over, and over
   exactly then. The slot is free for another connection unless the last answer stops the flow.
   */
  lemma {:induction false} ClosesExactly(c: Conn, answers: seq<Answer>)
    requires Sane(c) && Waiting(c)
    ensures |answers| < Lifetime(c) ==> Ticks(c, answers).state == c.state && !Ticks(c, answers).IsClosed()
    ensures |answers| == Lifetime(c) > 0 ==>
      Ticks(c, answers).state == Closed && (Ticks(c, answers).IsClosed() <==> EndsClosed(c, answers[|answers| - 1]))
    decreases |answers|
  {
    OneTick(c, if answers == [] then Answer(Keep, false, GoOn, []) else answers[0]);
    if answers != [] && Lifetime(c) > 1 {
      ClosesExactly(Tick(c, answers[0]).conn, answers[1..]);
    }
  }

  function Power(n: nat): nat {
    if n == 0 then 1 else 2 * Power(n - 1)
  }

  /** A retransmission starts a wait of three ticks, doubled with each one before it, at most four times. */
  lemma RetransmitWaits(c: Conn, a: Answer)
    requires Sane(c) && Waiting(c) && c.state != FinWait2 && c.state != TimeWait && c.timer == 0
    requires c.nrtx < if c.state == SynSent || c.state == SynRcvd then 5 else 8
    ensures var c' := Tick(c, a).conn;
      && c'.timer == 3 * Power(Min(c.nrtx, 4)) && c'.nrtx == c.nrtx as int + 1 && c'.state == c.state
      && c'.len == c.len && c'.sndNxt == c.sndNxt && c'.rcvNxt == c.rcvNxt
  {
    assert Power(0) == 1 && Power(1) == 2 && Power(2) == 4 && Power(3) == 8 && Power(4) == 16;
  }

  /** The waits still to come after `n` retransmissions, if `limit` are made, in ticks. */
  function WaitSum(n: nat, limit: nat): nat
    decreases limit - n
  {
    if n >= limit then 0 else 3 * Power(Min(n, 4)) + 1 + WaitSum(n + 1, limit)
  }

  /** After at most five retransmissions of a SYN, and eight of anything else, a connection is given up. */
  lemma LifetimeExactly(c: Conn)
    requires Sane(c) && Waiting(c)
    ensures Lifetime(c) ==
      if c.state == FinWait2 || c.state == TimeWait then
        (if c.timer < 120 then 120 - c.timer as int else 376 - c.timer as int)
      else c.timer as int + 1 + WaitSum(c.nrtx, if c.state == SynSent || c.state == SynRcvd then 5 else 8)
  {
    WaitsSum(c.nrtx, Limit(c));
  }

  lemma {:induction false} WaitsSum(n: nat, limit: nat)
    ensures Waits(n, limit) == WaitSum(n, limit)
    decreases limit - n
  {
    if n < limit {
      assert Power(0) == 1 && Power(1) == 2 && Power(2) == 4 && Power(3) == 8 && Power(4) == 16;
      WaitsSum(n + 1, limit);
    }
  }

  /** No wait is longer than the timer plus all backoffs; the final states last at most one turn of the 8-bit timer. */
  lemma LifetimeBound(c: Conn)
    requires Sane(c) && Waiting(c)
    ensures Lifetime(c) <= if c.state == FinWait2 || c.state == TimeWait then 256
                           else if c.state == SynSent || c.state == SynRcvd then c.timer as int + 99
                           else c.timer as int + 246
  {
    var limit: nat := Limit(c);
    assert Waits(limit, limit) == 0;
    assert Waits(4, 5) == 49 && Waits(3, 5) == 74 && Waits(2, 5) == 87 && Waits(1, 5) == 94 && Waits(0, 5) == 98;
    assert Waits(7, 8) == 49 && Waits(6, 8) == 98 && Waits(5, 8) == 147 && Waits(4, 8) == 196;
    assert Waits(3, 8) == 221 && Waits(2, 8) == 234 && Waits(1, 8) == 241 && Waits(0, 8) == 245;
  }
}
