/**
 One run of the two-ended system from the first SYN to delivered and acknowledged
 data: what the theorems speak of does happen.
 */
module TcpRun {
  import opened Machine
  import opened Callback
  import opened TcpEngine
  import opened TcpNetwork

  const SILENCE: Answer := Answer(Keep, false, GoOn, [])
  const SAYING: Answer := Answer(Keep, false, GoOn, [42])

  // A's numbers start at 7, B's at the top of the range, so that they wrap around at once.
  const ISS_A: u32 := 7
  const ISS_B: u32 := 0xffff_ffff

  function Seg(syn: bool, ack: bool, psh: bool, seqno: u32, ackno: u32, data: seq<byte>): Segment {
    Segment(syn, ack, false, false, psh, seqno, ackno, RECEIVE_WINDOW, if syn then Some(TCP_MSS) else None, data)
  }

  const SYN: Packet := Packet(true, Seg(true, false, false, 7, 0, []), 0, 0)
  const SYNACK: Packet := Packet(false, Seg(true, true, false, 0xffff_ffff, 8, []), 0, 1)
  const ACK: Packet := Packet(true, Seg(false, true, false, 8, 0, []), 1, 1)
  const DATA: Packet := Packet(true, Seg(false, true, true, 8, 0, [42]), 1, 1)
  const DATA_ACK: Packet := Packet(false, Seg(false, true, false, 0, 9, []), 1, 2)

  function Idle(active: bool, iss: u32): End {
    End(Conn(Closed, false, 0, 0, 0, 0, 0, 0, 0, 0), false, active, iss, 0, [], 0, [])
  }

  function Calling(timer: byte, nrtx: byte): End {
    End(Conn(SynSent, false, 7, 0, 1, TCP_MSS, TCP_MSS, RTO, timer, nrtx), true, true, ISS_A, 0, [], 0, [])
  }

  function Called(): End {
    End(Conn(SynRcvd, false, 0xffff_ffff, 8, 1, TCP_MSS, TCP_MSS, RTO, RTO, 0), true, false, ISS_B, 0, [], 1, [])
  }

  /** A's end once it is established, with `sent` submitted and `acked` stream numbers acknowledged. */
  function Speaker(sndNxt: u32, len: u16, acked: nat, sent: seq<byte>): End {
    End(Conn(Established, false, sndNxt, 0, len, TCP_MSS, TCP_MSS, RTO, RTO, 0), true, true, ISS_A, acked, sent, 1, [])
  }

  function Listener(rcvNxt: u32, taken: nat, heard: seq<byte>): End {
    End(Conn(Established, false, 0, rcvNxt, 0, TCP_MSS, TCP_MSS, RTO, RTO, 0), true, false, ISS_B, 1, [], taken, heard)
  }

  function Stage(n: nat): System {
    match n
    case 0 => System(Idle(true, ISS_A), Idle(false, ISS_B), {})
    case 1 => System(Calling(1, 0), Idle(false, ISS_B), {})
    case 2 => System(Calling(0, 0), Idle(false, ISS_B), {})
    case 3 => System(Calling(RTO, 1), Idle(false, ISS_B), {SYN})
    case 4 => System(Calling(RTO, 1), Called(), {SYN, SYNACK})
    case 5 => System(Speaker(8, 0, 1, []), Called(), {SYN, SYNACK, ACK})
    case 6 => System(Speaker(8, 0, 1, []), Listener(8, 1, []), {SYN, SYNACK, ACK})
    case 7 => System(Speaker(8, 1, 1, [42]), Listener(8, 1, []), {SYN, SYNACK, ACK, DATA})
    case 8 => System(Speaker(8, 1, 1, [42]), Listener(9, 2, [42]), {SYN, SYNACK, ACK, DATA, DATA_ACK})
    case _ => System(Speaker(9, 0, 2, [42]), Listener(9, 2, [42]), {SYN, SYNACK, ACK, DATA, DATA_ACK})
  }

  function Occurs(n: nat): Event {
    match n
    case 0 => ActiveOpen
    case 1 => Timeout(true, SILENCE)
    case 2 => Timeout(true, SILENCE)
    case 3 => PassiveOpen(SYN)
    case 4 => Arrival(true, SYNACK, SILENCE, RTO)
    case 5 => Arrival(false, ACK, SILENCE, RTO)
    case 6 => PollAt(true, SAYING)
    case 7 => Arrival(false, DATA, SILENCE, RTO)
    case _ => Arrival(true, DATA_ACK, SILENCE, RTO)
  }

  lemma Opens(n: nat)
    requires n < 4
    ensures Next(Stage(n), Occurs(n), Stage(n + 1))
  {
    match n {
      case 0 => assert Next(Stage(0), Occurs(0), Stage(1));
      case 1 => assert Next(Stage(1), Occurs(1), Stage(2));
      case 2 => assert Next(Stage(2), Occurs(2), Stage(3));
      case 3 => assert Next(Stage(3), Occurs(3), Stage(4));
    }
  }

  lemma Answers()
    ensures Next(Stage(4), Occurs(4), Stage(5))
  {
  }

  lemma Confirms()
    ensures Next(Stage(5), Occurs(5), Stage(6))
  {
  }

  lemma Speaks()
    ensures Next(Stage(6), Occurs(6), Stage(7))
  {
    assert SAYING.data[..1] == [42] && [] + [42] == [42];
  }

  lemma Hears()
    ensures Next(Stage(7), Occurs(7), Stage(8))
  {
  }

  lemma Acknowledges()
    ensures Next(Stage(8), Occurs(8), Stage(9))
  {
  }

  lemma Steps(n: nat)
    requires n < 9
    ensures Next(Stage(n), Occurs(n), Stage(n + 1)) && Short(Stage(n + 1))
  {
    hide Next;
    if n < 4 { Opens(n); }
    Answers();
    Confirms();
    Speaks();
    Hears();
    Acknowledges();
  }

  lemma Ends()
    ensures Initial(Stage(0))
    ensures var s := Stage(9); s.b.handed == s.a.submitted == [42] && s.a.una == 2
  {
    assert Stage(0).At(true) == Idle(true, ISS_A) && Stage(0).At(false) == Idle(false, ISS_B);
  }

  /** The hypotheses of the network's theorems are met by a run in which data are delivered and acknowledged. */
  lemma Delivers() returns (states: seq<System>, events: seq<Event>)
    ensures Run(states, events)
    ensures var s := states[|events|]; s.b.handed == s.a.submitted == [42] && s.a.una == 2
  {
    hide Next, Stage, Occurs, Initial, Short;
    states, events := seq(10, n requires 0 <= n < 10 => Stage(n)), seq(9, n requires 0 <= n < 9 => Occurs(n));
    Ends();
    forall n | 0 <= n < 9 ensures Happens(states, events, n) {
      Steps(n);
    }
  }
}
