/**
 The stop-and-wait TCP engine for one connection: one outstanding segment,
 in-order acceptance, exact acknowledgements, exponential backoff.
 */
module TcpEngine {
  import opened Machine
  import opened Sequence
  import opened Callback

  const RTO: byte := 3
  const MAXRTX: byte := 8
  const MAXSYNRTX: byte := 5
  const TIME_WAIT_TIMEOUT: byte := 120
  const TCP_MSS: u16 := 512
  const RECEIVE_WINDOW: u16 := 512

  datatype TcpState =
    Closed | SynRcvd | SynSent | Established | FinWait1 | FinWait2 | Closing | TimeWait | LastAck

  datatype Conn = Conn(
    state: TcpState, stopped: bool, sndNxt: u32, rcvNxt: u32, len: u16,
    mss: u16, initialmss: u16, rto: byte, timer: byte, nrtx: byte)
  {
    /** The state byte is that of a closed connection, flags included. */
    predicate IsClosed() {
      state == Closed && !stopped
    }
  }

  datatype Segment = Segment(
    syn: bool, ack: bool, fin: bool, rst: bool, psh: bool,
    seqno: u32, ackno: u32, wnd: u16, mss: Option<u16>, data: seq<byte>)
  {
    predicate OnlySyn() {
      syn && !ack && !fin && !rst && !psh
    }

    predicate OnlySynAck() {
      syn && ack && !fin && !rst && !psh
    }
  }

  /**
   One step: the new state, the callback made if any, the segment sent if any, the
   bytes handed up, the bytes newly taken on.
   */
  datatype Step = Step(conn: Conn, call: Option<AppFlags>, out: Option<Segment>, handed: seq<byte>, taken: seq<byte>)

  // ----- segments

  function Make(c: Conn, syn: bool, ack: bool, fin: bool, rst: bool, psh: bool, data: seq<byte>): Segment {
    Segment(syn, ack, fin, rst, psh, c.sndNxt, c.rcvNxt, if c.stopped then 0 else RECEIVE_WINDOW,
            if syn then Some(TCP_MSS) else None, data)
  }

  function PureAck(c: Conn): Segment {
    Make(c, false, true, false, false, false, [])
  }

  function FinAck(c: Conn): Segment {
    Make(c, false, true, true, false, false, [])
  }

  function RstAck(c: Conn): Segment {
    Make(c, false, true, false, true, false, [])
  }

  function SynAck(c: Conn): Segment {
    Make(c, true, true, false, false, false, [])
  }

  function Syn(c: Conn): Segment {
    Make(c, true, false, false, false, false, [])
  }

  /** `n` bytes of the send buffer, which starts with `data`; what lies behind is left open as zeros. */
  function Payload(data: seq<byte>, n: nat): (p: seq<byte>)
    ensures |p| == n
  {
    if n <= |data| then data[..n] else data + seq(n - |data|, _ => 0)
  }

  function Data(c: Conn, data: seq<byte>): Segment {
    Make(c, false, true, false, false, true, Payload(data, c.len))
  }

  /** The refusal of segment `s` where no connection takes it; resets are never answered. */
  function Refusal(s: Segment): Option<Segment> {
    if s.rst then None
    else Some(Segment(false, true, false, true, false, s.ackno, Add32(s.seqno, 1), s.wnd, None, []))
  }

  // ----- the callback's effect

  function Flowed(c: Conn, a: Answer): Conn {
    match a.flow
    case Keep => c
    case Halt => c.(stopped := true)
    case Resume => c.(stopped := false)
  }

  /** Sends what there is: the outstanding data, or an acknowledgement when asked to. */
  function Emit(c: Conn, a: Answer, newdata: bool): Option<Segment> {
    if |a.data| > 0 && c.len > 0 then Some(Data(c, a.data))
    else if newdata || a.newdata then Some(PureAck(c))
    else None
  }

  /** After a callback with flags `f` on an established connection. */
  function AppSend(c0: Conn, f: AppFlags, a: Answer, handed: seq<byte>): Step {
    var c := Flowed(c0, a);
    match a.verdict
    case Abort =>
      var c' := c.(state := Closed, stopped := false);
      Step(c', Some(f), Some(RstAck(c')), handed, [])
    case Shut =>
      var c' := c.(state := FinWait1, stopped := false, len := 1, nrtx := 0);
      Step(c', Some(f), Some(FinAck(c')), handed, [])
    case GoOn =>
      var n := Min(|a.data|, c.mss);
      var c' := c.(len := if c.len == 0 then n else c.len, nrtx := 0);
      Step(c', Some(f), Emit(c', a, f.newdata), handed, if c.len == 0 then a.data[..n] else [])
  }

  // ----- incoming segments

  predicate Acks(c: Conn, s: Segment) {
    s.ack && c.len > 0 && s.ackno == Add32(c.sndNxt, c.len)
  }

  /**
   An acknowledgement of all outstanding data advances `sndNxt`; `rtt` is the new
   estimate, used unless this was a retransmission.
   */
  function Acked(c: Conn, s: Segment, rtt: byte): Conn {
    if Acks(c, s) then
      var rto := if c.nrtx == 0 then rtt else c.rto;
      c.(sndNxt := s.ackno, len := 0, rto := rto, timer := rto)
    else c
  }

  /** Data, SYN or FIN at any other sequence number than the next one expected. */
  predicate OutOfOrder(c: Conn, s: Segment) {
    && !(c.state == SynSent && s.OnlySynAck())
    && (|s.data| > 0 || s.syn || s.fin)
    && s.seqno != c.rcvNxt
  }

  function Quiet(c: Conn): Step {
    Step(c, None, None, [], [])
  }

  function Answered(c: Conn): Step {
    Step(c, None, Some(PureAck(c)), [], [])
  }

  function Input(c0: Conn, s: Segment, a: Answer, rtt: byte): Step {
    if s.rst then
      Step(Flowed(c0.(state := Closed, stopped := false), a), Some(NONE.(aborted := true)), None, [], [])
    else if OutOfOrder(c0, s) then
      Answered(c0)
    else
      var c := Acked(c0, s, rtt);
      var acked := Acks(c0, s);
      match c.state
      case Closed => Quiet(c)
      case SynRcvd => SynRcvdInput(c, s, acked, a)
      case SynSent => SynSentInput(c, s, acked, a)
      case Established => EstablishedInput(c, s, acked, a)
      case LastAck =>
        if acked then
          Step(Flowed(c.(state := Closed, stopped := false), a), Some(NONE.(closed := true)), None, [], [])
        else Quiet(c)
      case FinWait1 => FinWait1Input(c, s, acked, a)
      case FinWait2 => FinWait2Input(c, s, a)
      case TimeWait => Answered(c)
      case Closing =>
        Quiet(if acked then c.(state := TimeWait, stopped := false, timer := 0) else c)
  }

  function SynRcvdInput(c: Conn, s: Segment, acked: bool, a: Answer): Step {
    if acked then
      var c' := c.(state := Established, stopped := false, len := 0, rcvNxt := Add32(c.rcvNxt, |s.data|));
      AppSend(c', NONE.(connected := true, newdata := |s.data| > 0), a, s.data)
    else Quiet(c)
  }

  function SynSentInput(c: Conn, s: Segment, acked: bool, a: Answer): Step {
    if acked && s.OnlySynAck() then
      var offer := match s.mss case Some(m) => Min(m, TCP_MSS) case None => c.initialmss;
      var limit := match s.mss case Some(m) => Min(m, TCP_MSS) case None => c.mss;
      var c' := c.(state := Established, stopped := false, len := 0, rcvNxt := Add32(s.seqno, 1),
                   initialmss := offer, mss := limit);
      AppSend(c', NONE.(connected := true, newdata := true), a, [])
    else
      Step(Flowed(c, a).(state := Closed, stopped := false), Some(NONE.(aborted := true)), Refusal(s), [], [])
  }

  function EstablishedInput(c: Conn, s: Segment, acked: bool, a: Answer): Step {
    if s.fin && !c.stopped then
      if c.len > 0 then Quiet(c)
      else
        var c1 := Flowed(c.(rcvNxt := Add32(c.rcvNxt, 1 + |s.data|)), a);
        var c' := c1.(len := 1, state := LastAck, stopped := false, nrtx := 0);
        Step(c', Some(NONE.(acked := acked, closed := true, newdata := |s.data| > 0)), Some(FinAck(c')), s.data, [])
    else
      var take := |s.data| > 0 && !c.stopped;
      var c' := c.(rcvNxt := if take then Add32(c.rcvNxt, |s.data|) else c.rcvNxt,
                   mss := if s.wnd > c.initialmss || s.wnd == 0 then c.initialmss else s.wnd);
      if take || acked then
        AppSend(c', NONE.(acked := acked, newdata := take), a, if take then s.data else [])
      else Quiet(c')
  }

  function FinWait1Input(c: Conn, s: Segment, acked: bool, a: Answer): Step {
    var c' := c.(rcvNxt := Add32(c.rcvNxt, |s.data|));
    if s.fin then
      var c1 := if acked then c'.(state := TimeWait, stopped := false, timer := 0, len := 0)
                else c'.(state := Closing, stopped := false);
      var c2 := Flowed(c1.(rcvNxt := Add32(c1.rcvNxt, 1)), a);
      Step(c2, Some(NONE.(closed := true)), Some(PureAck(c2)), [], [])
    else if acked then Quiet(c'.(state := FinWait2, stopped := false, len := 0))
    else if |s.data| > 0 then Answered(c')
    else Quiet(c')
  }

  function FinWait2Input(c: Conn, s: Segment, a: Answer): Step {
    var c' := c.(rcvNxt := Add32(c.rcvNxt, |s.data|));
    if s.fin then
      var c'' := Flowed(c'.(state := TimeWait, stopped := false, timer := 0, rcvNxt := Add32(c'.rcvNxt, 1)), a);
      Step(c'', Some(NONE.(closed := true)), Some(PureAck(c'')), [], [])
    else if |s.data| > 0 then Answered(c')
    else Quiet(c')
  }

  // ----- timer and poll

  predicate GivesUp(c: Conn) {
    c.nrtx == MAXRTX || ((c.state == SynSent || c.state == SynRcvd) && !c.stopped && c.nrtx == MAXSYNRTX)
  }

  /** The backoff after `n` retransmissions: the base timeout doubled at most four times. */
  function Backoff(n: nat): byte {
    match n
    case 0 => RTO
    case 1 => RTO * 2
    case 2 => RTO * 4
    case 3 => RTO * 8
    case _ => RTO * 16
  }

  function Tick(c: Conn, a: Answer): Step {
    if (c.state == TimeWait || c.state == FinWait2) && !c.stopped then
      var timer: byte := (c.timer as int + 1) % 0x100;
      Quiet(if timer == TIME_WAIT_TIMEOUT then c.(timer := timer, state := Closed) else c.(timer := timer))
    else if c.IsClosed() then
      Quiet(c)
    else if c.len > 0 then
      if c.timer > 0 then Quiet(c.(timer := c.timer - 1))
      else if GivesUp(c) then
        var c' := Flowed(c.(timer := 0xff, state := Closed, stopped := false), a);
        Step(c', Some(NONE.(timedout := true)), Some(RstAck(c')), [], [])
      else Retransmit(c.(timer := Backoff(c.nrtx), nrtx := (c.nrtx as int + 1) % 0x100), a)
    else if c.state == Established then
      AppSend(c, NONE.(poll := true), a, [])
    else
      Quiet(c)
  }

  function Retransmit(c: Conn, a: Answer): Step {
    match c.state
    case SynRcvd => Step(c, None, Some(SynAck(c)), [], [])
    case SynSent => Step(c, None, Some(Syn(c)), [], [])
    case Established =>
      var c' := Flowed(c, a);
      Step(c', Some(NONE.(rexmit := true)), Emit(c', a, false), [], [])
    case FinWait1 => Step(c, None, Some(FinAck(c)), [], [])
    case Closing => Step(c, None, Some(FinAck(c)), [], [])
    case LastAck => Step(c, None, Some(FinAck(c)), [], [])
    case _ => Quiet(c)
  }

  function Poll(c: Conn, a: Answer): Step {
    if c.state == Established && c.len == 0 then AppSend(c, NONE.(poll := true), a, []) else Quiet(c)
  }

  // ----- opening

  /** An active open; `rcvNxt` and the mss survive from the slot's last use until the peer answers. */
  function Connect(slot: Conn, iss: u32): Conn {
    slot.(state := SynSent, stopped := false, sndNxt := iss, initialmss := TCP_MSS, mss := TCP_MSS,
          len := 1, nrtx := 0, timer := 1, rto := RTO)
  }

  /** A passive open in answer to a SYN. */
  function Accept(slot: Conn, s: Segment, iss: u32): Step {
    var c := slot.(state := SynRcvd, stopped := false, rto := RTO, timer := RTO, nrtx := 0,
                   sndNxt := iss, len := 1, rcvNxt := Add32(s.seqno, 1),
                   initialmss := match s.mss case Some(m) => Min(m, TCP_MSS) case None => slot.initialmss,
                   mss := match s.mss case Some(m) => Min(m, TCP_MSS) case None => slot.mss);
    Step(c, None, Some(SynAck(c)), [], [])
  }

  // ----- what the engine asks of its callback

  /** A callback told that the peer has closed as well does not stop the flow: the flag would outlive the last wait. */
  predicate Kind(c: Conn, call: Option<AppFlags>, a: Answer) {
    call.Some? && call.value.closed && c.state != Established ==> a.flow != Halt
  }

  /**
   A callback told that an opening connection has failed does not stop the flow: a
   stopped connection has heard from its peer.
   */
  predicate Meek(c: Conn, call: Option<AppFlags>, a: Answer) {
    c.state == SynSent && call.Some? && (call.value.timedout || call.value.aborted) ==> a.flow != Halt
  }

  /**
   With data outstanding, the callback repeats exactly those, or sends nothing, and
   does not close. `last` ends with them.
   */
  predicate Faithful(c: Conn, last: seq<byte>, a: Answer) {
    c.state == Established && 0 < c.len <= |last| ==>
      a.verdict != Shut && (|a.data| > 0 ==> Payload(a.data, c.len) == last[|last| - c.len..])
  }
}
