/**
 A connection as the engine keeps it: fields updated in place, one entry for segments,
 one for the timer, one for polls.
 */
module TcpConnection {
  import opened Machine
  import opened Sequence
  import opened Callback
  import opened TcpEngine

  class TcpConnection {
    var state: TcpState
    var stopped: bool
    var sndNxt: u32
    var rcvNxt: u32
    var len: u16
    var mss: u16
    var initialmss: u16
    var rto: byte
    var timer: byte
    var nrtx: byte

    ghost function View(): Conn
      reads this
    {
      Conn(state, stopped, sndNxt, rcvNxt, len, mss, initialmss, rto, timer, nrtx)
    }

    constructor ()
      ensures View().IsClosed()
    {
      state, stopped, sndNxt, rcvNxt, len, mss, initialmss := Closed, false, 0, 0, 0, 0, 0;
      rto, timer, nrtx := 0, 0, 0;
    }

    /** The header fields every segment of the connection gets. */
    method TcpSend(syn: bool, ack: bool, fin: bool, rst: bool, psh: bool, data: seq<byte>) returns (s: Segment)
      ensures s == Make(View(), syn, ack, fin, rst, psh, data)
    {
      var wnd := RECEIVE_WINDOW;
      if stopped {
        wnd := 0;
      }
      var option := None;
      if syn {
        option := Some(TCP_MSS);
      }
      s := Segment(syn, ack, fin, rst, psh, sndNxt, rcvNxt, wnd, option, data);
    }

    method SetState(s: TcpState)
      modifies `state, `stopped
      ensures state == s && !stopped
    {
      state, stopped := s, false;
    }

    method SetFlow(flow: Flow)
      modifies `stopped
      ensures stopped == match flow case Keep => old(stopped) case Halt => true case Resume => false
    {
      match flow
      case Keep =>
      case Halt => stopped := true;
      case Resume => stopped := false;
    }

    method AddRcvNxt(n: nat)
      modifies `rcvNxt
      ensures rcvNxt == Add32(old(rcvNxt), n)
    {
      rcvNxt := Add32(rcvNxt, n);
    }

    /** Data if there are any, else an acknowledgement if one is due. */
    method AppRexmit(slen: nat, data: seq<byte>, newdata: bool) returns (out: Option<Segment>)
      ensures out == if slen > 0 && len > 0 then Some(Data(View(), data))
                     else if newdata then Some(PureAck(View())) else None
    {
      if slen > 0 && len > 0 {
        var s := TcpSend(false, true, false, false, true, Payload(data, len));
        return Some(s);
      }
      if newdata {
        var s := TcpSend(false, true, false, false, false, []);
        return Some(s);
      }
      return None;
    }

    /** What follows a callback on an established connection. */
    method AppSendPath(f: AppFlags, a: Answer, handed: seq<byte>) returns (out: Option<Segment>, taken: seq<byte>)
      modifies this
      ensures Step(View(), Some(f), out, handed, taken) == AppSend(old(View()), f, a, handed)
    {
      hide Make, Emit, RstAck, FinAck;
      SetFlow(a.flow);
      taken := [];
      if a.verdict == Abort {
        out := AbortConnection();
        return out, taken;
      }
      if a.verdict == Shut {
        out := CloseConnection();
        return out, taken;
      }
      out, taken := SendData(f, a);
    }

    method AbortConnection() returns (out: Option<Segment>)
      modifies `state, `stopped
      ensures state == Closed && !stopped && out == Some(RstAck(View()))
    {
      hide Make;
      SetState(Closed);
      var s := TcpSend(false, true, false, true, false, []);
      out := Some(s);
    }

    method CloseConnection() returns (out: Option<Segment>)
      modifies `state, `stopped, `len, `nrtx
      ensures state == FinWait1 && !stopped && len == 1 && nrtx == 0 && out == Some(FinAck(View()))
    {
      hide Make;
      len := 1;
      SetState(FinWait1);
      nrtx := 0;
      var s := TcpSend(false, true, true, false, false, []);
      out := Some(s);
    }

    /** Takes on new data if none are outstanding, and sends what there is. */
    method SendData(f: AppFlags, a: Answer) returns (out: Option<Segment>, taken: seq<byte>)
      modifies `len, `nrtx
      ensures var n := Min(|a.data|, mss);
        && len == (if old(len) == 0 then n else old(len)) && nrtx == 0
        && out == Emit(View(), a, f.newdata) && taken == if old(len) == 0 then a.data[..n] else []
    {
      hide Make;
      taken := [];
      var slen := |a.data|;
      if slen > 0 {
        if len == 0 {
          if slen > mss {
            slen := mss;
          }
          len := slen;
          taken := a.data[..slen];
        } else {
          slen := len;
        }
      }
      nrtx := 0;
      out := AppRexmit(slen, a.data, f.newdata || a.newdata);
    }

    /**
     An incoming segment; `a` is the callback's answer, should it be called, and `rtt` the
     new retransmission estimate.
     */
    method ProcessInput(s: Segment, a: Answer, rtt: byte)
        returns (call: Option<AppFlags>, out: Option<Segment>, handed: seq<byte>, taken: seq<byte>)
      modifies this
      ensures Step(View(), call, out, handed, taken) == Input(old(View()), s, a, rtt)
    {
      call, out, handed, taken := None, None, [], [];
      if s.rst {
        SetState(Closed);
        SetFlow(a.flow);
        return Some(NONE.(aborted := true)), None, [], [];
      }
      if !(state == SynSent && s.OnlySynAck()) {
        if (|s.data| > 0 || s.syn || s.fin) && s.seqno != rcvNxt {
          var ack := TcpSend(false, true, false, false, false, []);
          return None, Some(ack), [], [];
        }
      }
      var acked := AcceptAck(s, rtt);
      match state {
        case Closed =>
        case SynRcvd => call, out, handed, taken := ProcessSynRcvd(s, a, acked);
        case SynSent => call, out, taken := ProcessSynSent(s, a, acked);
        case Established => call, out, handed, taken := ProcessEstablished(s, a, acked);
        case LastAck =>
          if acked {
            SetState(Closed);
            call := Some(NONE.(closed := true));
            SetFlow(a.flow);
          }
        case FinWait1 => call, out := ProcessFinWait1(s, a, acked);
        case FinWait2 => call, out := ProcessFinWait2(s, a);
        case TimeWait =>
          var ack := TcpSend(false, true, false, false, false, []);
          out := Some(ack);
        case Closing =>
          if acked {
            SetState(TimeWait);
            timer := 0;
          }
      }
    }

    /** Accepts an acknowledgement of exactly the outstanding data. */
    method AcceptAck(s: Segment, rtt: byte) returns (acked: bool)
      modifies `sndNxt, `rto, `timer, `len
      ensures acked == old(Acks(View(), s)) && View() == old(Acked(View(), s, rtt))
    {
      acked := false;
      if s.ack && len > 0 {
        var acc32 := Add32(sndNxt, len);
        if s.ackno == acc32 {
          sndNxt := acc32;
          if nrtx == 0 {
            rto := rtt;
          }
          acked := true;
          timer := rto;
          len := 0;
        }
      }
    }

    method ProcessSynRcvd(s: Segment, a: Answer, acked: bool)
        returns (call: Option<AppFlags>, out: Option<Segment>, handed: seq<byte>, taken: seq<byte>)
      modifies this
      ensures Step(View(), call, out, handed, taken) == SynRcvdInput(old(View()), s, acked, a)
    {
      hide Make, Add32, AppSend;
      AddZero(rcvNxt);
      call, out, handed, taken := None, None, [], [];
      if acked {
        SetState(Established);
        call := Some(NONE.(connected := true, newdata := |s.data| > 0));
        len := 0;
        if |s.data| > 0 {
          AddRcvNxt(|s.data|);
        }
        handed := s.data;
        out, taken := AppSendPath(call.value, a, handed);
      }
    }

    method ProcessSynSent(s: Segment, a: Answer, acked: bool)
        returns (call: Option<AppFlags>, out: Option<Segment>, taken: seq<byte>)
      modifies this
      ensures Step(View(), call, out, [], taken) == SynSentInput(old(View()), s, acked, a)
    {
      hide Make, Add32, AppSend;
      taken := [];
      if acked && s.OnlySynAck() {
        if s.mss.Some? {
          initialmss := if s.mss.value > TCP_MSS then TCP_MSS else s.mss.value;
          mss := initialmss;
        }
        SetState(Established);
        rcvNxt := s.seqno;
        AddRcvNxt(1);
        call := Some(NONE.(connected := true, newdata := true));
        len := 0;
        out, taken := AppSendPath(call.value, a, []);
      } else {
        call := Some(NONE.(aborted := true));
        SetFlow(a.flow);
        SetState(Closed);
        out := Refusal(s);
      }
    }

    method ProcessFinWait1(s: Segment, a: Answer, acked: bool) returns (call: Option<AppFlags>, out: Option<Segment>)
      modifies this
      ensures Step(View(), call, out, [], []) == FinWait1Input(old(View()), s, acked, a)
    {
      hide Make, Add32, AppSend;
      AddZero(rcvNxt);
      call, out := None, None;
      if |s.data| > 0 {
        AddRcvNxt(|s.data|);
      }
      if s.fin {
        if acked {
          SetState(TimeWait);
          timer := 0;
          len := 0;
        } else {
          SetState(Closing);
        }
        AddRcvNxt(1);
        call := Some(NONE.(closed := true));
        SetFlow(a.flow);
        var ack := TcpSend(false, true, false, false, false, []);
        out := Some(ack);
      } else if acked {
        SetState(FinWait2);
        len := 0;
      } else if |s.data| > 0 {
        var ack := TcpSend(false, true, false, false, false, []);
        out := Some(ack);
      }
    }

    method ProcessFinWait2(s: Segment, a: Answer) returns (call: Option<AppFlags>, out: Option<Segment>)
      modifies this
      ensures Step(View(), call, out, [], []) == FinWait2Input(old(View()), s, a)
    {
      hide Make, Add32, AppSend;
      AddZero(rcvNxt);
      call, out := None, None;
      if |s.data| > 0 {
        AddRcvNxt(|s.data|);
      }
      if s.fin {
        SetState(TimeWait);
        timer := 0;
        AddRcvNxt(1);
        call := Some(NONE.(closed := true));
        SetFlow(a.flow);
        var ack := TcpSend(false, true, false, false, false, []);
        out := Some(ack);
      } else if |s.data| > 0 {
        var ack := TcpSend(false, true, false, false, false, []);
        out := Some(ack);
      }
    }

    method ProcessEstablished(s: Segment, a: Answer, acked: bool)
        returns (call: Option<AppFlags>, out: Option<Segment>, handed: seq<byte>, taken: seq<byte>)
      requires state == Established
      modifies this
      ensures Step(View(), call, out, handed, taken) == EstablishedInput(old(View()), s, acked, a)
    {
      hide Make, Add32, AppSend;
      call, out, handed, taken := None, None, [], [];
      if s.fin && !stopped {
        if len > 0 {
          return;
        }
        AddRcvNxt(1 + |s.data|);
        call := Some(NONE.(acked := acked, closed := true, newdata := |s.data| > 0));
        handed := s.data;
        len := 1;
        SetState(LastAck);
        nrtx := 0;
        var fin := TcpSend(false, true, true, false, false, []);
        out := Some(fin);
        return;
      }
      var newdata := false;
      if |s.data| > 0 && !stopped {
        newdata := true;
        AddRcvNxt(|s.data|);
        handed := s.data;
      }
      var wnd := s.wnd;
      if wnd > initialmss || wnd == 0 {
        wnd := initialmss;
      }
      mss := wnd;
      if newdata || acked {
        call := Some(NONE.(acked := acked, newdata := newdata));
        out, taken := AppSendPath(call.value, a, handed);
      }
    }

    /** The periodic timer. */
    method ProcessTimer(a: Answer)
        returns (call: Option<AppFlags>, out: Option<Segment>, handed: seq<byte>, taken: seq<byte>)
      modifies this
      ensures Step(View(), call, out, handed, taken) == Tick(old(View()), a)
    {
      call, out, handed, taken := None, None, [], [];
      if (state == TimeWait || state == FinWait2) && !stopped {
        timer := (timer as int + 1) % 0x100;
        if timer == TIME_WAIT_TIMEOUT {
          SetState(Closed);
        }
      } else if state != Closed || stopped {
        if len > 0 {
          if timer > 0 {
            timer := timer - 1;
            return;
          }
          if nrtx == MAXRTX || ((state == SynSent || state == SynRcvd) && !stopped && nrtx == MAXSYNRTX) {
            timer := 0xff;
            SetState(Closed);
            call := Some(NONE.(timedout := true));
            SetFlow(a.flow);
            var rst := TcpSend(false, true, false, true, false, []);
            return call, Some(rst), [], [];
          }
          timer := Backoff(nrtx);
          nrtx := (nrtx as int + 1) % 0x100;
          call, out := Resend(a);
        } else if state == Established {
          call := Some(NONE.(poll := true));
          out, taken := AppSendPath(call.value, a, []);
        }
      }
    }

    /** Sends the outstanding SYN, data or FIN again. */
    method Resend(a: Answer) returns (call: Option<AppFlags>, out: Option<Segment>)
      modifies `stopped
      ensures Step(View(), call, out, [], []) == Retransmit(old(View()), a)
    {
      call, out := None, None;
      match state {
        case SynRcvd =>
          var s := TcpSend(true, true, false, false, false, []);
          out := Some(s);
        case SynSent =>
          var s := TcpSend(true, false, false, false, false, []);
          out := Some(s);
        case Established =>
          call := Some(NONE.(rexmit := true));
          SetFlow(a.flow);
          out := AppRexmit(|a.data|, a.data, a.newdata);
        case FinWait1 =>
          var s := TcpSend(false, true, true, false, false, []);
          out := Some(s);
        case Closing =>
          var s := TcpSend(false, true, true, false, false, []);
          out := Some(s);
        case LastAck =>
          var s := TcpSend(false, true, true, false, false, []);
          out := Some(s);
        case FinWait2 =>
        case TimeWait =>
        case Closed =>
      }
    }

    /** A poll between timer ticks. */
    method ProcessPoll(a: Answer)
        returns (call: Option<AppFlags>, out: Option<Segment>, handed: seq<byte>, taken: seq<byte>)
      modifies this
      ensures Step(View(), call, out, handed, taken) == Poll(old(View()), a)
    {
      call, out, handed, taken := None, None, [], [];
      if state == Established && len == 0 {
        call := Some(NONE.(poll := true));
        out, taken := AppSendPath(call.value, a, []);
      }
    }
  }
}
