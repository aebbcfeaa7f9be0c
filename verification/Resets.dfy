/** When a reset closes a connection that the socket layer serves, and what becomes of it when it does not. */
module Resets {
  import opened Machine
  import opened Callback
  import opened SocketModel
  import opened TcpEngine
  import opened TcpTimers
  import opened TcpNetwork
  import opened Delivery

  /** Nothing is written that a close still waits for. */
  predicate ResetSafe(v: View) {
    !(v.close && v.output.blocks != [])
  }

  /**
   A reset closes the connection exactly if no close waits for output: else the callback
   stops the flow, and the flag stays.
   */
  lemma ResetClosesExactly(c: Conn, s: Segment, v: View, stored: bool, rtt: byte)
    requires v.output.Ok() && s.rst
    ensures Input(c, s, ClientAnswer(v, NONE.(aborted := true), [], stored), rtt).conn.IsClosed() <==> ResetSafe(v)
  {
  }

  /** The state a reset leaves if a close waits for output: closed, but for the stopped flag. */
  ghost predicate Halted(c: Conn, view: Option<View>) {
    c.state == Closed && c.stopped && view.Some? && !ResetSafe(view.value) && view.value.output.Ok()
  }

  /** Halted with nothing outstanding. */
  ghost predicate Stuck(c: Conn, view: Option<View>) {
    Halted(c, view) && c.len == 0
  }

  lemma ResetHalts(c: Conn, s: Segment, v: View, stored: bool, rtt: byte)
    requires v.output.Ok() && !ResetSafe(v) && s.rst
    ensures var f := NONE.(aborted := true);
      var c' := Input(c, s, ClientAnswer(v, f, [], stored), rtt).conn;
      Halted(c', Some(AppNext(v, f, [], stored))) && c'.len == c.len
  {
  }

  /**
   Only the timer can end a halted connection that has data outstanding, and a late
   acknowledgement of all of them makes it stuck; nothing else that arrives changes it.
   */
  lemma LateAckSticks(h: Host, s: Segment, a: Answer, rtt: byte, stored: bool, spare: Option<nat>, view': Option<View>)
    requires Halted(h.e.conn, h.view) && AnswersFor(h.view, Input(h.e.conn, s, a, rtt), stored, spare, a, view')
    ensures var c' := Input(h.e.conn, s, a, rtt).conn;
      && Halted(c', view') && (h.e.conn.len > 0 ==> Waiting(h.e.conn))
      && (Stuck(c', view') <==> h.e.conn.len == 0 || (!s.rst && !OutOfOrder(h.e.conn, s) && Acks(h.e.conn, s)))
  {
    hide Make;
  }

  lemma StuckInput(h: Host, s: Segment, a: Answer, rtt: byte, stored: bool, spare: Option<nat>, view': Option<View>)
    requires Stuck(h.e.conn, h.view) && AnswersFor(h.view, Input(h.e.conn, s, a, rtt), stored, spare, a, view')
    ensures Stuck(Input(h.e.conn, s, a, rtt).conn, view')
  {
    hide Make;
  }

  lemma StuckTick(h: Host, a: Answer, stored: bool, spare: Option<nat>, view': Option<View>)
    requires Stuck(h.e.conn, h.view)
    ensures Tick(h.e.conn, a).conn == h.e.conn && Tick(h.e.conn, a).call == None
    ensures Poll(h.e.conn, a).conn == h.e.conn && Poll(h.e.conn, a).call == None
  {
  }

  lemma StuckStep(s: Hosts, act: Act, s': Hosts, atA: bool)
    requires HostsInv(s) && Does(s, act, s') && Stuck(s.At(atA).e.conn, s.At(atA).view)
    ensures Stuck(s'.At(atA).e.conn, s'.At(atA).view)
  {
    hide Inv, HostOk, AnswersFor, Stuck, Input, Tick, Poll, Accept, Connect, Refusal, Wrote, Faithful, Meek, Framed;
    var h, h' := s.At(atA), s'.At(atA);
    StuckLive(s, atA);
    match act {
      case Engine(ev, stored, spare) =>
        match ev {
          case Arrival(at, p, a, rtt) =>
            if at == atA { StuckInput(h, p.seg, a, rtt, stored, spare, h'.view); }
          case Timeout(at, a) =>
            if at == atA {
              StuckTick(h, a, stored, spare, h'.view);
              SilentView(h.view, Tick(h.e.conn, a), stored, spare, a, h'.view);
            }
          case PollAt(at, a) =>
            if at == atA {
              StuckTick(h, a, stored, spare, h'.view);
              SilentView(h.view, Poll(h.e.conn, a), stored, spare, a, h'.view);
            }
          case _ =>
        }
      case Write(at, data) =>
        if at == atA { StuckUser(h, h'); }
      case Read(at, _) =>
        if at == atA { StuckUser(h, h'); }
      case Stop(at) =>
        if at == atA { StuckUser(h, h'); }
    }
  }

  lemma SilentView(view: Option<View>, step: Step, stored: bool, spare: Option<nat>, a: Answer, view': Option<View>)
    requires step.call == None && AnswersFor(view, step, stored, spare, a, view')
    ensures view' == view
  {
  }

  lemma StuckLive(s: Hosts, atA: bool)
    requires HostsInv(s) && Stuck(s.At(atA).e.conn, s.At(atA).view)
    ensures s.At(atA).e.live && s.At(atA).view.Some? && s.At(atA).view.value.close
  {
    hide QueueOf;
    EndOk(s, atA);
  }

  lemma StuckUser(h: Host, h': Host)
    requires Stuck(h.e.conn, h.view) && h'.e.conn == h.e.conn && h.view.Some? && h'.view.Some?
    requires h'.view.value.close && h'.view.value.output == h.view.value.output
    ensures Stuck(h'.e.conn, h'.view)
  {
  }

  /** Nothing frees a stuck connection: no segment, tick or poll, and nothing its user may still do. */
  lemma {:induction false} StuckForever(states: seq<Hosts>, acts: seq<Act>, i: nat, j: nat, atA: bool)
    requires HostRun(states, acts) && i <= j < |states| && Stuck(states[i].At(atA).e.conn, states[i].At(atA).view)
    ensures Stuck(states[j].At(atA).e.conn, states[j].At(atA).view) && !states[j].At(atA).e.conn.IsClosed()
    decreases j
  {
    hide Inv, HostOk, Framed, Does;
    if j > i {
      StuckForever(states, acts, i, j - 1, atA);
      HostRunKeeps(states, acts, j - 1);
      assert ActHappens(states, acts, j - 1);
      StuckStep(states[j - 1], acts[j - 1], states[j], atA);
    }
  }
}
