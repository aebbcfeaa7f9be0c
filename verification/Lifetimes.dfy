/**
 The sockets never stop the flow of a connection that is given up, so silence closes
 every waiting connection for good.
 */
module Lifetimes {
  import opened Machine
  import opened Callback
  import opened SocketModel
  import opened TcpEngine
  import opened TcpTimers
  import opened TcpNetwork
  import opened Delivery

  /** Told of a timeout, the callback leaves the stopped flag alone or clears it. */
  lemma TimedOutFlows(view: Option<View>, step: Step, stored: bool, spare: Option<nat>, a: Answer, view': Option<View>)
    requires AnswersFor(view, step, stored, spare, a, view') && step.call == Some(NONE.(timedout := true))
    ensures a.flow != Halt
  {
  }

  /** The last tick of a lifetime gives the connection up, unless it is in one of the final states. */
  lemma LastTick(c: Conn, a: Answer)
    requires Sane(c) && Waiting(c) && Lifetime(c) == 1
    ensures c.state == FinWait2 || c.state == TimeWait || Tick(c, a).call == Some(NONE.(timedout := true))
  {
  }

  /** A timer tick of one end. */
  predicate TicksAt(act: Act, atA: bool) {
    act.Engine? && act.ev.Timeout? && act.ev.atA == atA
  }

  /** A segment that reaches one end. */
  predicate ReachesAt(act: Act, atA: bool) {
    act.Engine? && act.ev.Arrival? && act.ev.atA == atA
  }

  function TicksIn(acts: seq<Act>, atA: bool): nat {
    if acts == [] then 0
    else TicksIn(acts[..|acts| - 1], atA) + if TicksAt(acts[|acts| - 1], atA) then 1 else 0
  }

  /** What becomes of a live connection in a step that brings it no segment. */
  lemma SilentStep(s: Hosts, act: Act, s': Hosts, atA: bool)
    requires HostsInv(s) && Does(s, act, s') && s.At(atA).e.live && !ReachesAt(act, atA)
    ensures s'.At(atA).e.live
    ensures var c, c' := s.At(atA).e.conn, s'.At(atA).e.conn;
      if TicksAt(act, atA) then
        && c' == Tick(c, act.ev.answer).conn
        && (Tick(c, act.ev.answer).call == Some(NONE.(timedout := true)) ==> act.ev.answer.flow != Halt)
      else Waiting(c) || c.IsClosed() ==> c' == c
  {
    hide HostOk, SenderOk, ReceiverOk, PacketOk, Framed, QueueOf, Tick;
    hide AnswersFor, Receive, Input, Accept, Connect, Refusal;
    if TicksAt(act, atA) {
      var h := s.At(atA);
      if Tick(h.e.conn, act.ev.answer).call == Some(NONE.(timedout := true)) {
        TimedOutFlows(h.view, Tick(h.e.conn, act.ev.answer), act.stored, act.spare, act.ev.answer, s'.At(atA).view);
      }
    } else if !act.Engine? {
      UserStep(s, act, s');
      assert s'.Engines().At(atA) == s.Engines().At(atA);
    }
  }

  lemma ClosedTick(c: Conn, a: Answer)
    requires c.IsClosed()
    ensures Tick(c, a).conn == c
  {
  }

  /**
   Over every run of two hosts: a waiting connection that no segment reaches keeps its
   state for as many ticks of its timer as its lifetime has, less one, and is closed,
   flag and all, from then on, whatever its user and the other host do.
   */
  lemma {:induction false} SilenceCloses(states: seq<Hosts>, acts: seq<Act>, i: nat, j: nat, atA: bool)
    requires HostRun(states, acts) && i <= j < |states|
    requires states[i].At(atA).e.live && Waiting(states[i].At(atA).e.conn)
    requires forall k :: i <= k < j ==> !ReachesAt(acts[k], atA)
    ensures var c, c', n := states[i].At(atA).e.conn, states[j].At(atA).e.conn, TicksIn(acts[i..j], atA);
      && states[j].At(atA).e.live
      && (n < Lifetime(c) ==> c'.state == c.state && Sane(c') && Waiting(c') && Lifetime(c') == Lifetime(c) - n)
      && (n < Lifetime(c) ==> !c'.IsClosed())
      && (n >= Lifetime(c) ==> c'.IsClosed())
    decreases j
  {
    hide Inv, HostOk, Framed, Does, Tick, Sane, Lifetime;
    if i == j {
      HostRunSane(states, acts, i, atA);
      OneTick(states[i].At(atA).e.conn, MUTE);
    } else {
      SilenceCloses(states, acts, i, j - 1, atA);
      HostRunKeeps(states, acts, j - 1);
      assert ActHappens(states, acts, j - 1);
      SilentStep(states[j - 1], acts[j - 1], states[j], atA);
      assert acts[i..j][..j - 1 - i] == acts[i..j - 1] && acts[i..j][j - 1 - i] == acts[j - 1];
      var c := states[j - 1].At(atA).e.conn;
      if TicksAt(acts[j - 1], atA) {
        SilentTick(c, acts[j - 1].ev.answer);
      }
    }
  }

  /** One tick for the run above. */
  lemma SilentTick(c: Conn, a: Answer)
    requires c.IsClosed() || (Sane(c) && Waiting(c) && !c.IsClosed())
    requires Tick(c, a).call == Some(NONE.(timedout := true)) ==> a.flow != Halt
    ensures var c' := Tick(c, a).conn;
      if c.IsClosed() || Lifetime(c) <= 1 then c'.IsClosed()
      else c'.state == c.state && Sane(c') && Waiting(c') && !c'.IsClosed() && Lifetime(c') == Lifetime(c) - 1
  {
    hide Tick, Sane, Lifetime;
    if c.IsClosed() {
      ClosedTick(c, a);
    } else {
      OneTick(c, a);
      if Lifetime(c) == 1 { LastTick(c, a); }
    }
  }
}
