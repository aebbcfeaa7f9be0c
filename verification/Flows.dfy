/**
 What a host sends when it may, and when a stopped flow of data goes on: exactly if
 there is something left to read.
 */
module Flows {
  import opened Machine
  import opened Callback
  import opened SocketModel
  import opened TcpEngine
  import opened TcpNetwork
  import opened Delivery
  import opened Reading
  import opened TcpRun
  import opened DeliveryRun

  // ----- what goes out

  /**
   Whatever is written goes out with the next poll, by the timer or between its ticks,
   once nothing is outstanding.
   */
  lemma ReadyIsSent(h: Host, step: Step, a: Answer, stored: bool, spare: Option<nat>, view': Option<View>)
    requires HostReady(h) && h.e.conn.state == Established && h.e.conn.len == 0
    requires h.view.Some? && h.view.value.output.Ok() && h.view.value.output.Ready() > 0
    requires step == Tick(h.e.conn, a) || step == Poll(h.e.conn, a)
    requires AnswersFor(h.view, step, stored, spare, a, view')
    ensures step.out.Some? && step.out.value.data == h.view.value.output.Chunk() != []
    ensures step.conn.len == |h.view.value.output.Chunk()|
  {
    hide HostReady, AnswersFor, AppSend;
    var f := NONE.(poll := true);
    assert step == AppSend(h.e.conn, f, a, []);
    AppSendCalls(h.e.conn, f, a, []);
    ChunkAnswered(h.view, step, f, stored, spare, a, view');
    PollGoesOut(h, a, stored, spare, view');
    SentLength(h, a, stored, spare, view');
  }

  lemma ChunkAnswered(view: Option<View>, step: Step, f: AppFlags, stored: bool, spare: Option<nat>, a: Answer,
                      view': Option<View>)
    requires AnswersFor(view, step, stored, spare, a, view') && step.call == Some(f) && view.Some?
    requires !f.acked && !Leaves(f) && (f.poll || f.rexmit)
    requires view.value.output.Ok() && view.value.output.Ready() > 0
    ensures a.data == view.value.output.Chunk() != []
  {
  }

  lemma SentLength(h: Host, a: Answer, stored: bool, spare: Option<nat>, view': Option<View>)
    requires HostReady(h) && h.e.conn.state == Established && h.e.conn.len == 0 && a.data != []
    requires AnswersFor(h.view, AppSend(h.e.conn, NONE.(poll := true), a, []), stored, spare, a, view')
    ensures AppSend(h.e.conn, NONE.(poll := true), a, []).conn.len == |a.data|
  {
    hide HostOk, SenderOk, QueueOf, AnswersFor, Emit, Make;
    var f := NONE.(poll := true);
    CallingNow(h, f);
    AppSendCalls(h.e.conn, f, a, []);
    ChunkAsked(h.view, AppSend(h.e.conn, f, a, []), f, stored, spare, a, view');
    SentQueue(0, h.e.submitted, h.view.value.output, h.written);
  }

  /** What is outstanding goes out again, whole, at the end of each wait. */
  lemma OutstandingIsSentAgain(h: Host, a: Answer, stored: bool, spare: Option<nat>, view': Option<View>)
    requires HostReady(h) && h.e.conn.state == Established && h.e.conn.len > 0
    requires h.e.conn.timer == 0 && h.e.conn.nrtx < 8
    requires AnswersFor(h.view, Tick(h.e.conn, a), stored, spare, a, view')
    ensures h.e.conn.len <= |h.e.submitted|
    ensures var out := Tick(h.e.conn, a).out;
      out.Some? && out.value.data == h.e.submitted[|h.e.submitted| - h.e.conn.len..]
  {
    hide HostOk, SenderOk, QueueOf, AnswersFor;
    var f := NONE.(rexmit := true);
    InFlight(h);
    CallingNow(h, f);
    ResentQueue(h.e.conn.len, h.e.submitted, h.view.value.output, h.written);
    ChunkAnswered(h.view, Tick(h.e.conn, a), f, stored, spare, a, view');
    ResendGoesOut(h, a, stored, spare, view');
  }

  // ----- the flow of incoming data

  /** A restart asked for goes out with the next poll: the window is open again, and the flow goes on. */
  lemma RestartReopens(h: Host, step: Step, a: Answer, stored: bool, spare: Option<nat>, view': Option<View>)
    requires HostReady(h) && h.e.conn.state == Established && h.e.conn.len == 0
    requires h.view.Some? && h.view.value.output.Ok() && h.view.value.restart && !h.view.value.close
    requires step == Tick(h.e.conn, a) || step == Poll(h.e.conn, a)
    requires AnswersFor(h.view, step, stored, spare, a, view')
    ensures !step.conn.stopped && view'.Some? && !view'.value.restart && view'.value.input == h.view.value.input
    ensures step.out.Some? && step.out.value.ack && step.out.value.wnd == 512 && step.out.value.ackno == h.e.conn.rcvNxt
  {
    hide HostReady, QueueOf;
  }

  /** Stopped, with nothing to read whose reading would ask for a restart. */
  predicate Deaf(h: Host) {
    && h.e.conn.state == Established && h.e.conn.stopped
    && h.view.Some? && h.view.value.input == [] && !h.view.value.restart && !h.view.value.remoteClosed
  }

  /**
   A connection that takes data is left deaf exactly if there is no memory for them and
   nothing else is left to read.
   */
  lemma DeafensExactly(v: View, f: AppFlags, data: seq<byte>, stored: bool)
    requires v.output.Ok() && Roomy(false, v) && Offered(v, f, data) && !Leaves(f)
    ensures var a, v' := ClientAnswer(v, f, data, stored), AppNext(v, f, data, stored);
      StoppedBy(false, a.flow) && v'.input == [] && !v'.restart <==> !stored && v.input == []
  {
  }

  lemma DeafCall(v: View, f: AppFlags, data: seq<byte>, stored: bool)
    requires v.output.Ok() && v.input == [] && !v.restart && !Leaves(f) && !Offered(v, f, data)
    ensures var a, v' := ClientAnswer(v, f, data, stored), AppNext(v, f, data, stored);
      StoppedBy(true, a.flow) && v'.input == [] && !v'.restart
    ensures !AppReply(v, f, data, stored).close ==> AppNext(v, f, data, stored).remoteClosed == v.remoteClosed
  {
  }

  lemma DeafStep(s: Hosts, act: Act, s': Hosts, atA: bool)
    requires HostsInv(s) && Does(s, act, s') && Deaf(s.At(atA)) && s'.At(atA).e.conn.state == Established
    ensures s'.At(atA).view.Some? ==> Deaf(s'.At(atA))
    ensures s'.At(atA).e.conn.stopped && s'.At(atA).e.handed == s.At(atA).e.handed
  {
    hide HostOk, AnswersFor, SenderOk, ReceiverOk, PacketOk, Framed, HostsInv, Moves, Serves, Wrote, Concat;
    var h, h' := s.At(atA), s'.At(atA);
    if act.Engine? {
      if Here(act.ev, atA) {
        var step, a := EngineStep(s, act.ev, act.stored, act.spare, s', atA);
        DeafAnswer(h, h', step, act.stored, act.spare, a);
      } else {
        OtherStep(s, act.ev, act.stored, act.spare, s', atA);
      }
    }
  }

  lemma DeafAnswer(h: Host, h': Host, step: Step, stored: bool, spare: Option<nat>, a: Answer)
    requires Deaf(h) && AnswersFor(h.view, step, stored, spare, a, h'.view) && Passes(h.e.conn, step, a)
    requires h'.e.conn == step.conn && step.conn.state == Established && h'.e.handed == h.e.handed + step.handed
    ensures (h'.view.Some? ==> Deaf(h')) && h'.e.conn.stopped && h'.e.handed == h.e.handed
  {
    hide ClientAnswer, AppNext, AppReply;
    assert h.e.handed + [] == h.e.handed;
    if step.call.Some? {
      DeafCall(h.view.value, step.call.value, step.handed, stored);
    }
  }

  /** As long as the connection is established no poll, segment, read or write makes it take data again. */
  lemma {:induction false} DeafForever(states: seq<Hosts>, acts: seq<Act>, i: nat, j: nat, atA: bool)
    requires HostRun(states, acts) && i <= j < |states| && Deaf(states[i].At(atA))
    requires forall k :: i <= k <= j ==> states[k].At(atA).e.conn.state == Established && states[k].At(atA).view.Some?
    ensures Deaf(states[j].At(atA)) && states[j].At(atA).e.handed == states[i].At(atA).e.handed
    decreases j
  {
    hide Inv, HostOk, Framed, Does, Deaf;
    if i < j {
      DeafForever(states, acts, i, j - 1, atA);
      HostRunKeeps(states, acts, j - 1);
      assert ActHappens(states, acts, j - 1);
      DeafStep(states[j - 1], acts[j - 1], states[j], atA);
    }
  }

  // ----- a run to the deaf state

  /** The run of delivery up to the arrival of the data, for which there then is no memory. */
  function DeafStage(n: nat): Hosts {
    if n <= 8 then HostStage(n)
    else
      var s := HostStage(8);
      var e := s.b.e.(conn := s.b.e.conn.(stopped := true, rcvNxt := 9), rcvd := 2, handed := [42]);
      var ack := Packet(false, Segment(false, true, false, false, false, 0, 9, 0, None, []), 1, 2);
      Hosts(s.a, s.b.(e := e), s.net + {ack})
  }

  function DeafAct(n: nat): Act {
    if n <= 7 then ActAt(n) else Engine(Arrival(false, DATA, Answer(Halt, false, GoOn, []), RTO), false, Some(0))
  }

  lemma DroppedStep()
    ensures Does(DeafStage(8), DeafAct(8), DeafStage(9))
  {
    assert [] + [42 as byte] == [42];
  }

  lemma DroppedStage()
    ensures Deaf(DeafStage(9).b) && Short(DeafStage(9).Engines())
  {
  }

  /** One byte that arrives when there is no memory is all it takes. */
  lemma DeafHappens() returns (states: seq<Hosts>, acts: seq<Act>)
    ensures HostRun(states, acts) && Deaf(states[|acts|].b)
  {
    hide Does, Stage, Occurs, Short, Initial;
    states, acts := seq(10, n requires 0 <= n < 10 => DeafStage(n)), seq(9, n requires 0 <= n < 9 => DeafAct(n));
    Ends();
    DroppedStep();
    DroppedStage();
    hide HostStage, ActAt, Deaf;
    forall n | 0 <= n < 9 ensures ActHappens(states, acts, n) {
      if n < 8 { HostStep(n); }
    }
  }
}
