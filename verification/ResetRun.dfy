/** A run of two hosts in which a late reset meets a close that waits for output, and the connection is stuck. */
module ResetRun {
  import opened Machine
  import opened Callback
  import opened SocketModel
  import opened TcpEngine
  import opened TcpNetwork
  import opened Delivery
  import opened TcpRun
  import opened DeliveryRun
  import opened Resets

  /** B's answer to a SYN that arrives before it listens. */
  const RESET: Packet := Packet(false, Segment(false, true, false, true, false, 0, 8, RECEIVE_WINDOW, None, []), 0, 0)

  /** The engines' stage; the refusal falls between A's SYN and B's passive open. */
  function OpenStage(n: nat): System {
    if n <= 3 then Stage(n)
    else
      var s := Stage(if n == 4 then 3 else if n == 5 then 4 else 5);
      System(if n <= 8 then s.a else s.a.(conn := s.a.conn.(state := Closed, stopped := true)), s.b, s.net + {RESET})
  }

  function UserView(n: nat): Option<View> {
    if n <= 5 then None
    else if n == 6 then Some(SocketModel.Fresh(0))
    else if n == 7 then Some(SocketModel.Fresh(0).(output := OutQueue([Block()], 1)))
    else Some(SocketModel.Fresh(0).(output := OutQueue([Block()], 1), close := true))
  }

  function ResetStage(n: nat): Hosts {
    var s := OpenStage(n);
    Hosts(Host(s.a, UserView(n), if n <= 6 then [] else [42]), Host(s.b, None, []), s.net)
  }

  const HALTING: Answer := Answer(Halt, false, GoOn, [])

  function ActOf(n: nat): Act {
    match n
    case 3 => Engine(Refused(false, SYN), true, Some(0))
    case 4 => Engine(PassiveOpen(SYN), true, Some(0))
    case 5 => Engine(Arrival(true, SYNACK, SILENCE, RTO), true, Some(0))
    case 6 => Write(true, [42])
    case 7 => Stop(true)
    case 8 => Engine(Arrival(true, RESET, HALTING, RTO), true, Some(0))
    case _ => Engine(Occurs(n), true, Some(0))
  }

  lemma CallSteps(n: nat)
    requires n < 3
    ensures Does(ResetStage(n), ActOf(n), ResetStage(n + 1))
  {
    Opens(n);
  }

  lemma RefuseStep()
    ensures Does(ResetStage(3), ActOf(3), ResetStage(4))
  {
  }

  lemma ListenStep()
    ensures Does(ResetStage(4), ActOf(4), ResetStage(5))
  {
  }

  /** One more segment on the network makes no difference to an arrival. */
  lemma WiderNet(s: System, ev: Event, s': System, p: Packet)
    requires Moves(s, ev, s') && ev.Arrival?
    ensures Moves(s.(net := s.net + {p}), ev, s'.(net := s'.net + {p}))
  {
    hide Input, Receive;
    var out := Input(s.At(ev.atA).conn, ev.p.seg, ev.answer, ev.rtt).out;
    var e' := Receive(s.At(ev.atA), ev.p.seg, ev.answer, ev.rtt);
    assert s.With(ev.atA, e', out).net + {p} == s.(net := s.net + {p}).With(ev.atA, e', out).net;
  }

  lemma WiderStages()
    ensures ResetStage(5) == HostStage(4).(net := HostStage(4).net + {RESET})
    ensures ResetStage(6) == HostStage(5).(net := HostStage(5).net + {RESET})
    ensures ActOf(5) == Engine(Occurs(4), true, Some(0)) && Occurs(4).Arrival?
    ensures HostStage(4).Engines() == Stage(4) && HostStage(5).Engines() == Stage(5)
    ensures HostStage(4).a.written == HostStage(5).a.written && HostStage(4).b.written == HostStage(5).b.written
  {
  }

  lemma AnswerStep()
    ensures Does(ResetStage(5), ActOf(5), ResetStage(6))
  {
    hide Stage, HostStage, ResetStage, Occurs, ActOf, Next, Moves, AnswersFor, Input, Receive;
    WiderStages();
    Answers();
    NextMoves(Stage(4), Occurs(4), Stage(5));
    DeliveryRun.AnswerStep();
    WiderNet(Stage(4), Occurs(4), Stage(5), RESET);
  }

  lemma UserSteps()
    ensures Does(ResetStage(6), ActOf(6), ResetStage(7)) && Does(ResetStage(7), ActOf(7), ResetStage(8))
  {
    var o, o' := OutQueue([], 0), OutQueue([Block()], 1);
    assert Concat([]) == [] && o'.blocks[..0] == [];
    assert o'.Bytes() == [42] == o.Bytes() + [42];
  }

  lemma ResetStep()
    ensures Does(ResetStage(8), ActOf(8), ResetStage(9))
    ensures Stuck(ResetStage(9).a.e.conn, ResetStage(9).a.view)
  {
  }

  lemma ShortStage(n: nat)
    requires n <= 9
    ensures Short(ResetStage(n).Engines())
  {
  }

  /** Stopping a connection right after writing to it is all it takes. */
  lemma StuckHappens() returns (states: seq<Hosts>, acts: seq<Act>)
    ensures HostRun(states, acts)
    ensures var h := states[|acts|].a; Stuck(h.e.conn, h.view) && h.written == [42] && h.e.una == 1
  {
    hide Does, Short, Initial, Stage, Occurs, OpenStage;
    states, acts := seq(10, n requires 0 <= n < 10 => ResetStage(n)), seq(9, n requires 0 <= n < 9 => ActOf(n));
    StartStage();
    hide ResetStage, ActOf;
    CallSteps(0);
    CallSteps(1);
    CallSteps(2);
    RefuseStep();
    ListenStep();
    AnswerStep();
    UserSteps();
    ResetStep();
    forall n | 0 <= n < 9 ensures ActHappens(states, acts, n) {
      ShortStage(n + 1);
    }
  }

  lemma StartStage()
    ensures Starts(ResetStage(0)) && ResetStage(9).a.written == [42] && ResetStage(9).a.e.una == 1
  {
    Ends();
  }
}
