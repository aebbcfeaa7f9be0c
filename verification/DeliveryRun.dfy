/** One run of two hosts: the handshake, one byte written, sent, received and acknowledged. */
module DeliveryRun {
  import opened Machine
  import opened SocketModel
  import opened TcpNetwork
  import opened Delivery
  import opened TcpRun

  /** A block with one byte written to it. */
  function Block(): (b: seq<byte>)
    ensures |b| == DATALEN && b[..1] == [42]
  {
    [42] + seq(DATALEN - 1, _ => 0)
  }

  function ViewA(n: nat): Option<View> {
    if n <= 4 then None
    else if n <= 6 then Some(SocketModel.Fresh(0))
    else if n == 7 then Some(SocketModel.Fresh(0).(output := OutQueue([Block()], 1)))
    else if n <= 9 then Some(SocketModel.Fresh(0).(output := OutQueue([[42]], 1)))
    else Some(SocketModel.Fresh(0).(output := OutQueue([], 1)))
  }

  function ViewB(n: nat): Option<View> {
    if n <= 5 then None
    else if n <= 8 then Some(SocketModel.Fresh(0))
    else Some(SocketModel.Fresh(0).(input := [[42]]))
  }

  /** The engines' stage: the write falls between the handshake and the poll. */
  function EngineStage(n: nat): nat {
    if n <= 6 then n else n - 1
  }

  function HostStage(n: nat): Hosts {
    var s := Stage(EngineStage(n));
    Hosts(Host(s.a, ViewA(n), if n <= 6 then [] else [42]), Host(s.b, ViewB(n), []), s.net)
  }

  function ActAt(n: nat): Act {
    if n == 6 then Write(true, [42]) else Engine(Occurs(EngineStage(n)), true, Some(0))
  }

  lemma OpenSteps(n: nat)
    requires n < 4
    ensures Serves(HostStage(n), Occurs(n), true, Some(0), HostStage(n + 1))
  {
  }

  lemma AnswerStep()
    ensures Serves(HostStage(4), Occurs(4), true, Some(0), HostStage(5))
  {
  }

  lemma ConfirmStep()
    ensures Serves(HostStage(5), Occurs(5), true, Some(0), HostStage(6))
  {
  }

  lemma WriteStep()
    ensures Does(HostStage(6), ActAt(6), HostStage(7))
  {
    var o, o' := OutQueue([], 0), OutQueue([Block()], 1);
    assert Concat([]) == [] && o'.blocks[..0] == [];
    assert o'.Bytes() == [42] == o.Bytes() + [42];
  }

  lemma SendStep()
    ensures Serves(HostStage(7), Occurs(6), true, Some(0), HostStage(8))
  {
  }

  lemma ReceiveStep()
    ensures Serves(HostStage(8), Occurs(7), true, Some(0), HostStage(9))
  {
    assert [] + [[42 as byte]] == [[42]];
  }

  lemma AcknowledgeStep()
    ensures Serves(HostStage(9), Occurs(8), true, Some(0), HostStage(10))
  {
    assert OutQueue([[42]], 1).blocks[1..] == [];
  }

  lemma NextMoves(s: System, ev: Event, s': System)
    requires Next(s, ev, s')
    ensures Moves(s, ev, s')
  {
  }

  lemma HostServes(n: nat)
    requires n < 10 && n != 6
    ensures Serves(HostStage(n), Occurs(EngineStage(n)), true, Some(0), HostStage(n + 1))
  {
    hide Serves, HostStage, Occurs;
    if n < 4 { OpenSteps(n); }
    AnswerStep();
    ConfirmStep();
    SendStep();
    ReceiveStep();
    AcknowledgeStep();
  }

  lemma HostEngines(n: nat)
    requires n <= 10
    ensures HostStage(n).Engines() == Stage(EngineStage(n))
    ensures HostStage(n).a.written == (if n <= 6 then [] else [42]) && HostStage(n).b.written == []
  {
    hide Stage;
  }

  lemma HostStep(n: nat)
    requires n < 10
    ensures Does(HostStage(n), ActAt(n), HostStage(n + 1)) && Short(HostStage(n + 1).Engines())
  {
    hide Next, Moves, Serves, HostStage, Stage, Occurs, Short;
    HostEngines(n);
    HostEngines(n + 1);
    if n == 6 {
      WriteStep();
      Steps(5);
    } else {
      var k := EngineStage(n);
      Steps(k);
      NextMoves(Stage(k), Occurs(k), Stage(k + 1));
      HostServes(n);
    }
  }

  /** The hypotheses of the theorems about two hosts are met by a run in which what is written is delivered. */
  lemma WrittenArrives() returns (states: seq<Hosts>, acts: seq<Act>)
    ensures HostRun(states, acts)
    ensures var s := states[|acts|];
      s.a.written == s.b.e.handed == [42] && s.b.view.Some? && s.b.view.value.input == [[42]]
  {
    hide Does, Stage, Occurs, Short, Initial;
    states, acts := seq(11, n requires 0 <= n < 11 => HostStage(n)), seq(10, n requires 0 <= n < 10 => ActAt(n));
    Ends();
    hide HostStage, ActAt;
    forall n | 0 <= n < 10 ensures ActHappens(states, acts, n) {
      HostStep(n);
    }
  }
}
