/**
 What the user reads: the bytes written on the other host, in order, as long as no
 received block is dropped for lack of memory; and when the flow of data stops and goes on.
 */
module Reading {
  import opened Machine
  import opened Sequence
  import opened Callback
  import opened SocketModel
  import opened TcpEngine
  import opened TcpNetwork
  import opened Delivery

  // ----- one callback

  /** A callback adds to the incoming stream exactly the data it stores, even if it is the last one. */
  lemma InputKept(v: View, f: AppFlags, data: seq<byte>, stored: bool)
    requires v.output.Ok() && (v.close ==> v.input == [])
    ensures Concat(AppNext(v, f, data, stored).input) ==
      Concat(v.input) + if Offered(v, f, data) && stored then data else []
  {
    ConcatSplit(v.input, [data]);
    ConcatOne(data);
    assert Concat(v.input) + [] == Concat(v.input) && Concat([]) == [];
  }

  /**
   When a callback cuts the connection loose, since the peer has closed or the local close
   is complete, the user data are free again exactly if there is nothing left to read; if
   there is, nothing more can be written to them.
   */
  lemma CutLoose(v: View, f: AppFlags, data: seq<byte>, stored: bool)
    requires v.output.Ok() && (v.close ==> v.input == [])
    ensures var v', r := AppNext(v, f, data, stored), AppReply(v, f, data, stored);
      && (r.close <==> v.close && !Leaves(f) && AfterAck(v, f).output.blocks == [])
      && (Leaves(f) || r.close ==>
            && (v' == FREE <==> v'.input == [])
            && (v'.input != [] ==> v'.remoteClosed && v'.connected == v.connected && v'.sock == v.sock))
      && (!Leaves(f) && !r.close ==>
            v' == v.(restart := false, input := v'.input, output := v'.output))
  {
  }

  /** And it takes off the outgoing stream exactly what is acknowledged, unless the connection has ended. */
  lemma OutputKept(v: View, f: AppFlags, data: seq<byte>, stored: bool)
    requires v.output.Ok()
    ensures var o := AppNext(v, f, data, stored).output;
      if Leaves(f) then o.blocks == []
      else o.Ok() && v.output.Bytes() == (if f.acked then v.output.Chunk() else []) + o.Bytes()
  {
    hide AppNext, AfterAck, OutQueue.Sealed, OutQueue.Chunk, OutQueue.Eaten, OutQueue.Bytes, OutQueue.Ok;
    NextOutput(v, f, data, stored);
    if !Leaves(f) {
      var o := if f.acked then v.output.Eaten() else v.output;
      AckedBytes(v.output);
      SealedBytes(o);
      NoBytes(o);
      assert [] + v.output.Bytes() == v.output.Bytes();
    }
  }

  lemma NextOutput(v: View, f: AppFlags, data: seq<byte>, stored: bool)
    requires v.output.Ok()
    ensures var o, o' := if f.acked then v.output.Eaten() else v.output, AppNext(v, f, data, stored).output;
      && o.Ok()
      && if Leaves(f) then o'.blocks == []
         else o' == o || o' == o.Sealed() || (o.blocks == [] && o' == OutQueue([], 0))
  {
    hide OutQueue.Sealed, OutQueue.Eaten;
  }

  lemma NoBytes(o: OutQueue)
    requires o.Ok()
    ensures o.blocks == [] ==> o.Bytes() == []
    ensures OutQueue([], 0).Ok() && OutQueue([], 0).Bytes() == []
  {
  }

  lemma AckedBytes(o: OutQueue)
    requires o.Ok()
    ensures o.Eaten().Ok() && o.Bytes() == o.Chunk() + o.Eaten().Bytes()
  {
    if o.blocks != [] { EatenBytes(o); }
  }

  /**
   Flow control: a connection that takes data has room for them, and a restart is asked
   for only while it is stopped.
   */
  ghost predicate Roomy(stopped: bool, v: View) {
    && |v.input| <= NUMPACKETS && (v.close ==> v.input == [])
    && (!stopped ==> |v.input| < NUMPACKETS && !v.restart)
    && (v.restart ==> |v.input| < NUMPACKETS)
  }

  function StoppedBy(stopped: bool, flow: Flow): bool {
    flow == Halt || (flow == Keep && stopped)
  }

  /** The callback stops the flow when it fills the last slot or finds no memory, and lets it go on once restarted. */
  lemma RoomyCall(stopped: bool, v: View, f: AppFlags, data: seq<byte>, stored: bool)
    requires Roomy(stopped, v) && v.output.Ok() && (Offered(v, f, data) ==> !stopped) && !Leaves(f)
    ensures var a, v' := ClientAnswer(v, f, data, stored), AppNext(v, f, data, stored);
      && Roomy(StoppedBy(stopped, a.flow), v') && !v'.restart
      && (v.restart && !v.close ==> a.flow == Resume && a.newdata)
      && (Offered(v, f, data) ==> (a.flow == Halt <==> !stored || |v'.input| == NUMPACKETS))
  {
  }

  // ----- what the engine does with the answer

  /** While the connection is established: no callback and no change, or one whose answer sets the flow. */
  ghost predicate Passes(c: Conn, step: Step, a: Answer) {
    match step.call
    case None => c.state == Established && step.conn.stopped == c.stopped && step.handed == []
    case Some(f) =>
      && !Leaves(f)
      && step.conn.stopped == StoppedBy(c.state == Established && c.stopped, a.flow)
      && (if c.state == Established then !f.connected else f.connected && (c.state == SynSent || c.state == SynRcvd))
      && (step.handed != [] ==> f.newdata) && (c.state == Established && c.stopped ==> step.handed == [])
  }

  lemma InputPasses(c: Conn, s: Segment, a: Answer, rtt: byte)
    requires Input(c, s, a, rtt).conn.state == Established
    ensures Passes(c, Input(c, s, a, rtt), a)
  {
    hide Make, Add32, Acks, OutOfOrder, AppSend, Passes;
    hide SynRcvdInput, SynSentInput, EstablishedInput, FinWait1Input, FinWait2Input;
    var c1, acked := Acked(c, s, rtt), Acks(c, s);
    if !s.rst && !OutOfOrder(c, s) {
      if c.state == Established {
        EstablishedPasses(c1, s, acked, a);
        SameFlow(c, c1, Input(c, s, a, rtt), a);
      } else if c.state == SynRcvd || c.state == SynSent {
        OpeningPasses(c1, s, acked, a);
        SameFlow(c, c1, Input(c, s, a, rtt), a);
      } else {
        OtherInputs(c, s, a, rtt);
      }
    } else {
      OtherInputs(c, s, a, rtt);
    }
  }

  lemma SameFlow(c: Conn, c1: Conn, step: Step, a: Answer)
    requires c1.state == c.state && c1.stopped == c.stopped
    ensures Passes(c, step, a) <==> Passes(c1, step, a)
  {
  }

  lemma EstablishedPasses(c: Conn, s: Segment, acked: bool, a: Answer)
    requires c.state == Established
    ensures var step := EstablishedInput(c, s, acked, a); step.conn.state == Established ==> Passes(c, step, a)
  {
    hide Make, Payload, Add32, Emit;
  }

  lemma OpeningPasses(c: Conn, s: Segment, acked: bool, a: Answer)
    ensures c.state == SynRcvd ==>
      var step := SynRcvdInput(c, s, acked, a); step.conn.state == Established ==> Passes(c, step, a)
    ensures c.state == SynSent ==>
      var step := SynSentInput(c, s, acked, a); step.conn.state == Established ==> Passes(c, step, a)
  {
    hide Make, Payload, Add32, Emit;
  }

  /** The other states do not lead back to the established one. */
  lemma OtherInputs(c: Conn, s: Segment, a: Answer, rtt: byte)
    requires s.rst || OutOfOrder(c, s) || (c.state != Established && c.state != SynRcvd && c.state != SynSent)
    requires Input(c, s, a, rtt).conn.state == Established
    ensures Passes(c, Input(c, s, a, rtt), a)
  {
    hide Make, Payload, Add32, Acks;
  }

  lemma TickPasses(c: Conn, a: Answer)
    ensures Tick(c, a).conn.state == Established ==> Passes(c, Tick(c, a), a)
    ensures Poll(c, a).conn.state == Established ==> Passes(c, Poll(c, a), a)
    ensures Tick(c, a).handed == [] && Poll(c, a).handed == []
  {
    hide Make, Payload, Emit;
  }

  // ----- what one host keeps

  predicate Opening(e: End) {
    !e.live || e.conn.state == SynSent || e.conn.state == SynRcvd
  }

  /** `read` is what the user has read so far: with what waits to be read it is all that was handed up. */
  ghost predicate Kept(h: Host, read: seq<byte>) {
    && read <= h.e.handed && (Opening(h.e) ==> h.e.handed == [])
    && (h.view.Some? ==>
          && !h.view.value.remoteClosed
          && (h.view.value.close ==> h.view.value.input == [])
          && (!h.view.value.close ==> read + Concat(h.view.value.input) == h.e.handed))
  }

  ghost predicate HasRoom(h: Host) {
    h.view.Some? && h.e.conn.state == Established ==> Roomy(h.e.conn.stopped, h.view.value)
  }

  /** Data are handed up that a user who may still read will not find. */
  ghost predicate Loses(h: Host, h': Host, stored: bool) {
    !stored && h'.e.handed != h.e.handed && h'.view.Some? && !h'.view.value.close
  }

  lemma RoomStep(h: Host, h': Host, step: Step, stored: bool, spare: Option<nat>, a: Answer)
    requires HostReady(h) && HasRoom(h) && AnswersFor(h.view, step, stored, spare, a, h'.view)
    requires h'.e.conn == step.conn && (step.conn.state == Established ==> Passes(h.e.conn, step, a))
    ensures HasRoom(h')
  {
    hide QueueOf, SenderOk, ClientAnswer, AppNext, AppReply, Roomy;
    if h'.view.Some? && step.conn.state == Established && step.call.Some? {
      var v := Server(h.view, step.call.value, spare).value;
      assert Roomy(h.e.conn.state == Established && h.e.conn.stopped, v) by { FreshRoom(v.sock); }
      RoomyCall(h.e.conn.state == Established && h.e.conn.stopped, v, step.call.value, step.handed, stored);
    }
  }

  lemma FreshRoom(sock: nat)
    ensures Roomy(false, Fresh(sock))
  {
  }

  lemma ConcatNone()
    ensures Concat([]) == []
  {
  }

  lemma KeptStep(h: Host, h': Host, step: Step, stored: bool, spare: Option<nat>, a: Answer, read: seq<byte>)
    requires HostReady(h) && Kept(h, read) && AnswersFor(h.view, step, stored, spare, a, h'.view)
    requires h'.e.handed == h.e.handed + step.handed && !Loses(h, h', stored)
    requires step.call.Some? && step.call.value.connected ==>
      h.view.Some? || (h.e.handed == [] && !Leaves(step.call.value))
    requires step.handed != [] ==> step.call.Some? && step.call.value.newdata
    requires Opening(h'.e) ==> h'.e.handed == []
    ensures Kept(h', read)
  {
    hide QueueOf, SenderOk, AppNext, ClientAnswer, AppReply, Concat;
    assert h.e.handed + [] == h.e.handed;
    if h'.view.Some? && step.call.Some? {
      var v, f := Server(h.view, step.call.value, spare).value, step.call.value;
      ConcatNone();
      assert read + Concat(v.input) == h.e.handed || v.close;
      InputKept(v, f, step.handed, stored);
      CloseKept(v, f, step.handed, stored);
      assert h'.view.value.close || (Offered(v, f, step.handed) && stored) || h'.e.handed == h.e.handed;
      assert (read + Concat(v.input)) + step.handed == read + (Concat(v.input) + step.handed);
    }
  }

  lemma CloseKept(v: View, f: AppFlags, data: seq<byte>, stored: bool)
    requires v.output.Ok() && !Leaves(f) && !AppReply(v, f, data, stored).close
    ensures var v' := AppNext(v, f, data, stored);
      v'.close == v.close && v'.remoteClosed == v.remoteClosed && (v.close && v.input == [] ==> v'.input == [])
  {
  }

  /** Data are handed up with a callback that is told of them, and only a connection now open is told so. */
  ghost predicate Tells(c: Conn, step: Step) {
    && (step.handed != [] ==> step.call.Some? && step.call.value.newdata)
    && (step.call.Some? && step.call.value.connected ==>
          (c.state == SynSent || c.state == SynRcvd) && !Leaves(step.call.value))
    && (step.conn.state == SynSent || step.conn.state == SynRcvd ==> step.conn.state == c.state && step.handed == [])
  }

  lemma InputHands(c: Conn, s: Segment, a: Answer, rtt: byte)
    ensures Tells(c, Input(c, s, a, rtt))
  {
    hide Make, Add32, Acks, OutOfOrder, Tells;
    hide SynRcvdInput, SynSentInput, EstablishedInput, FinWait1Input, FinWait2Input;
    if s.rst || OutOfOrder(c, s) || (c.state != Established && c.state != SynRcvd && c.state != SynSent) {
      OtherHands(c, s, a, rtt);
    } else {
      DataHands(c, Acked(c, s, rtt), s, Acks(c, s), a);
    }
  }

  lemma DataHands(c: Conn, c1: Conn, s: Segment, acked: bool, a: Answer)
    requires c1.state == c.state
    ensures c.state == Established ==> Tells(c, EstablishedInput(c1, s, acked, a))
    ensures c.state == SynRcvd ==> Tells(c, SynRcvdInput(c1, s, acked, a))
    ensures c.state == SynSent ==> Tells(c, SynSentInput(c1, s, acked, a))
  {
    hide Make, Payload, Add32, Emit;
  }

  lemma OtherHands(c: Conn, s: Segment, a: Answer, rtt: byte)
    requires s.rst || OutOfOrder(c, s) || (c.state != Established && c.state != SynRcvd && c.state != SynSent)
    ensures Tells(c, Input(c, s, a, rtt))
  {
    hide Make, Payload, Add32, Acks;
  }

  lemma TickHands(c: Conn, a: Answer)
    ensures forall step :: step == Tick(c, a) || step == Poll(c, a) ==>
      && step.handed == [] && (step.call.Some? ==> !step.call.value.connected)
      && (step.conn.state == SynSent || step.conn.state == SynRcvd ==> step.conn.state == c.state)
  {
    hide Make, Payload, Emit;
  }

  // ----- over every run

  /** The bytes the user at one end has read. */
  function ReadBy(acts: seq<Act>, atA: bool): seq<byte> {
    if acts == [] then []
    else
      var last := acts[|acts| - 1];
      ReadBy(acts[..|acts| - 1], atA) + if last.Read? && last.atA == atA then last.got else []
  }

  ghost predicate LosesIn(s: Hosts, act: Act, s': Hosts, atA: bool) {
    act.Engine? && Loses(s.At(atA), s'.At(atA), act.stored)
  }

  /** The event is one of the connection at this end. */
  predicate Here(ev: Event, atA: bool) {
    match ev
    case Arrival(at, _, _, _) => at == atA
    case Timeout(at, _) => at == atA
    case PollAt(at, _) => at == atA
    case _ => false
  }

  /** What the engine's event at this end does, as one step of it. */
  lemma EngineStep(s: Hosts, ev: Event, stored: bool, spare: Option<nat>, s': Hosts, atA: bool)
      returns (step: Step, a: Answer)
    requires HostsInv(s) && Does(s, Engine(ev, stored, spare), s')
    requires Here(ev, atA)
    ensures HostReady(s.At(atA)) && AnswersFor(s.At(atA).view, step, stored, spare, a, s'.At(atA).view)
    ensures var e, e' := s.At(atA).e, s'.At(atA).e;
      && e'.conn == step.conn && e'.handed == e.handed + step.handed && e'.live
      && (step.conn.state == Established ==> Passes(e.conn, step, a))
      && (step.handed != [] ==> step.call.Some? && step.call.value.newdata)
      && (step.call.Some? && step.call.value.connected ==> Opening(e) && !Leaves(step.call.value))
      && (Opening(e') ==> Opening(e) && step.handed == [])
  {
    hide HostOk, AnswersFor, SenderOk, ReceiverOk, PacketOk, Framed, Passes, Input, Tick, Poll;
    var e := s.At(atA).e;
    EndOk(s, atA);
    match ev {
      case Arrival(at, p, b, rtt) =>
        step, a := Input(e.conn, p.seg, b, rtt), b;
        InputHands(e.conn, p.seg, b, rtt);
        if step.conn.state == Established { InputPasses(e.conn, p.seg, b, rtt); }
      case Timeout(at, b) =>
        step, a := Tick(e.conn, b), b;
        TickHands(e.conn, b);
        TickPasses(e.conn, b);
      case PollAt(at, b) =>
        step, a := Poll(e.conn, b), b;
        TickHands(e.conn, b);
        TickPasses(e.conn, b);
    }
  }

  /** An event that makes no callback at this end. */
  lemma OtherStep(s: Hosts, ev: Event, stored: bool, spare: Option<nat>, s': Hosts, atA: bool)
    requires HostsInv(s) && Does(s, Engine(ev, stored, spare), s')
    requires !Here(ev, atA)
    ensures s'.At(atA).view == s.At(atA).view && s'.At(atA).e.handed == s.At(atA).e.handed
    ensures s'.At(atA).e == s.At(atA).e || (s.At(atA).view == None && !s.At(atA).e.live)
  {
    hide SenderOk, ReceiverOk, PacketOk, Framed, QueueOf, AnswersFor, Input, Tick, Poll, Connect, Accept, Refusal;
  }

  lemma OtherKeeps(h: Host, h': Host, read: seq<byte>)
    requires HasRoom(h) && h'.view == h.view && h'.e.handed == h.e.handed
    requires h'.e == h.e || (h.view == None && !h.e.live)
    ensures HasRoom(h') && (Kept(h, read) ==> Kept(h', read))
  {
    hide Roomy;
  }

  /** Writing, reading and stopping. */
  lemma UserKeeps(h: Host, h': Host, act: Act, read: seq<byte>)
    requires HasRoom(h) && h'.e == h.e && h.view.Some? && h'.view.Some?
    requires match act
      case Write(_, data) => WriteView(h.view.value, h'.view.value, data)
      case Read(_, got) => ReadView(h.view.value, h'.view.value, got, h.e.conn.stopped)
      case Stop(_) => h'.view.value == StopView(h.view.value)
      case _ => false
    ensures HasRoom(h')
    ensures Kept(h, read) ==> Kept(h', read + if act.Read? then act.got else [])
  {
    hide Wrote, Concat;
    ConcatNone();
    assert read + [] == read;
    if act.Read? {
      assert (read + act.got) + Concat(h'.view.value.input) == read + (act.got + Concat(h'.view.value.input));
      if |h.view.value.input| == 0 { assert h.view.value.input == [] && h'.view.value.input == []; }
    }
  }

  lemma OpeningEmpty(h: Host, read: seq<byte>)
    requires Kept(h, read)
    ensures Opening(h.e) ==> h.e.handed == []
  {
  }

  lemma ReadingStep(s: Hosts, act: Act, s': Hosts, atA: bool, read: seq<byte>)
    requires HostsInv(s) && Does(s, act, s') && HasRoom(s.At(atA))
    ensures HasRoom(s'.At(atA))
    ensures Kept(s.At(atA), read) && !LosesIn(s, act, s', atA) ==>
      Kept(s'.At(atA), read + if act.Read? && act.atA == atA then act.got else [])
  {
    hide HostOk, AnswersFor, SenderOk, ReceiverOk, PacketOk, Framed, Roomy, Kept, HostsInv, Moves, Serves;
    var h, h' := s.At(atA), s'.At(atA);
    assert read + [] == read;
    if act.Engine? {
      if Here(act.ev, atA) {
        var step, a := EngineStep(s, act.ev, act.stored, act.spare, s', atA);
        RoomStep(h, h', step, act.stored, act.spare, a);
        if Kept(h, read) && !Loses(h, h', act.stored) {
          OpeningEmpty(h, read);
          KeptStep(h, h', step, act.stored, act.spare, a, read);
        }
      } else {
        OtherStep(s, act.ev, act.stored, act.spare, s', atA);
        OtherKeeps(h, h', read);
      }
    } else if act.atA == atA {
      UserKeeps(h, h', act, read);
    }
  }

  lemma {:induction false} RoomAlways(states: seq<Hosts>, acts: seq<Act>, i: nat, atA: bool)
    requires HostRun(states, acts) && i < |states|
    ensures HasRoom(states[i].At(atA))
  {
    hide Inv, HostOk, Framed, Does, HasRoom;
    if i == 0 {
      StartsKept(states[0], atA);
    } else {
      RoomAlways(states, acts, i - 1, atA);
      HostRunKeeps(states, acts, i - 1);
      assert ActHappens(states, acts, i - 1);
      ReadingStep(states[i - 1], acts[i - 1], states[i], atA, []);
    }
  }

  lemma StartsKept(s: Hosts, atA: bool)
    requires Starts(s)
    ensures HasRoom(s.At(atA)) && Kept(s.At(atA), [])
  {
    assert s.Engines().At(atA) == s.At(atA).e;
  }

  /**
   Over every run of two hosts, a connection that takes data has a slot for them, so
   that data are dropped for lack of memory only.
   */
  lemma RoomWhileOpen(states: seq<Hosts>, acts: seq<Act>, i: nat, atA: bool)
    requires HostRun(states, acts) && i < |states|
    requires var h := states[i].At(atA); h.view.Some? && h.e.conn.state == Established && !h.e.conn.stopped
    ensures |states[i].At(atA).view.value.input| < NUMPACKETS
  {
    RoomAlways(states, acts, i, atA);
  }

  lemma {:induction false} KeptAlways(states: seq<Hosts>, acts: seq<Act>, i: nat, atA: bool)
    requires HostRun(states, acts) && i < |states|
    requires forall k :: 0 <= k < i ==> !LosesIn(states[k], acts[k], states[k + 1], atA)
    ensures Kept(states[i].At(atA), ReadBy(acts[..i], atA))
  {
    hide Inv, HostOk, Framed, Does, HasRoom, Kept, LosesIn;
    if i == 0 {
      StartsKept(states[0], atA);
    } else {
      KeptAlways(states, acts, i - 1, atA);
      RoomAlways(states, acts, i - 1, atA);
      HostRunKeeps(states, acts, i - 1);
      assert ActHappens(states, acts, i - 1);
      ReadingStep(states[i - 1], acts[i - 1], states[i], atA, ReadBy(acts[..i - 1], atA));
      assert acts[..i][..i - 1] == acts[..i - 1] && acts[..i][i - 1] == acts[i - 1];
      assert ReadBy(acts[..i], atA) ==
        ReadBy(acts[..i - 1], atA) + if acts[i - 1].Read? && acts[i - 1].atA == atA then acts[i - 1].got else [];
    }
  }

  /**
   Over every run of two hosts in which no data are dropped for lack of memory, the
   bytes read on one host are the first ones written on the other, and what waits to be
   read makes them all that was handed up.
   */
  lemma ReadIsWritten(states: seq<Hosts>, acts: seq<Act>, i: nat, atA: bool)
    requires HostRun(states, acts) && i < |states|
    requires forall k :: 0 <= k < i ==> !LosesIn(states[k], acts[k], states[k + 1], atA)
    ensures ReadBy(acts[..i], atA) <= states[i].At(!atA).written
    ensures var h := states[i].At(atA);
      h.view.Some? && !h.view.value.close ==> ReadBy(acts[..i], atA) + Concat(h.view.value.input) == h.e.handed
  {
    KeptAlways(states, acts, i, atA);
    WrittenIsDelivered(states, acts, i);
    PrefixTwice(ReadBy(acts[..i], atA), states[i].At(atA).e.handed, states[i].At(!atA).written);
  }

  lemma PrefixTwice(a: seq<byte>, b: seq<byte>, c: seq<byte>)
    requires a <= b <= c
    ensures a <= c
  {
  }
}
