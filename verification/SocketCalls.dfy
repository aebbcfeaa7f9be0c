/** The socket layer's methods, as the steps of a host that the theorems about two hosts speak of. */
module SocketCalls {
  import opened Machine
  import opened Callback
  import opened SocketModel
  import opened TcpEngine
  import opened Delivery
  import C = ClientSockets

  /** The user data attached to connection `c`. */
  ghost function Seen(cs: C.ClientSockets, c: nat): (v: Option<View>)
    requires cs.Valid() && c < cs.appstate.Length
    reads cs, cs.pool, cs.pool.blocks, cs.pool.mem, cs.data, cs.appstate
    ensures v.Some? <==> cs.appstate[c].Some?
    ensures v.Some? ==> cs.appstate[c].value < cs.data.Length && v.value == cs.State()[cs.appstate[c].value]
  {
    if cs.appstate[c].Some? then Some(cs.State()[cs.appstate[c].value]) else None
  }

  /**
   The callback made in `step` gives one of the answers the two-ended system allows, and
   the engine sees that answer.
   */
  method Call(cs: C.ClientSockets, c: nat, ghost step: Step, f: AppFlags, pos: u16, len: u16, lport: u16)
      returns (r: Reply, stored: bool, ghost a: Answer)
    requires cs.Valid() && c < cs.appstate.Length
    requires f.newdata ==> pos + len <= |cs.pool.Received()|
    requires step.call == Some(f) && step.handed == if f.newdata then cs.pool.Received()[pos..pos + len] else []
    modifies cs, cs.pool, cs.pool.blocks, cs.pool.mem, cs.data, cs.appstate
    ensures cs.Valid()
    ensures AnswersFor(old(Seen(cs, c)), step, stored, old(C.FirstFree(cs.data[..], 0)), a, Seen(cs, c))
    ensures a.flow == r.flow && a.newdata == r.newdata && a.verdict == (if r.close then Shut else GoOn)
    ensures |a.data| == r.sendLen && (r.sendLen > 0 ==> cs.Carries(a.data) || cs.Dropped(r.sendLen))
  {
    hide AppNext, AppReply, AfterAck, ClientAnswer, AnswersFor, Leaves, Offered;
    hide C.ClientSockets.Valid, C.ClientSockets.State, C.ClientSockets.Serving, C.ClientSockets.Server;
    ServedBy(cs, c, f);
    ghost var view, served, spare := Seen(cs, c), cs.Serving(c, f), C.FirstFree(cs.data[..], 0);
    r, stored := cs.AppCall(c, f, pos, len, lport);
    a := if served.None? then MUTE else ClientAnswer(served.value, f, step.handed, stored);
    Answers(view, step, f, stored, spare, a, Seen(cs, c));
    if served.Some? { ChunkSent(served.value, f, step.handed, stored); }
  }

  /** The answer in terms of the user data that serve the call. */
  lemma Answers(view: Option<View>, step: Step, f: AppFlags, stored: bool, spare: Option<nat>, a: Answer,
                view': Option<View>)
    requires step.call == Some(f)
    requires match Server(view, f, spare)
      case None => a == MUTE && view' == None
      case Some(v) =>
        && v.output.Ok() && a == ClientAnswer(v, f, step.handed, stored)
        && view' == if Leaves(f) || AppReply(v, f, step.handed, stored).close then None
                    else Some(AppNext(v, f, step.handed, stored))
    ensures AnswersFor(view, step, stored, spare, a, view')
  {
  }

  lemma ServedBy(cs: C.ClientSockets, c: nat, f: AppFlags)
    requires cs.Valid() && c < cs.appstate.Length
    ensures cs.Serving(c, f) == Server(Seen(cs, c), f, C.FirstFree(cs.data[..], 0))
    ensures cs.Serving(c, f).None? ==> Seen(cs, c).None?
  {
    hide C.ClientSockets.Valid, C.ClientSockets.State;
  }

  lemma ChunkSent(v: View, f: AppFlags, data: seq<byte>, stored: bool)
    requires v.output.Ok()
    ensures var r, a := AppReply(v, f, data, stored), ClientAnswer(v, f, data, stored);
      && a.flow == r.flow && a.newdata == r.newdata && a.verdict == (if r.close then Shut else GoOn)
      && |a.data| == r.sendLen && (r.sendLen > 0 ==> a.data == AfterAck(v, f).output.Chunk())
  {
  }

  /** A write that is not refused is the step of a host that writes the bytes reported. */
  method Write(cs: C.ClientSockets, c: nat, buf: seq<byte>) returns (n: int)
    requires cs.Valid() && c < cs.appstate.Length && cs.appstate[c].Some? && |buf| < 0x8000
    modifies cs, cs.pool, cs.pool.blocks, cs.pool.mem, cs.data
    ensures cs.Valid()
    ensures if n < 0 then Seen(cs, c) == old(Seen(cs, c)) && old(Seen(cs, c)).value.close
            else n <= |buf| && WriteView(old(Seen(cs, c)).value, Seen(cs, c).value, buf[..n])
  {
    hide SocketModel.Wrote, C.ClientSockets.State;
    var u := cs.appstate[c].value;
    cs.Facts(u);
    n := cs.Write(u, buf);
  }

  /** A read is the step of a host that reads the bytes returned. */
  method Read(cs: C.ClientSockets, c: nat, size: u16, stopped: bool) returns (bytes: Option<seq<byte>>)
    requires cs.Valid() && c < cs.appstate.Length && cs.appstate[c].Some?
    modifies cs, cs.pool, cs.pool.blocks, cs.data
    ensures cs.Valid() && bytes.Some?
    ensures ReadView(old(Seen(cs, c)).value, Seen(cs, c).value, bytes.value, stopped)
  {
    hide C.ClientSockets.State, C.ReadResult;
    var u := cs.appstate[c].value;
    cs.Facts(u);
    ghost var before := cs.State()[u];
    hide C.ClientSockets.Valid;
    bytes := cs.Read(u, size, stopped);
    ReadSeen(before, cs.State()[u], size, stopped, bytes);
    hide ReadView;
  }

  lemma ReadSeen(v: View, v': View, size: nat, stopped: bool, bytes: Option<seq<byte>>)
    requires C.ReadResult(v, v', size, stopped, bytes) && !v.remoteClosed
    ensures bytes.Some? && ReadView(v, v', bytes.value, stopped)
  {
    hide Concat;
    var total := Concat(v.input);
    assert total == total[..|bytes.value|] + total[|bytes.value|..];
  }

  /** A stop is the step of a host that stops. */
  method Stop(cs: C.ClientSockets, c: nat)
    requires cs.Valid() && c < cs.appstate.Length && cs.appstate[c].Some?
    modifies cs, cs.pool, cs.pool.blocks, cs.data
    ensures cs.Valid() && Seen(cs, c) == Some(StopView(old(Seen(cs, c)).value))
  {
    hide C.ClientSockets.State;
    var u := cs.appstate[c].value;
    cs.Facts(u);
    cs.Stop(u);
  }
}
