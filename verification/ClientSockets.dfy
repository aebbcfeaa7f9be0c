/**
 The socket layer over the packet pool: per-connection queues, the callback of the
 protocol engine, and transmission.
 */
module ClientSockets {
  import opened Machine
  import opened ChipMemory
  import opened PoolTable
  import opened PacketPool
  import opened SocketModel
  import opened Callback
  import opened Ownership
  import opened SocketSteps

  const SENDBUFFER_OFFSET: u16 := 1
  const SENDBUFFER_PADDING: u16 := 7
  const HEADER_LEN: u16 := 54
  const ARP_LEN: u16 := 42

  /**
   One entry into the engine for connection `c`, with all that is decided outside the
   socket layer: the callback, if one is made, the frame the engine sends on its own if the
   callback sends nothing, whether the hardware address is known, and whether the transmission succeeds.
   */
  datatype Job = Job(
    c: nat, call: Option<AppFlags>, pos: u16, len: u16, lport: u16,
    reply: u16, buffer: seq<byte>, known: bool, sent: bool)
  {
    /** The length of the frame for one of `len` bytes: for an unknown address a request for it takes its place. */
    function FrameLen(len: u16): u16 {
      if known then len else ARP_LEN
    }

    /** The bytes the callback is told of. */
    function Bytes(received: seq<byte>): seq<byte>
      requires call.Some? && (call.value.newdata ==> pos + len <= |received|)
    {
      if call.value.newdata then received[pos..pos + len] else []
    }
  }

  /** The callback has served view `v`, that of user data `u`, and left the views as they should be. */
  ghost predicate CallDone(v: Option<View>, u: Option<nat>, f: AppFlags, bytes: seq<byte>,
                           before: seq<View>, after: seq<View>, r: Reply, stored: bool)
  {
    match v
    case None => r == SILENT && after == before
    case Some(view) =>
      && u.Some? && u.value < |before| && view.output.Ok()
      && after == before[u.value := AppNext(view, f, bytes, stored)] && r == AppReply(view, f, bytes, stored)
  }

  /** Handle `h` is in slot `i` of one of the queues. */
  ghost predicate InQueues(d: UserData, i: nat, h: nat) {
    || (i < |d.packetsIn| && d.packetsIn[i] == h)
    || (d.Sending() && i < |d.packetsOut| && d.packetsOut[i] == h)
  }

  /** Connections point to distinct user data, each still sending. */
  ghost predicate AppStatesOk(apps: seq<Option<nat>>, data: seq<UserData>) {
    && (forall c :: 0 <= c < |apps| && apps[c].Some? ==> apps[c].value < |data| && data[apps[c].value].Sending())
    && (forall c, e :: 0 <= c < e < |apps| && apps[c].Some? && apps[e].Some? ==> apps[c].value != apps[e].value)
  }

  lemma AppStatesKeep(apps: seq<Option<nat>>, data: seq<UserData>, u: nat, d: UserData)
    requires AppStatesOk(apps, data) && u < |data| && (data[u].Sending() && Some(u) in apps ==> d.Sending())
    ensures AppStatesOk(apps, data[u := d])
  {
  }

  /** No memory for `size` more bytes. */
  ghost predicate Exhausted(m: Pool, slots: nat, capacity: nat, size: nat) {
    !FreeSlot(m, slots) || Footprint(m, slots) + size > capacity
  }

  lemma NoMemory(m: Pool, slots: nat, capacity: nat, size: nat)
    ensures Exhausted(m, slots, capacity, size) <==> !(FreeSlot(m, slots) && Footprint(m, slots) + size <= capacity)
  {
  }

  function FirstFree(data: seq<UserData>, from: nat): (u: Option<nat>)
    requires from <= |data|
    ensures u.Some? ==> from <= u.value < |data| && !data[u.value].InUse()
    ensures u.Some? ==> forall i :: from <= i < u.value ==> data[i].InUse()
    ensures u.None? <==> forall i :: from <= i < |data| ==> data[i].InUse()
    decreases |data| - from
  {
    if from == |data| then None else if !data[from].InUse() then Some(from) else FirstFree(data, from + 1)
  }

  /**
   Besides the input, reading asks for a restart exactly if it uses up a block of a
   stopped connection that neither side has closed, and frees remotely closed user data
   once drained.
   */
  ghost predicate ReadSo(before: View, after: View, stopped: bool) {
    if before.remoteClosed && after.input == [] && before.input != [] then
      after == FREE
    else
      && after == before.(input := after.input, restart := after.restart) && |after.input| <= |before.input|
      && (after.restart <==>
            before.restart
            || (stopped && !before.close && !before.remoteClosed && |after.input| < |before.input|))
  }

  /** A read of at most `size` bytes: `None` only of a closed and drained connection, else the front of the stream. */
  ghost predicate ReadResult(before: View, after: View, size: nat, stopped: bool, bytes: Option<seq<byte>>) {
    && (bytes == None <==> before.remoteClosed && before.input == [])
    && match bytes
       case None => after == before
       case Some(got) =>
         var total := Concat(before.input);
         && |got| == Min(size, |total|) && got == total[..|got|] && Concat(after.input) == total[|got|..]
         && ReadSo(before, after, stopped)
  }

  lemma ReadSoNothing(v: View, stopped: bool)
    ensures ReadSo(v, v, stopped) && [] + Concat(v.input) == Concat(v.input)
    ensures v.input == [] ==> Concat(v.input) == []
  {
  }

  lemma ReadNone(v: View, size: nat, stopped: bool)
    requires v.remoteClosed && v.input == []
    ensures ReadResult(v, v, size, stopped, None)
  {
  }

  lemma ReadDone(before: View, after: View, size: nat, stopped: bool, got: seq<byte>)
    requires got + Concat(after.input) == Concat(before.input) && ReadSo(before, after, stopped)
    requires !(before.remoteClosed && before.input == [])
    requires |got| <= size && (|got| < size ==> after.input == [])
    ensures ReadResult(before, after, size, stopped, Some(got))
  {
  }

  lemma ReadConcat(input: seq<seq<byte>>, input': seq<seq<byte>>, chunk: seq<byte>)
    requires input != [] && chunk <= input[0]
    requires input' == if |chunk| < |input[0]| then input[0 := input[0][|chunk|..]] else input[1..]
    ensures chunk + Concat(input') == Concat(input)
  {
    if |chunk| < |input[0]| {
      assert input'[1..] == input[1..];
      assert chunk + (input[0][|chunk|..] + Concat(input[1..])) == (chunk + input[0][|chunk|..]) + Concat(input[1..]);
      assert chunk + input[0][|chunk|..] == input[0];
    }
  }

  lemma ReadOn(v: View, w: View, w': View, stopped: bool, got: seq<byte>, chunk: seq<byte>)
    requires ReadSo(v, w, stopped) && got + Concat(w.input) == Concat(v.input) && v.input != [] && w.input != []
    requires ReadSo(w, w', stopped) && chunk <= w.input[0]
    requires w'.input == if |chunk| < |w.input[0]| then w.input[0 := w.input[0][|chunk|..]] else w.input[1..]
    ensures ReadSo(v, w', stopped) && (got + chunk) + Concat(w'.input) == Concat(v.input)
  {
    ReadConcat(w.input, w'.input, chunk);
    assert (got + chunk) + Concat(w'.input) == got + (chunk + Concat(w'.input));
  }

  lemma UpdateSameBut(m: Pool, h: nat, bytes: seq<byte>)
    ensures SameBut(m, m[h := bytes], h)
  {
  }

  class ClientSockets {
    const pool: MemoryPool
    const data: array<UserData>
    const appstate: array<Option<nat>>
    var uipPacket: nat
    var sendPacket: bool
    var freePacket: bool
    ghost var owner: map<nat, Field>
    ghost var lost: seq<nat>

    ghost function SendHandle(): nat
      reads this
    {
      if uipPacket == RECEIVE_BUFFER then 0 else uipPacket
    }

    /** The block to send, if one is held, and the ones lost for good. */
    ghost function Sends(): SendBlocks
      reads this
    {
      SendBlocks(SendHandle(), lost)
    }

    ghost predicate Valid()
      reads this, pool, pool.blocks, pool.mem, data, appstate
      ensures Valid() ==> pool.Valid()
    {
      && pool.Valid()
      && SocketsOk(data[..], Sends(), pool.Blocks(), owner)
      && AppStatesOk(appstate[..], data[..])
      && NOBLOCK !in lost
    }

    /** Every connection's user data, as byte strings. */
    ghost function State(): (s: seq<View>)
      requires Valid()
      reads this, pool, pool.blocks, pool.mem, data, appstate
      ensures |s| == data.Length
    {
      Views(data[..], pool.Blocks())
    }

    constructor (pool: MemoryPool, connections: nat)
      requires pool.Valid() && pool.Blocks() == map[]
      ensures Valid() && fresh(data) && fresh(appstate) && this.pool == pool
      ensures data.Length == appstate.Length == connections
      ensures uipPacket == NOBLOCK && !sendPacket && lost == [] && State() == seq(connections, _ => FREE)
      ensures forall c :: 0 <= c < connections ==> appstate[c] == None
    {
      this.pool := pool;
      data := new UserData[connections](_ =>
        UserData(0, false, false, false, false, seq(NUMPACKETS, _ => NOBLOCK), seq(NUMPACKETS, _ => NOBLOCK), 0));
      appstate := new Option<nat>[connections](_ => None);
      uipPacket, sendPacket, freePacket := NOBLOCK, false, false;
      owner, lost := map[], [];
      new;
      forall v | 0 <= v < data.Length ensures UserOk(data[v], map[]) && ViewOf(data[v], map[]) == FREE {
        OccupiedIsUsed(data[v].packetsIn, map[], 0);
      }
    }

    lemma Facts(u: nat)
      requires Valid() && u < data.Length
      ensures UserOk(data[u], pool.Blocks()) && State()[u] == ViewOf(data[u], pool.Blocks())
      ensures var d, v, m := data[u], State()[u], pool.Blocks();
        && |d.packetsIn| == |d.packetsOut| == NUMPACKETS && (d.InUse() ==> d.connected)
        && v == View(d.sock, d.connected, d.close, d.remoteClosed, d.restart, v.input, v.output) && v.output.Ok()
        && |v.input| == Used(d.packetsIn)
        && (forall i :: 0 <= i < |v.input| ==> d.packetsIn[i] in m && v.input[i] == m[d.packetsIn[i]])
        && (d.close || !d.InUse() ==> v.input == [])
        && (!d.Sending() ==> v.output == OutQueue([], 0))
        && (d.Sending() ==>
              && v.output.pos == d.outPos && |v.output.blocks| == Used(d.packetsOut)
              && forall i :: 0 <= i < |v.output.blocks| ==>
                   d.packetsOut[i] in m && v.output.blocks[i] == m[d.packetsOut[i]])
    {
      ViewFacts(data[u], pool.Blocks());
    }

    lemma FirstIn(u: nat)
      requires Valid() && u < data.Length
      ensures |data[u].packetsIn| == NUMPACKETS && (data[u].packetsIn[0] == NOBLOCK <==> State()[u].input == [])
      ensures data[u].remoteClosed == State()[u].remoteClosed && data[u].close == State()[u].close
      ensures UserOk(data[u], pool.Blocks())
    {
      hide UserOk, ViewOf;
      Facts(u);
      QueueEmptyAbove(u);
    }

    /** The last of the `n` occupied slots of a queue, or slot 0. */
    method CurrentBlock(q: seq<nat>, ghost n: nat) returns (p: nat)
      requires n <= |q| == NUMPACKETS && forall i :: 0 <= i < |q| ==> (q[i] != 0 <==> i < n)
      ensures p == if n == 0 then 0 else n - 1
    {
      var i := 1;
      while i < NUMPACKETS
        invariant 1 <= i <= NUMPACKETS && (i == 1 || i <= n)
      {
        if q[i] == NOBLOCK {
          return i - 1;
        }
        i := i + 1;
      }
      return NUMPACKETS - 1;
    }

    /** Queues a fresh block for sending in slot `p`, or reports that there is no memory. */
    method NewPacket(u: nat, p: nat) returns (ok: bool)
      requires Valid() && u < data.Length && data[u].Sending()
      requires p == Used(data[u].packetsOut) < NUMPACKETS
      requires State()[u].output.Full()
      modifies this`owner, pool, pool.blocks, pool.mem, data
      ensures Valid() && pool.Received() == old(pool.Received())
      ensures ok <==> !Exhausted(old(pool.Blocks()), pool.slots, pool.capacity, DATALEN)
      ensures !ok ==> State() == old(State()) && pool.Blocks() == old(pool.Blocks()) && data[..] == old(data[..])
      ensures ok ==> data[u].Sending() && Used(data[u].packetsOut) == p + 1 && data[u].packetsOut[p] in pool.Blocks()
      ensures ok ==> State() == old(State())[u := old(State())[u].(output := State()[u].output)]
      ensures ok ==> Wrote(old(State())[u].output, State()[u].output, []) && State()[u].output.pos == 0
    {
      hide Live, WellFormed, InMemory, Owned, UserOk, ViewOf, Wrote, AppStatesOk, Exhausted;
      Facts(u);
      ghost var d0, m0, o0 := data[..], pool.Blocks(), owner;
      var h := pool.AllocBlock(DATALEN);
      NoMemory(m0, pool.slots, pool.capacity, DATALEN);
      if h == NOBLOCK {
        assert data[..] == d0;
        return false;
      }
      UpdateSameBut(m0, h, pool.Blocks()[h]);
      TakeOut(d0, Sends(), m0, o0, u, h, pool.Blocks());
      AppStatesKeep(appstate[..], d0, u, data[u].(packetsOut := data[u].packetsOut[p := h], outPos := 0));
      data[u] := data[u].(packetsOut := data[u].packetsOut[p := h], outPos := 0);
      owner := o0[h := OutField(u, p)];
      assert data[..] == d0[u := data[u]];
      AddBlock(old(State())[u].output, pool.Blocks()[h]);
      Facts(u);
      return true;
    }

    /** Writes into the room left in the last block, in slot `p`. */
    method Fill(u: nat, p: nat, buf: seq<byte>) returns (written: u16)
      requires Valid() && u < data.Length && data[u].Sending() && p + 1 == Used(data[u].packetsOut)
      modifies pool.mem, data
      ensures Valid() && pool.Received() == old(pool.Received())
      ensures data[u].Sending() && data[u].packetsOut == old(data[u].packetsOut)
      ensures var o, o' := old(State())[u].output, State()[u].output;
        && written <= |buf| && Wrote(o, o', buf[..written])
        && (written < |buf| ==> o'.Full())
        && State() == old(State())[u := old(State())[u].(output := o')]
    {
      hide Live, WellFormed, InMemory, Owned, UserOk, ViewOf, Stored, Wrote;
      Facts(u);
      ghost var d0, m0, o := data[..], pool.Blocks(), State()[u].output;
      var d := data[u];
      LiveBelow(d.packetsOut[p]);
      written := pool.WritePacket(d.packetsOut[p], d.outPos, buf);
      FillLast(o, buf[..written]);
      UpdateSameBut(m0, d.packetsOut[p], pool.Blocks()[d.packetsOut[p]]);
      SetOut(d0, Sends(), m0, owner, u, p, pool.Blocks(), d.outPos + written);
      data[u] := d.(outPos := d.outPos + written);
      assert data[..] == d0[u := data[u]];
    }

    /** Handles are below the receive buffer's, and sizes fit 16 bits. */
    lemma LiveBelow(h: nat)
      requires Valid() && h in pool.Blocks()
      ensures 0 < h <= pool.slots && h != RECEIVE_BUFFER && 0 < |pool.Blocks()[h]| < 0x1_0000
    {
      pool.BlockRange(h);
    }

    /**
     One pass of a write: fills the last block, then fresh blocks, until the data,
     the slots or the memory run out. Returns -1 once either side has closed.
     */
    method Write(u: nat, buf: seq<byte>) returns (n: int)
      requires Valid() && u < data.Length && data[u].InUse() && |buf| < 0x8000
      modifies this`owner, pool, pool.blocks, pool.mem, data
      ensures Valid() && pool.Received() == old(pool.Received())
      ensures old(data[u].close || data[u].remoteClosed) ==> n == -1 && State() == old(State())
      ensures !old(data[u].close || data[u].remoteClosed) ==>
        && 0 <= n <= |buf|
        && State() == old(State())[u := old(State())[u].(output := State()[u].output)]
        && Wrote(old(State())[u].output, State()[u].output, buf[..n])
        && (n == |buf|
            || (State()[u].output.Full()
                && (|State()[u].output.blocks| == NUMPACKETS
                    || Exhausted(pool.Blocks(), pool.slots, pool.capacity, DATALEN))))
    {
      hide Live, WellFormed, InMemory, Owned, UserOk, ViewOf, Stored, Wrote, SocketsOk, AppStatesOk, Exhausted;
      Facts(u);
      if data[u].close || data[u].remoteClosed {
        return -1;
      }
      ghost var o := State()[u].output;
      var ok, p := OpenBlock(u);
      if !ok {
        WroteNothing(o);
        assert buf[..0] == [];
        return 0;
      }
      ghost var mid := State()[u].output;
      n := WriteBlocks(u, p, buf);
      WroteTwice(o, mid, State()[u].output, [], buf[..n]);
      assert [] + buf[..n] == buf[..n];
    }

    /** The last block of the outgoing queue, a fresh one if the queue is empty and there is memory. */
    method OpenBlock(u: nat) returns (ok: bool, p: nat)
      requires Valid() && u < data.Length && data[u].Sending()
      modifies this`owner, pool, pool.blocks, pool.mem, data
      ensures Valid() && pool.Received() == old(pool.Received())
      ensures !ok ==> State() == old(State()) && State()[u].output.blocks == []
      ensures !ok ==> Exhausted(pool.Blocks(), pool.slots, pool.capacity, DATALEN)
      ensures ok ==> data[u].Sending() && p + 1 == Used(data[u].packetsOut)
      ensures ok ==> State() == old(State())[u := old(State())[u].(output := State()[u].output)]
      ensures ok ==> Wrote(old(State())[u].output, State()[u].output, [])
    {
      hide Live, WellFormed, InMemory, Owned, UserOk, ViewOf, Stored, Wrote, SocketsOk, AppStatesOk, Exhausted;
      Facts(u);
      QueueEmptyAbove(u);
      WroteNothing(State()[u].output);
      p := CurrentBlock(data[u].packetsOut, Used(data[u].packetsOut));
      ok := true;
      if data[u].packetsOut[p] == NOBLOCK {
        ok := NewPacket(u, p);
      }
    }

    /** One turn of the writing loop: fill the last block and, if data remain, open the next one. */
    method WriteBlock(u: nat, p: nat, buf: seq<byte>) returns (written: u16, more: bool)
      requires Valid() && u < data.Length && data[u].Sending() && p + 1 == Used(data[u].packetsOut)
      modifies this`owner, pool, pool.blocks, pool.mem, data
      ensures Valid() && pool.Received() == old(pool.Received()) && data[u].Sending()
      ensures State() == old(State())[u := old(State())[u].(output := State()[u].output)]
      ensures written <= |buf| && Wrote(old(State())[u].output, State()[u].output, buf[..written])
      ensures more ==> p + 2 == Used(data[u].packetsOut) <= NUMPACKETS
      ensures more || written == |buf| || |State()[u].output.blocks| == NUMPACKETS
        || Exhausted(pool.Blocks(), pool.slots, pool.capacity, DATALEN)
      ensures more ==> State()[u].output.pos == 0
      ensures !more && written < |buf| ==> State()[u].output.Full()
    {
      hide Live, WellFormed, InMemory, Owned, UserOk, ViewOf, Stored, Wrote, SocketsOk, AppStatesOk, Exhausted;
      Facts(u);
      written := Fill(u, p, buf);
      Facts(u);
      if written == |buf| || p == NUMPACKETS - 1 {
        return written, false;
      }
      ghost var mid := State()[u].output;
      more := NewPacket(u, p + 1);
      if more {
        WroteTwice(old(State())[u].output, mid, State()[u].output, buf[..written], []);
        assert buf[..written] + [] == buf[..written];
      }
    }

    /** The writing loop, from the last block in slot `p` on. */
    method WriteBlocks(u: nat, first: nat, buf: seq<byte>) returns (n: int)
      requires Valid() && u < data.Length && data[u].Sending() && first + 1 == Used(data[u].packetsOut)
      modifies this`owner, pool, pool.blocks, pool.mem, data
      ensures Valid() && pool.Received() == old(pool.Received())
      ensures 0 <= n <= |buf|
      ensures State() == old(State())[u := old(State())[u].(output := State()[u].output)]
      ensures Wrote(old(State())[u].output, State()[u].output, buf[..n])
      ensures n == |buf| || |State()[u].output.blocks| == NUMPACKETS
        || Exhausted(pool.Blocks(), pool.slots, pool.capacity, DATALEN)
      ensures n < |buf| ==> State()[u].output.Full()
    {
      hide Live, WellFormed, InMemory, Owned, UserOk, ViewOf, Stored, Wrote, Exhausted, SocketsOk, AppStatesOk;
      hide OutQueue.Full;
      Facts(u);
      ghost var o, done: seq<byte> := State()[u].output, [];
      WroteNothing(o);
      var remain, p, more := |buf|, first, true;
      while more
        invariant Valid() && 0 <= remain <= |buf| && data[u].Sending()
        invariant more ==> p + 1 == Used(data[u].packetsOut) <= NUMPACKETS
        invariant more || remain == 0 || State()[u].output.Full()
        invariant more || remain == 0 || |State()[u].output.blocks| == NUMPACKETS
          || Exhausted(pool.Blocks(), pool.slots, pool.capacity, DATALEN)
        invariant State() == old(State())[u := old(State())[u].(output := State()[u].output)]
        invariant done == buf[..|buf| - remain] && Wrote(o, State()[u].output, done)
        invariant pool.Received() == old(pool.Received())
        decreases more, NUMPACKETS - p
      {
        ghost var before, chunk := State()[u].output, buf[|buf| - remain..];
        var written: u16;
        written, more := WriteBlock(u, p, buf[|buf| - remain..]);
        WroteTwice(o, before, State()[u].output, done, chunk[..written]);
        remain, done, p := remain - written, done + chunk[..written], p + 1;
      }
      n := |buf| - remain;
      assert buf[..n] == done;
    }

    lemma QueueEmptyAbove(u: nat)
      requires Valid() && u < data.Length
      ensures |data[u].packetsIn| == NUMPACKETS
      ensures forall i :: Used(data[u].packetsIn) <= i < NUMPACKETS ==> data[u].packetsIn[i] == 0
      ensures data[u].Sending() ==>
        && |data[u].packetsOut| == NUMPACKETS
        && forall i :: Used(data[u].packetsOut) <= i < NUMPACKETS ==> data[u].packetsOut[i] == 0
    {
      assert UserOk(data[..][u], pool.Blocks());
    }

    /** Frees the first block of a queue and moves the others up. */
    method EatBlock(u: nat, incoming: bool)
      requires Valid() && u < data.Length && (incoming || data[u].Sending())
      modifies this`owner, pool`order, pool.blocks, data
      ensures Valid() && pool.Received() == old(pool.Received())
      ensures State() == old(State())[u := var v := old(State())[u];
        if incoming then v.(input := Tail(v.input)) else v.(output := v.output.Eaten())]
    {
      hide Live, WellFormed, InMemory, Owned, UserOk, ViewOf;
      Facts(u);
      ghost var d0, m0 := data[..], pool.Blocks();
      var q := if incoming then data[u].packetsIn else data[u].packetsOut;
      pool.FreeBlock(q[0]);
      q := MoveUp(q);
      owner := EatFirst(d0, Sends(), m0, owner, u, incoming, pool.Blocks());
      data[u] := if incoming then data[u].(packetsIn := q) else data[u].(packetsOut := q);
      assert data[..] == d0[u := data[u]];
    }

    /** Every handle moves up by one slot, and the last slot becomes empty. */
    method MoveUp(block: seq<nat>) returns (q: seq<nat>)
      requires |block| == NUMPACKETS
      ensures q == Shifted(block)
    {
      q := block;
      var i := 0;
      while i < NUMPACKETS - 1
        invariant 0 <= i <= NUMPACKETS - 1 && |q| == NUMPACKETS
        invariant forall j :: 0 <= j < i ==> q[j] == block[j + 1]
        invariant forall j :: i <= j < NUMPACKETS ==> q[j] == block[j]
      {
        q := q[i := q[i + 1]];
        i := i + 1;
      }
      q := q[NUMPACKETS - 1 := NOBLOCK];
    }

    /** Frees every block of a queue. */
    method FlushBlocks(u: nat, incoming: bool)
      requires Valid() && u < data.Length && (incoming || data[u].Sending())
      modifies this`owner, pool`order, pool.blocks, data
      ensures Valid() && pool.Received() == old(pool.Received())
      ensures State() == old(State())[u := var v := old(State())[u];
        if incoming then v.(input := []) else v.(output := OutQueue([], v.output.pos))]
      ensures data[u] == ClearedUser(old(data[u]), incoming, NUMPACKETS)
    {
      hide Live, WellFormed, InMemory, Owned, UserOk, ViewOf, AppStatesOk, ClearedUser, Flushing;
      Facts(u);
      ghost var d0, m0 := data[..], pool.Blocks();
      FlushStart(d0, m0, u, incoming, Sends(), owner);
      ClearedSends(d0[u], incoming, 0);
      var i := 0;
      while i < NUMPACKETS
        invariant 0 <= i <= NUMPACKETS && pool.Valid() && pool.Received() == old(pool.Received())
        invariant Flushing(d0, m0, u, incoming, i, data[..], Sends(), pool.Blocks(), owner)
        invariant data[u] == ClearedUser(d0[u], incoming, i) && data[..] == d0[u := data[u]]
      {
        ClearNext(d0[u], incoming, i);
        var h := if incoming then data[u].packetsIn[i] else data[u].packetsOut[i];
        FlushStep(d0, m0, u, incoming, i, data[..], Sends(), pool.Blocks(), owner, pool.Blocks() - {h});
        pool.FreeBlock(h);
        data[u] := if incoming then data[u].(packetsIn := data[u].packetsIn[i := NOBLOCK])
                   else data[u].(packetsOut := data[u].packetsOut[i := NOBLOCK]);
        owner := owner - {h};
        i := i + 1;
        assert data[..] == d0[u := data[u]];
      }
      FlushEnd(d0, m0, u, incoming, data[..], Sends(), pool.Blocks(), owner);
      ClearedSends(d0[u], incoming, NUMPACKETS);
      AppStatesKeep(appstate[..], d0, u, data[u]);
    }

    /** A change of user `u`'s flags. */
    method SetUser(u: nat, d: UserData)
      requires Valid() && u < data.Length
      requires UserOk(d, pool.Blocks()) && SameHandles(data[u], d)
      requires d.Sending() || forall c :: 0 <= c < appstate.Length ==> appstate[c] != Some(u)
      modifies data
      ensures Valid() && pool.Received() == old(pool.Received()) && pool.Blocks() == old(pool.Blocks())
      ensures data[u] == d && State() == old(State())[u := ViewOf(d, pool.Blocks())]
    {
      hide Live, WellFormed, InMemory, Owned, UserOk, ViewOf;
      Relabel(data[..], Sends(), pool.Blocks(), owner, u, d);
      ghost var d0 := data[..];
      data[u] := d;
      assert data[..] == d0[u := d];
    }

    /** Cuts the first incoming block down to what follows `position`. */
    method CutFirst(u: nat, position: u16)
      requires Valid() && u < data.Length && State()[u].input != [] && position < |State()[u].input[0]|
      modifies pool.blocks
      ensures Valid() && pool.Received() == old(pool.Received())
      ensures State() == old(State())[u := var v := old(State())[u]; v.(input := v.input[0 := v.input[0][position..]])]
    {
      hide Live, WellFormed, InMemory, Owned, UserOk, ViewOf;
      Facts(u);
      ghost var m0, h := pool.Blocks(), data[u].packetsIn[0];
      pool.ResizeFrom(data[u].packetsIn[0], position);
      UpdateSameBut(m0, h, m0[h][position..]);
      SetIn(data[..], Sends(), m0, owner, u, pool.Blocks());
    }

    /** Frees user data whose queues are empty. */
    method Free(u: nat)
      requires Valid() && u < data.Length && State()[u].input == [] && State()[u].output.blocks == []
      requires forall c :: 0 <= c < appstate.Length ==> appstate[c] != Some(u)
      modifies data
      ensures Valid() && pool.Received() == old(pool.Received()) && pool.Blocks() == old(pool.Blocks())
      ensures State() == old(State())[u := FREE]
    {
      hide Live, WellFormed, InMemory, Owned, ViewOf;
      Facts(u);
      QueueEmptyAbove(u);
      var d := data[u].(sock := 0, connected := false, close := false, remoteClosed := false, restart := false);
      ViewFacts(d, pool.Blocks());
      SetUser(u, d);
    }

    /**
     Takes bytes off the front of the incoming stream: as many as asked for or
     as there are. `None` is the error return of a closed and drained connection.
     */
    method Read(u: nat, size: u16, stopped: bool) returns (bytes: Option<seq<byte>>)
      requires Valid() && u < data.Length
      modifies this`owner, pool`order, pool.blocks, data
      ensures Valid() && pool.Received() == old(pool.Received())
      ensures State() == old(State())[u := State()[u]] && ReadResult(old(State())[u], State()[u], size, stopped, bytes)
    {
      hide Valid, State, UserOk, ViewOf, ReadResult, ReadSo, Concat;
      ReadSoNothing(State()[u], stopped);
      FirstIn(u);
      ghost var v := State()[u];
      if data[u].remoteClosed && data[u].packetsIn[0] == NOBLOCK {
        ReadNone(v, size, stopped);
        return None;
      }
      if data[u].packetsIn[0] == NOBLOCK {
        ReadDone(v, v, size, stopped, []);
        return Some([]);
      }
      var got: seq<byte>, more := [], true;
      while more
        invariant Valid() && |got| <= size && pool.Received() == old(pool.Received())
        invariant got + Concat(State()[u].input) == Concat(v.input)
        invariant State() == old(State())[u := State()[u]] && ReadSo(v, State()[u], stopped)
        invariant if more then State()[u].input != [] else |got| < size ==> State()[u].input == []
        decreases |State()[u].input| + if more then 1 else 0
      {
        ghost var w := State()[u];
        var chunk: seq<byte>;
        chunk, more := ReadBlock(u, size - |got|, stopped);
        ReadOn(v, w, State()[u], stopped, got, chunk);
        got := got + chunk;
        if |got| == size {
          more := false;
        }
      }
      ReadDone(v, State()[u], size, stopped, got);
      return Some(got);
    }

    /** Takes up to `size` bytes off the first incoming block, which goes once it is empty. */
    method ReadBlock(u: nat, size: u16, stopped: bool) returns (chunk: seq<byte>, more: bool)
      requires Valid() && u < data.Length && State()[u].input != []
      modifies this`owner, pool`order, pool.blocks, data
      ensures Valid() && pool.Received() == old(pool.Received())
      ensures State() == old(State())[u := State()[u]] && ReadSo(old(State())[u], State()[u], stopped)
      ensures var input, input' := old(State())[u].input, State()[u].input;
        && |chunk| == Min(size, |input[0]|) && chunk == input[0][..|chunk|]
        && input' == (if |chunk| < |input[0]| then input[0 := input[0][|chunk|..]] else input[1..])
        && more == (|chunk| == |input[0]| && input' != [])
    {
      hide Live, WellFormed, InMemory, Owned, UserOk, ViewOf;
      Facts(u);
      LiveBelow(data[u].packetsIn[0]);
      chunk := pool.ReadPacket(data[u].packetsIn[0], 0, size);
      var length := pool.BlockSize(data[u].packetsIn[0]);
      if |chunk| < length {
        CutFirst(u, |chunk|);
        return chunk, false;
      }
      more := DropFirst(u, stopped);
    }

    /**
     The first incoming block is used up: a stopped connection asks for a restart, a
     drained one that has ended is freed.
     */
    method DropFirst(u: nat, stopped: bool) returns (more: bool)
      requires Valid() && u < data.Length && State()[u].input != []
      modifies this`owner, pool`order, pool.blocks, data
      ensures Valid() && pool.Received() == old(pool.Received())
      ensures State() == old(State())[u := State()[u]] && ReadSo(old(State())[u], State()[u], stopped)
      ensures State()[u].input == old(State())[u].input[1..] && more == (State()[u].input != [])
    {
      hide Live, WellFormed, InMemory, Owned, UserOk, ViewOf, SocketsOk, AppStatesOk;
      Facts(u);
      EatBlock(u, true);
      Facts(u);
      if stopped && !data[u].close && !data[u].remoteClosed {
        SetRestart(u);
        Facts(u);
      }
      QueueEmptyAbove(u);
      more := data[u].packetsIn[0] != NOBLOCK;
      if !more && data[u].remoteClosed {
        Unattached(u);
        Free(u);
      }
    }

    /** No connection points to user data whose remote side has closed. */
    lemma Unattached(u: nat)
      requires Valid() && u < data.Length && !data[u].Sending()
      ensures forall c :: 0 <= c < appstate.Length ==> appstate[c] != Some(u)
      ensures State()[u].output.blocks == []
    {
      Facts(u);
    }

    method SetRestart(u: nat)
      requires Valid() && u < data.Length && data[u].Sending()
      modifies data
      ensures Valid() && pool.Received() == old(pool.Received())
      ensures State() == old(State())[u := old(State())[u].(restart := true)]
    {
      hide Live, WellFormed, InMemory, Owned, SocketsOk, AppStatesOk;
      Facts(u);
      SetUser(u, data[u].(restart := true));
    }

    /** Gives up the connection: at once if the remote side has, else by asking the callback to close. */
    method Stop(u: nat)
      requires Valid() && u < data.Length
      modifies this`owner, pool`order, pool.blocks, data
      ensures Valid() && pool.Received() == old(pool.Received())
      ensures State() == old(State())[u := var v := old(State())[u];
        if v.remoteClosed then FREE else if old(data[u].InUse()) then v.(input := [], close := true) else v]
    {
      hide Live, WellFormed, InMemory, Owned, SocketsOk;
      Facts(u);
      if data[u].InUse() {
        FlushBlocks(u, true);
        Facts(u);
        if data[u].remoteClosed {
          Free(u);
        } else {
          SetUser(u, data[u].(close := true));
        }
      }
    }

    /** The first unused user data, set up for a new connection. */
    method AllocateData() returns (found: Option<nat>)
      requires Valid()
      modifies data
      ensures Valid() && pool.Received() == old(pool.Received()) && pool.Blocks() == old(pool.Blocks())
      ensures found == FirstFree(old(data[..]), 0)
      ensures found.None? <==> forall i :: 0 <= i < data.Length ==> old(data[..])[i].InUse()
      ensures found.Some? ==>
        && found.value < data.Length && !old(data[..])[found.value].InUse()
        && forall i :: 0 <= i < found.value ==> old(data[..])[i].InUse()
      ensures State() == if found == None then old(State()) else old(State())[found.value := Fresh(found.value)]
      ensures found.Some? ==> data[found.value].Sending()
      ensures forall c :: 0 <= c < appstate.Length ==> appstate[c] != found || found == None
    {
      hide Live, WellFormed, InMemory, Owned, UserOk, ViewOf;
      var sock := 0;
      while sock < data.Length
        invariant 0 <= sock <= data.Length
        invariant FirstFree(data[..], 0) == FirstFree(data[..], sock)
      {
        if !data[sock].InUse() {
          Facts(sock);
          QueueEmptyAbove(sock);
          var d := UserData(sock, true, false, false, false,
                            seq(NUMPACKETS, _ => NOBLOCK), seq(NUMPACKETS, _ => NOBLOCK), 0);
          FreshUser(d, pool.Blocks());
          NothingHeld(data[sock], d, pool.Blocks());
          SetUser(sock, d);
          return Some(sock);
        }
        sock := sock + 1;
      }
      return None;
    }

    /** Queues the received bytes, if a slot and memory are found; slots past the first free one never succeed. */
    method StoreData(u: nat, pos: u16, len: u16) returns (stored: bool, stop: bool)
      requires Valid() && u < data.Length && data[u].Sending() && !data[u].close
      requires 0 < len && pos + len <= |pool.Received()|
      modifies this`owner, this`freePacket, pool, pool.blocks, pool.mem, data
      ensures Valid() && pool.Received() == old(pool.Received())
      ensures data[u].Sending() && data[u].close == old(data[u].close)
      ensures var v := old(State())[u];
        && (stored <==> |v.input| < NUMPACKETS && !Exhausted(old(pool.Blocks()), pool.slots, pool.capacity, len))
        && (stop <==> !stored || |v.input| == NUMPACKETS - 1)
        && State() == old(State())[u := if stored then v.(input := v.input + [pool.Received()[pos..pos + len]]) else v]
      ensures freePacket == (old(freePacket) && stored)
    {
      hide Live, WellFormed, InMemory, Owned, UserOk, ViewOf, SocketsOk, AppStatesOk;
      Facts(u);
      QueueEmptyAbove(u);
      ghost var n := Used(data[u].packetsIn);
      var i := 0;
      while i < NUMPACKETS
        invariant 0 <= i <= NUMPACKETS && Valid() && pool.Received() == old(pool.Received())
        invariant data[..] == old(data[..]) && pool.Blocks() == old(pool.Blocks()) && State() == old(State())
        invariant freePacket == old(freePacket)
        invariant i > n ==> Exhausted(pool.Blocks(), pool.slots, pool.capacity, len)
      {
        if data[u].packetsIn[i] == NOBLOCK {
          var ok := StoreAt(u, i, pos, len);
          if ok {
            return true, i == NUMPACKETS - 1;
          }
        }
        i := i + 1;
      }
      freePacket := false;
      return false, true;
    }

    /** Tries to put the received bytes into the empty slot `i`; that can only work in the first empty one. */
    method StoreAt(u: nat, i: nat, pos: u16, len: u16) returns (ok: bool)
      requires Valid() && u < data.Length && data[u].Sending() && !data[u].close
      requires 0 < len && pos + len <= |pool.Received()|
      requires i < |data[u].packetsIn| && Used(data[u].packetsIn) <= i < NUMPACKETS
      requires i > Used(data[u].packetsIn) ==> Exhausted(pool.Blocks(), pool.slots, pool.capacity, len)
      modifies this`owner, pool, pool.blocks, pool.mem, data
      ensures Valid() && pool.Received() == old(pool.Received())
      ensures data[u].Sending() && data[u].close == old(data[u].close)
      ensures ok <==> !Exhausted(old(pool.Blocks()), pool.slots, pool.capacity, len)
      ensures ok ==> i == old(Used(data[u].packetsIn))
      ensures ok ==> var v := old(State())[u];
        State() == old(State())[u := v.(input := v.input + [pool.Received()[pos..pos + len]])]
      ensures !ok ==> data[..] == old(data[..]) && pool.Blocks() == old(pool.Blocks()) && State() == old(State())
    {
      hide Live, WellFormed, InMemory, Owned, UserOk, ViewOf, AppStatesOk, Exhausted, SocketsOk;
      ghost var d0, m0, o0 := data[..], pool.Blocks(), owner;
      Facts(u);
      var h := pool.AllocBlock(len);
      NoMemory(m0, pool.slots, pool.capacity, len);
      if h == NOBLOCK {
        return false;
      }
      pool.CopyPacket(h, 0, RECEIVE_BUFFER, pos, len);
      assert pool.Blocks()[h] == pool.Blocks()[h][0..len];
      UpdateSameBut(m0, h, pool.Blocks()[h]);
      TakeIn(d0, Sends(), m0, o0, u, h, pool.Blocks());
      AppStatesKeep(appstate[..], d0, u, data[u].(packetsIn := data[u].packetsIn[i := h]));
      data[u] := data[u].(packetsIn := data[u].packetsIn[i := h]);
      owner := o0[h := InField(u, i)];
      assert data[..] == d0[u := data[u]];
      return true;
    }

    /** Cuts the only outgoing block off at its fill position. */
    method Seal(u: nat)
      requires Valid() && u < data.Length && data[u].Sending()
      requires Used(data[u].packetsOut) == 1 && data[u].outPos > 0
      modifies pool.blocks
      ensures Valid() && pool.Received() == old(pool.Received())
      ensures State() == old(State())[u := old(State())[u].(output := old(State())[u].output.Sealed())]
    {
      hide Live, WellFormed, InMemory, Owned, UserOk, ViewOf;
      Facts(u);
      ghost var m0, h := pool.Blocks(), data[u].packetsOut[0];
      pool.Resize(data[u].packetsOut[0], 0, data[u].outPos);
      assert m0[h][0..data[u].outPos] == m0[h][..data[u].outPos];
      UpdateSameBut(m0, h, m0[h][..data[u].outPos]);
      SetOut(data[..], Sends(), m0, owner, u, 0, pool.Blocks(), data[u].outPos);
      assert data[..][u := data[u].(outPos := data[u].outPos)] == data[..];
      assert old(State())[u].output.blocks[0 := m0[h][..data[u].outPos]] == [m0[h][..data[u].outPos]];
    }

    /** The transient send block holds `chunk` behind the room for a header. */
    ghost predicate Carries(chunk: seq<byte>)
      requires Valid()
      reads this, pool, pool.blocks, pool.mem, data, appstate
    {
      && sendPacket && SendHandle() in pool.Blocks()
      && var frame := pool.Blocks()[SendHandle()];
      && |frame| == HEADER_LEN + |chunk| + SENDBUFFER_OFFSET + SENDBUFFER_PADDING
      && frame[HEADER_LEN + SENDBUFFER_OFFSET..HEADER_LEN + SENDBUFFER_OFFSET + |chunk|] == chunk
    }

    /** There was no memory for the send block, and there is still none. */
    ghost predicate Dropped(sendLen: nat)
      requires Valid()
      reads this, pool, pool.blocks, pool.mem, data, appstate
    {
      && uipPacket == NOBLOCK
      && Exhausted(pool.Blocks(), pool.slots, pool.capacity,
                   HEADER_LEN + sendLen + SENDBUFFER_OFFSET + SENDBUFFER_PADDING)
    }

    /** A callback that sends nothing leaves the send block alone; one that sends loses a block still held. */
    ghost predicate SendsAfter(sendLen: nat, before: nat, due: bool, sends: SendBlocks)
      reads this
    {
      if sendLen == 0 then uipPacket == before && Sends() == sends && sendPacket == due
      else lost == Overwritten(sends).lost && (uipPacket == NOBLOCK ==> sendPacket == due)
    }

    /** Hands out the first block: seals it if it is the only one and copies it behind room for the headers. */
    method Transmit(u: nat) returns (sendLen: u16)
      requires Valid() && u < data.Length && data[u].Sending() && State()[u].output.blocks != []
      modifies this, pool, pool.blocks, pool.mem
      ensures Valid() && pool.Received() == old(pool.Received())
      ensures var o := old(State())[u].output;
        && sendLen == o.Ready()
        && State() == old(State())[u := old(State())[u].(output := o.Sealed())]
        && (sendLen > 0 ==> Carries(o.Chunk()) || Dropped(sendLen))
        && SendsAfter(sendLen, old(uipPacket), old(sendPacket), old(Sends()))
      ensures freePacket == old(freePacket)
    {
      hide Live, WellFormed, InMemory, Owned, UserOk, ViewOf, AppStatesOk, SocketsOk, Exhausted;
      sendLen := SealFirst(u);
      if sendLen > 0 {
        Facts(u);
        ghost var chunk := State()[u].output.blocks[0];
        assert chunk[..sendLen] == chunk;
        AllocSend(HEADER_LEN + sendLen + SENDBUFFER_OFFSET + SENDBUFFER_PADDING);
        if uipPacket != NOBLOCK {
          FillSend(u, sendLen);
        }
      }
    }

    /** How much of the first block is to go out; the only block is cut off there. */
    method SealFirst(u: nat) returns (sendLen: u16)
      requires Valid() && u < data.Length && data[u].Sending() && State()[u].output.blocks != []
      modifies pool.blocks
      ensures Valid() && pool.Received() == old(pool.Received())
      ensures var o := old(State())[u].output;
        && sendLen == o.Ready() <= DATALEN && State() == old(State())[u := old(State())[u].(output := o.Sealed())]
        && (sendLen > 0 ==> o.Sealed().blocks != [] && o.Sealed().blocks[0] == o.Chunk() && |o.Chunk()| == sendLen)
    {
      hide Live, WellFormed, InMemory, Owned, UserOk, ViewOf;
      Facts(u);
      QueueEmptyAbove(u);
      SealedBytes(State()[u].output);
      LiveBelow(data[u].packetsOut[0]);
      if data[u].packetsOut[1] == NOBLOCK {
        sendLen := data[u].outPos;
        if sendLen > 0 {
          Seal(u);
        }
      } else {
        sendLen := pool.BlockSize(data[u].packetsOut[0]);
      }
    }

    /** Asks for a send block of `size` bytes; the handle of one still held is overwritten. */
    method AllocSend(size: u16)
      requires Valid() && 0 < size
      modifies this`owner, this`lost, this`uipPacket, pool, pool.blocks, pool.mem
      ensures Valid() && pool.Received() == old(pool.Received()) && State() == old(State())
      ensures lost == Overwritten(old(Sends())).lost
      ensures uipPacket == NOBLOCK <==> old(Exhausted(pool.Blocks(), pool.slots, pool.capacity, size))
      ensures uipPacket == NOBLOCK ==> pool.Blocks() == old(pool.Blocks())
      ensures uipPacket != NOBLOCK ==>
        && SendHandle() == uipPacket && uipPacket in pool.Blocks() && |pool.Blocks()[uipPacket]| == size
        && uipPacket !in old(pool.Blocks()) && pool.Blocks() - {uipPacket} == old(pool.Blocks())
    {
      hide Live, WellFormed, InMemory, Owned, UserOk, ViewOf, Exhausted;
      ghost var m0 := pool.Blocks();
      NoMemory(m0, pool.slots, pool.capacity, size);
      ghost var owner0 := LoseBlock(data[..], Sends(), m0, owner);
      lost := Overwritten(Sends()).lost;
      uipPacket := pool.AllocBlock(size);
      owner := owner0;
      if uipPacket != NOBLOCK {
        UpdateSameBut(m0, uipPacket, pool.Blocks()[uipPacket]);
        owner := SendBuffer(data[..], SendBlocks(NOBLOCK, lost), m0, owner0, uipPacket, pool.Blocks());
      }
    }

    method FillSend(u: nat, sendLen: u16)
      requires Valid() && u < data.Length && data[u].Sending() && SendHandle() != NOBLOCK
      requires State()[u].output.blocks != [] && 0 < sendLen <= |State()[u].output.blocks[0]|
      requires SendHandle() in pool.Blocks()
        && |pool.Blocks()[SendHandle()]| == HEADER_LEN + sendLen + SENDBUFFER_OFFSET + SENDBUFFER_PADDING
      modifies this`owner, this`sendPacket, pool.mem
      ensures Valid() && pool.Received() == old(pool.Received()) && State() == old(State())
      ensures Carries(State()[u].output.blocks[0][..sendLen])
    {
      hide Live, WellFormed, InMemory, Owned, UserOk, ViewOf;
      Facts(u);
      ghost var m0, h := pool.Blocks(), data[u].packetsOut[0];
      SendApart(u);
      LiveBelow(h);
      LiveBelow(SendHandle());
      pool.CopyPacket(uipPacket, HEADER_LEN + SENDBUFFER_OFFSET, data[u].packetsOut[0], 0, sendLen);
      UpdateSameBut(m0, uipPacket, pool.Blocks()[uipPacket]);
      owner := SendBuffer(data[..], Sends(), m0, owner, SendHandle(), pool.Blocks());
      sendPacket := true;
      assert m0[h][0..0 + sendLen] == m0[h][..sendLen];
    }

    /** The send block is none of a connection's blocks. */
    lemma SendApart(u: nat)
      requires Valid() && u < data.Length && data[u].Sending() && 0 < Used(data[u].packetsOut) && SendHandle() != 0
      ensures data[u].packetsOut[0] != SendHandle()
    {
      assert HandleAt(data[..], Sends(), SendField) == SendHandle();
      assert HandleAt(data[..], Sends(), OutField(u, 0)) == data[u].packetsOut[0];
    }

    // ----- the callback

    /** Cuts connection `c` loose from its user data. */
    method Forget(c: nat)
      requires Valid() && c < appstate.Length && appstate[c].Some?
      modifies appstate
      ensures Valid() && State() == old(State()) && appstate[..] == old(appstate[..])[c := None]
      ensures forall e :: 0 <= e < appstate.Length ==> appstate[e] != old(appstate[c])
    {
      appstate[c] := None;
    }

    /** The connection has ended: unsent data are dropped, unread data kept behind the overlaid local port. */
    method Disconnect(c: nat, u: nat, lport: u16)
      requires Valid() && c < appstate.Length && appstate[c] == Some(u)
      modifies this`owner, pool`order, pool.blocks, data, appstate
      ensures Valid() && pool.Received() == old(pool.Received())
      ensures appstate[..] == old(appstate[..])[c := None]
      ensures State() == old(State())[u := var v := old(State())[u];
        if v.input != [] then v.(remoteClosed := true, output := OutQueue([], 0)) else FREE]
    {
      hide Live, WellFormed, InMemory, Owned, UserOk, ViewOf, SocketsOk;
      FlushBlocks(u, false);
      Forget(c);
      Facts(u);
      QueueEmptyAbove(u);
      if data[u].packetsIn[0] != NOBLOCK {
        OverlaidUser(data[u], pool.Blocks(), lport);
        SetUser(u, data[u].(remoteClosed := true,
                            packetsOut := data[u].packetsOut[0 := lport % 0x100][1 := lport / 0x100]));
      } else {
        Free(u);
      }
    }

    method ClearRestart(u: nat)
      requires Valid() && u < data.Length && data[u].Sending()
      modifies data
      ensures Valid() && pool.Received() == old(pool.Received()) && pool.Blocks() == old(pool.Blocks())
      ensures data[u] == old(data[u]).(restart := false)
      ensures State() == old(State())[u := old(State())[u].(restart := false)]
    {
      hide Live, WellFormed, InMemory, Owned, SocketsOk, AppStatesOk;
      Facts(u);
      SetUser(u, data[u].(restart := false));
    }

    /** First half of the callback: take in what arrived, and pass on a pending restart. */
    method TakeData(u: nat, f: AppFlags, pos: u16, len: u16) returns (stored: bool, flow: Flow, restarted: bool)
      requires Valid() && u < data.Length && data[u].Sending()
      requires f.newdata ==> pos + len <= |pool.Received()|
      modifies this`owner, this`freePacket, pool, pool.blocks, pool.mem, data
      ensures Valid() && pool.Received() == old(pool.Received()) && data[u].Sending()
      ensures var v, bytes := old(State())[u], if f.newdata then pool.Received()[pos..pos + len] else [];
        && State() == old(State())[u := AfterData(v, f, bytes, stored)]
        && (stored <==> Offered(v, f, bytes) && |v.input| < NUMPACKETS
                        && !Exhausted(old(pool.Blocks()), pool.slots, pool.capacity, len))
        && restarted == v.restart
        && flow == (if v.restart then Resume
                    else if Offered(v, f, bytes) && (!stored || |v.input| == NUMPACKETS - 1) then Halt else Keep)
        && freePacket == (old(freePacket) && (Offered(v, f, bytes) ==> stored))
    {
      hide Live, WellFormed, InMemory, Owned, UserOk, ViewOf, Exhausted, SocketsOk, AppStatesOk;
      Facts(u);
      stored, flow := false, Keep;
      if f.newdata && len > 0 && !data[u].close && !data[u].remoteClosed {
        var stop: bool;
        stored, stop := StoreData(u, pos, len);
        flow := if stop then Halt else Keep;
        Facts(u);
      }
      restarted := data[u].restart;
      if restarted {
        ClearRestart(u);
        flow := Resume;
      }
    }

    /** The callback for a connection that has user data. */
    method Serve(c: nat, u: nat, f: AppFlags, pos: u16, len: u16, lport: u16) returns (r: Reply, stored: bool)
      requires Valid() && c < appstate.Length && appstate[c] == Some(u)
      requires f.newdata ==> pos + len <= |pool.Received()|
      modifies this, pool, pool.blocks, pool.mem, data, appstate
      ensures Valid() && pool.Received() == old(pool.Received())
      ensures var v, bytes := old(State())[u], if f.newdata then pool.Received()[pos..pos + len] else [];
        && State() == old(State())[u := AppNext(v, f, bytes, stored)]
        && r == AppReply(v, f, bytes, stored)
        && (stored <==> Offered(v, f, bytes) && |v.input| < NUMPACKETS
                        && !Exhausted(old(pool.Blocks()), pool.slots, pool.capacity, len))
        && appstate[..] == old(appstate[..])[c := if Leaves(f) || r.close then None else Some(u)]
        && (r.sendLen > 0 ==> Carries(AfterAck(v, f).output.Chunk()) || Dropped(r.sendLen))
        && SendsAfter(r.sendLen, old(uipPacket), old(sendPacket), old(Sends()))
        && freePacket == (old(freePacket) && (Offered(v, f, bytes) ==> stored))
    {
      hide Live, WellFormed, InMemory, Owned, UserOk, ViewOf, Exhausted, SocketsOk;
      var flow, restarted;
      stored, flow, restarted := TakeData(u, f, pos, len);
      var close, halt, sendLen := Respond(c, u, f, lport);
      r := Reply(if halt then Halt else flow, restarted, close, sendLen);
    }

    /** Second half of the callback. */
    method Respond(c: nat, u: nat, f: AppFlags, lport: u16) returns (close: bool, halt: bool, sendLen: u16)
      requires Valid() && c < appstate.Length && appstate[c] == Some(u)
      modifies this, pool, pool.blocks, pool.mem, data, appstate
      ensures Valid() && pool.Received() == old(pool.Received()) && freePacket == old(freePacket)
      ensures var v := old(State())[u];
        && State() == old(State())[u := Served(v, f)]
        && var o := AfterAck(v, f).output;
        && close == (Quiet(v, f) && v.close && o.blocks == [])
        && halt == (Quiet(v, f) && v.close && o.blocks != [])
        && sendLen == (if !Leaves(f) && Transmits(v, f) then o.Ready() else 0)
        && (sendLen > 0 ==> Carries(o.Chunk()) || Dropped(sendLen))
      ensures appstate[..] == old(appstate[..])[c := if Leaves(f) || close then None else Some(u)]
      ensures SendsAfter(sendLen, old(uipPacket), old(sendPacket), old(Sends()))
    {
      hide Live, WellFormed, InMemory, Owned, UserOk, ViewOf, Exhausted, SocketsOk, Carries, Dropped, Overwritten;
      Facts(u);
      if f.closed || f.timedout {
        Disconnect(c, u, lport);
        return false, false, 0;
      }
      if f.acked {
        EatBlock(u, false);
      }
      close, halt, sendLen := Settle(c, u, f.poll || f.rexmit);
    }

    /** Transmits if asked to and there is something; closes once nothing is left to send. */
    method Settle(c: nat, u: nat, send: bool) returns (close: bool, halt: bool, sendLen: u16)
      requires Valid() && c < appstate.Length && appstate[c] == Some(u)
      modifies this, pool, pool.blocks, pool.mem, data, appstate
      ensures Valid() && pool.Received() == old(pool.Received()) && freePacket == old(freePacket)
      ensures var v := old(State())[u];
        var o := v.output;
        && var sends := send && o.blocks != [];
        && close == (!sends && v.close && o.blocks == [])
        && halt == (!sends && v.close && o.blocks != [])
        && sendLen == (if sends then o.Ready() else 0)
        && (sendLen > 0 ==> Carries(o.Chunk()) || Dropped(sendLen))
        && State() == old(State())[u := if sends then v.(output := o.Sealed()) else if close then FREE else v]
      ensures appstate[..] == old(appstate[..])[c := if close then None else Some(u)]
      ensures SendsAfter(sendLen, old(uipPacket), old(sendPacket), old(Sends()))
    {
      hide Live, WellFormed, InMemory, Owned, UserOk, ViewOf, Exhausted, SocketsOk;
      Facts(u);
      QueueEmptyAbove(u);
      close, halt, sendLen := false, false, 0;
      if send && data[u].packetsOut[0] != NOBLOCK {
        sendLen := Transmit(u);
      } else if data[u].close {
        if data[u].packetsOut[0] == NOBLOCK {
          Forget(c);
          Free(u);
          close := true;
        } else {
          halt := true;
        }
      }
    }

    /** The user data that serves connection `c`: its own, or fresh user data for a new connection. */
    ghost function Server(c: nat, f: AppFlags): Option<nat>
      requires c < appstate.Length
      reads data, appstate
    {
      if appstate[c].Some? || !f.connected then appstate[c] else FirstFree(data[..], 0)
    }

    /** Finds the user data that serves connection `c`, and attaches fresh user data to a new connection. */
    method Attach(c: nat, f: AppFlags) returns (u: Option<nat>)
      requires Valid() && c < appstate.Length
      modifies data, appstate
      ensures Valid() && pool.Received() == old(pool.Received()) && pool.Blocks() == old(pool.Blocks())
      ensures u == old(Server(c, f)) && appstate[..] == old(appstate[..])[c := u] && (u.Some? ==> u.value < data.Length)
      ensures u == None ==> appstate[..] == old(appstate[..])
      ensures State() ==
        if old(appstate[c]).Some? || u == None then old(State()) else old(State())[u.value := Fresh(u.value)]
    {
      hide Live, WellFormed, InMemory, Owned, UserOk, ViewOf;
      u := appstate[c];
      if u == None && f.connected {
        u := AllocateData();
        if u != None {
          appstate[c] := u;
        }
      }
      assert appstate[..] == old(appstate[..])[c := u];
    }

    /** That user data, as it stands when the callback begins. */
    ghost function Serving(c: nat, f: AppFlags): (v: Option<View>)
      requires Valid() && c < appstate.Length
      reads this, pool, pool.blocks, pool.mem, data, appstate
      ensures v.Some? <==> Server(c, f).Some?
      ensures v.None? <==>
        appstate[c].None? && (f.connected ==> forall i :: 0 <= i < data.Length ==> data[i].InUse())
      ensures v.Some? ==> v.value.output.Ok() && Server(c, f).value < data.Length
      ensures v.Some? ==>
        v.value == if appstate[c].Some? then State()[Server(c, f).value] else Fresh(Server(c, f).value)
    {
      if Server(c, f) == None then None
      else if appstate[c].Some? then Facts(appstate[c].value); Some(State()[appstate[c].value])
      else Some(Fresh(Server(c, f).value))
    }

    /** The callback of the protocol engine for connection `c`. */
    method AppCall(c: nat, f: AppFlags, pos: u16, len: u16, lport: u16) returns (r: Reply, stored: bool)
      requires Valid() && c < appstate.Length
      requires f.newdata ==> pos + len <= |pool.Received()|
      modifies this, pool, pool.blocks, pool.mem, data, appstate
      ensures Valid() && pool.Received() == old(pool.Received())
      ensures old(Serving(c, f)).None? <==>
        old(appstate[c]).None? && (f.connected ==> forall i :: 0 <= i < data.Length ==> old(data[i].InUse()))
      ensures old(Serving(c, f)) == None ==> r == SILENT && State() == old(State()) && appstate[..] == old(appstate[..])
      ensures old(Serving(c, f)).Some? ==>
        var u, v := old(Server(c, f)).value, old(Serving(c, f)).value;
        && var bytes := if f.newdata then pool.Received()[pos..pos + len] else [];
        && State() == old(State())[u := AppNext(v, f, bytes, stored)] && r == AppReply(v, f, bytes, stored)
        && (stored <==> Offered(v, f, bytes) && |v.input| < NUMPACKETS
                        && !Exhausted(old(pool.Blocks()), pool.slots, pool.capacity, len))
        && appstate[..] == old(appstate[..])[c := if Leaves(f) || r.close then None else Some(u)]
        && (r.sendLen > 0 ==> Carries(AfterAck(v, f).output.Chunk()) || Dropped(r.sendLen))
      ensures SendsAfter(r.sendLen, old(uipPacket), old(sendPacket), old(Sends()))
    {
      hide Valid, State, Server, Serving, AppNext, AppReply, AfterAck;
      hide Offered, Leaves, Exhausted, Carries, Dropped, Overwritten;
      var u := Attach(c, f);
      if u == None {
        return SILENT, false;
      }
      r, stored := Serve(c, u.value, f, pos, len, lport);
    }

    // ----- transmission

    /**
     Sends the frame made of the header in the buffer and, if the callback left one,
     the payload in the transient block; the block is given back once it is out.
     */
    method NetworkSend(buffer: seq<byte>, len: u16, sent: bool) returns (ok: bool, ghost frame: seq<byte>)
      requires Valid() && HEADER_LEN <= |buffer| < 0x1_0000 && len + SENDBUFFER_OFFSET + SENDBUFFER_PADDING < 0x1_0000
      requires sendPacket || len <= |buffer|
        || Exhausted(pool.Blocks(), pool.slots, pool.capacity, len + SENDBUFFER_OFFSET + SENDBUFFER_PADDING)
      requires sendPacket ==> exists chunk :: Carries(chunk)
      modifies this, pool, pool.blocks, pool.mem
      ensures Valid() && State() == old(State()) && pool.Received() == old(pool.Received()) && !sendPacket
      ensures uipPacket == if old(sendPacket) && !sent then old(uipPacket) else NOBLOCK
      ensures lost == if old(sendPacket) then old(lost) else Overwritten(old(Sends())).lost
      ensures !old(sendPacket) ==> pool.Blocks() == old(pool.Blocks())
      ensures old(sendPacket) ==> pool.Blocks() - {old(uipPacket)} == old(pool.Blocks()) - {old(uipPacket)}
      ensures ok == (sent && (old(sendPacket)
        || !old(Exhausted(pool.Blocks(), pool.slots, pool.capacity, len + SENDBUFFER_OFFSET + SENDBUFFER_PADDING))))
      ensures ok ==> forall chunk :: old(Carries(chunk)) ==> frame == buffer[..HEADER_LEN] + chunk
      ensures ok && !old(sendPacket) ==> frame == buffer[..len]
    {
      hide Live, WellFormed, InMemory, Owned, UserOk, ViewOf, Stored;
      if sendPacket {
        SendFacts();
        frame := WriteFrame(buffer[..HEADER_LEN]);
        sendPacket := false;
        if sent {
          DropSend();
        }
        return sent, frame;
      }
      AllocSend(len + SENDBUFFER_OFFSET + SENDBUFFER_PADDING);
      if uipPacket == NOBLOCK {
        return false, [];
      }
      frame := WriteFrame(buffer[..len]);
      DropSend();
      return sent, frame;
    }

    /** One entry into the engine for connection `c`, with all that is decided outside the socket layer. */
    ghost predicate JobOk(job: Job)
      requires Valid()
      reads this, pool, pool.blocks, pool.mem, data, appstate
    {
      && job.c < appstate.Length && HEADER_LEN <= |job.buffer| && job.reply <= |job.buffer|
      && |job.buffer| + SENDBUFFER_OFFSET + SENDBUFFER_PADDING < 0x1_0000
      && (job.call.Some? && job.call.value.newdata ==> job.pos + job.len <= |pool.Received()|)
    }

    /** The blocks that left the care of the connections and have not been given back: lost, or still held. */
    ghost function Held(): nat
      reads this
    {
      |Overwritten(Sends()).lost|
    }

    /**
     One entry into the engine and the transmission that follows it. If a send block is
     due, what goes out behind the header is exactly the chunk. Without memory for that
     block nothing goes out, since the transmission asks for just as much and fails as
     well; only a request for an unknown hardware address, being short, may still find
     memory. A block is kept back exactly if the transmission of a send block fails.
     */
    method CallAndSend(job: Job) returns (r: Reply, stored: bool, due: bool, ok: bool, ghost frame: seq<byte>)
      requires Valid() && !sendPacket && JobOk(job)
      modifies this, pool, pool.blocks, pool.mem, data, appstate
      ensures Valid() && !sendPacket && pool.Received() == old(pool.Received())
      ensures Held() == old(Held()) + if due && !job.sent then 1 else 0
      ensures job.call.Some? ==>
        CallDone(old(Serving(job.c, job.call.value)), old(Server(job.c, job.call.value)), job.call.value,
                 job.Bytes(pool.Received()), old(State()), State(), r, stored)
      ensures job.call.None? ==> r == SILENT && State() == old(State())
      ensures due ==> job.call.Some? && r.sendLen > 0 && ok == job.sent
      ensures due && ok ==>
        && old(Serving(job.c, job.call.value)).Some?
        && var v := old(Serving(job.c, job.call.value)).value;
        frame == job.buffer[..HEADER_LEN] + AfterAck(v, job.call.value).output.Chunk()
      ensures r.sendLen > 0 && !due ==> (ok ==> !job.known && frame == job.buffer[..ARP_LEN]) && Dropped(r.sendLen)
      ensures r.sendLen == 0 ==> if job.reply == 0 then !ok && Sends() == old(Sends())
                                 else ok ==> frame == job.buffer[..job.FrameLen(job.reply)]
    {
      hide Valid, State, Server, Serving, AfterAck, Exhausted, Carries, Dropped, Held, CallDone;
      r, stored := SILENT, false;
      ghost var chunk: seq<byte> := [];
      if job.call.Some? {
        r, stored, chunk := CallFor(job);
      }
      due, ok, frame := SendFor(job, r.sendLen, chunk);
    }

    /** The callback, and whether a send block is due after it. */
    method CallFor(job: Job) returns (r: Reply, stored: bool, ghost chunk: seq<byte>)
      requires Valid() && !sendPacket && JobOk(job) && job.call.Some?
      modifies this, pool, pool.blocks, pool.mem, data, appstate
      ensures Valid() && JobOk(job) && pool.Received() == old(pool.Received()) && r.sendLen <= DATALEN
      ensures CallDone(old(Serving(job.c, job.call.value)), old(Server(job.c, job.call.value)), job.call.value,
                       job.Bytes(pool.Received()), old(State()), State(), r, stored)
      ensures sendPacket <==> r.sendLen > 0 && Carries(chunk)
      ensures r.sendLen > 0 && !sendPacket ==> Dropped(r.sendLen)
      ensures r.sendLen > 0 ==>
        && old(Serving(job.c, job.call.value)).Some?
        && chunk == AfterAck(old(Serving(job.c, job.call.value)).value, job.call.value).output.Chunk()
      ensures Held() == old(Held()) + (if sendPacket then 1 else 0) && (r.sendLen == 0 ==> Sends() == old(Sends()))
    {
      hide Valid, State, Server, Serving, AppNext, AppReply, AfterAck, Exhausted;
      hide Carries, Dropped, SendsAfter, Overwritten;
      ghost var f, v := job.call.value, Serving(job.c, job.call.value);
      r, stored := AppCall(job.c, job.call.value, job.pos, job.len, job.lport);
      chunk := if v.Some? then AfterAck(v.value, f).output.Chunk() else [];
      if v.Some? { ReplyFits(v.value, f, job.Bytes(pool.Received()), stored); }
      SendDue(r.sendLen, chunk, old(uipPacket), old(Sends()));
    }

    lemma ReplyFits(v: View, f: AppFlags, bytes: seq<byte>, stored: bool)
      requires v.output.Ok()
      ensures AppReply(v, f, bytes, stored).sendLen <= DATALEN
    {
    }

    /** After a callback a send block is due exactly if it carries the chunk; it is then one more block held. */
    lemma SendDue(sendLen: nat, chunk: seq<byte>, before: nat, sends: SendBlocks)
      requires Valid() && (sendLen > 0 ==> Carries(chunk) || Dropped(sendLen))
      requires SendsAfter(sendLen, before, false, sends)
      ensures sendPacket <==> sendLen > 0 && Carries(chunk)
      ensures sendLen > 0 && !sendPacket ==> Dropped(sendLen)
      ensures Held() == |Overwritten(sends).lost| + if sendPacket then 1 else 0
      ensures sendLen == 0 ==> Sends() == sends
    {
      hide Live, WellFormed, InMemory, Owned, UserOk, ViewOf, Exhausted;
      if sendLen > 0 && Carries(chunk) { SendFacts(); }
    }

    /** The transmission after a callback that wanted `sendLen` bytes sent. */
    method SendFor(job: Job, sendLen: nat, ghost chunk: seq<byte>) returns (due: bool, ok: bool, ghost frame: seq<byte>)
      requires Valid() && JobOk(job) && sendLen <= DATALEN
      requires sendPacket <==> sendLen > 0 && Carries(chunk)
      requires sendLen > 0 && !sendPacket ==> Dropped(sendLen)
      modifies this, pool, pool.blocks, pool.mem
      ensures Valid() && !sendPacket && State() == old(State()) && pool.Received() == old(pool.Received())
      ensures due == old(sendPacket) && Held() == old(Held()) - if due && job.sent then 1 else 0
      ensures due ==> ok == job.sent && (ok ==> frame == job.buffer[..HEADER_LEN] + chunk)
      ensures sendLen > 0 && !due ==> (ok ==> !job.known && frame == job.buffer[..ARP_LEN]) && Dropped(sendLen)
      ensures sendLen == 0 ==> if job.reply == 0 then !ok && Sends() == old(Sends())
                               else ok ==> frame == job.buffer[..job.FrameLen(job.reply)]
    {
      hide Live, WellFormed, InMemory, Owned, UserOk, ViewOf, Exhausted;
      due, ok, frame := sendPacket, false, [];
      if due { SendFacts(); }
      var len := if sendLen > 0 then HEADER_LEN + sendLen else job.reply;
      if len > 0 {
        ok, frame := NetworkSend(job.buffer, job.FrameLen(len), job.sent);
      }
    }

    /**
     A turn of the whole stack: the packet that arrived, if any, then every connection's
     timer. Each send block whose transmission fails is kept back for good, and no other one.
     */
    method Tick(arrived: Option<Job>, ip: bool, jobs: seq<Job>) returns (failed: nat)
      requires Valid() && !sendPacket
      requires (arrived.Some? ==> JobOk(arrived.value)) && forall i :: 0 <= i < |jobs| ==> JobOk(jobs[i])
      modifies this, pool, pool.blocks, pool.mem, data, appstate
      ensures Valid() && !sendPacket && pool.Received() == old(pool.Received())
      ensures Held() == old(Held()) + failed
      ensures (arrived.Some? ==> arrived.value.sent) && (forall i :: 0 <= i < |jobs| ==> jobs[i].sent) ==> failed == 0
    {
      hide Valid, State, Server, Serving, AppNext, AppReply, AfterAck, Exhausted, Held;
      failed := 0;
      if arrived.Some? {
        if ip {
          TakePacket();
        }
        var _, _, due, _, _ := CallAndSend(arrived.value);
        failed := if due && !arrived.value.sent then 1 else 0;
      }
      for n := 0 to |jobs|
        invariant Valid() && !sendPacket && pool.Received() == old(pool.Received())
        invariant forall i :: 0 <= i < |jobs| ==> JobOk(jobs[i])
        invariant Held() == old(Held()) + failed
        invariant (arrived.Some? ==> arrived.value.sent) && (forall i :: 0 <= i < n ==> jobs[i].sent) ==> failed == 0
      {
        var _, _, due, _, _ := CallAndSend(jobs[n]);
        failed := failed + if due && !jobs[n].sent then 1 else 0;
      }
    }

    /** Every block of the pool is in some connection's queue exactly if none is held back. */
    lemma NoneHeldBack()
      requires Valid()
      ensures Held() == 0 <==> forall h :: h in pool.Blocks() ==> Queued(h)
      ensures Held() == 0 <==> lost == [] && SendHandle() == NOBLOCK
    {
      hide UserOk, ViewOf, Live, Queued;
      if Held() == 0 {
        forall h | h in pool.Blocks() ensures Queued(h) {
          QueuedIsOwned(h);
          assert HandleAt(data[..], Sends(), owner[h]) == h;
        }
      } else {
        var f := if SendHandle() != NOBLOCK then SendField else LostField(0);
        var h := HandleAt(data[..], Sends(), f);
        assert h != NOBLOCK;
        assert h in pool.Blocks() && owner[h] == f;
        QueuedIsOwned(h);
      }
    }

    lemma QueuedIsOwned(h: nat)
      requires Valid() && h in pool.Blocks()
      ensures h in owner && (Queued(h) <==> !owner[h].Apart())
    {
      hide UserOk, ViewOf, Live;
      assert h != NOBLOCK && HandleAt(data[..], Sends(), owner[h]) == h;
      if Queued(h) {
        var u: nat, i: nat :| u < data.Length && InQueues(data[u], i, h);
        assert HandleAt(data[..], Sends(), InField(u, i)) == h || HandleAt(data[..], Sends(), OutField(u, i)) == h;
      }
      if !owner[h].Apart() {
        assert InQueues(data[owner[h].user], owner[h].slot, h);
      }
    }

    /** The handle is one of a connection's queues. */
    ghost predicate Queued(h: nat)
      reads data
    {
      exists u: nat, i: nat :: u < data.Length && InQueues(data[u], i, h)
    }

    /**
     A transmission and the next packet received: a block is lost exactly if it was due
     and its transmission failed.
     */
    method SendAndReceive(buffer: seq<byte>, len: u16, sent: bool) returns (ok: bool)
      requires Valid() && HEADER_LEN <= |buffer| < 0x1_0000 && len + SENDBUFFER_OFFSET + SENDBUFFER_PADDING < 0x1_0000
      requires sendPacket || len <= |buffer|
        || Exhausted(pool.Blocks(), pool.slots, pool.capacity, len + SENDBUFFER_OFFSET + SENDBUFFER_PADDING)
      requires if sendPacket then exists chunk :: Carries(chunk) else SendHandle() == NOBLOCK
      modifies this, pool, pool.blocks, pool.mem
      ensures Valid() && State() == old(State()) && SendHandle() == NOBLOCK && !sendPacket
      ensures lost == old(lost) <==> !(old(sendPacket) && !sent)
    {
      hide Valid, State, Exhausted;
      ghost var frame;
      ok, frame := NetworkSend(buffer, len, sent);
      TakePacket();
    }

    /** A packet has been received, and becomes the one the checksums read; a send block still held is lost. */
    method TakePacket()
      requires Valid()
      modifies this`owner, this`lost, this`uipPacket, this`sendPacket
      ensures Valid() && State() == old(State()) && pool.Blocks() == old(pool.Blocks())
      ensures uipPacket == RECEIVE_BUFFER && !sendPacket && Sends() == Overwritten(old(Sends()))
      ensures Held() == old(Held())
    {
      hide Live, WellFormed, InMemory, Owned, UserOk, ViewOf;
      owner := LoseBlock(data[..], Sends(), pool.Blocks(), owner);
      lost := Overwritten(Sends()).lost;
      uipPacket, sendPacket := RECEIVE_BUFFER, false;
    }

    lemma SendFacts()
      requires Valid() && sendPacket && exists chunk :: Carries(chunk)
      ensures SendHandle() in pool.Blocks() && SendHandle() == uipPacket != NOBLOCK
      ensures HEADER_LEN + SENDBUFFER_OFFSET + SENDBUFFER_PADDING <= |pool.Blocks()[uipPacket]|
    {
      LiveBelow(SendHandle());
    }

    /** Writes `bytes` behind the control byte of the send block; `frame` is what the controller puts on the wire. */
    method WriteFrame(bytes: seq<byte>) returns (ghost frame: seq<byte>)
      requires Valid() && SendHandle() in pool.Blocks() && SendHandle() == uipPacket
      requires |bytes| + SENDBUFFER_OFFSET + SENDBUFFER_PADDING <= |pool.Blocks()[uipPacket]|
      modifies this`owner, pool.mem
      ensures Valid() && State() == old(State()) && pool.Received() == old(pool.Received())
      ensures SendHandle() in pool.Blocks() && pool.Blocks() - {uipPacket} == old(pool.Blocks()) - {uipPacket}
      ensures var block := old(pool.Blocks()[uipPacket]);
        frame == bytes + block[SENDBUFFER_OFFSET + |bytes|..|block| - SENDBUFFER_PADDING]
    {
      hide Live, WellFormed, InMemory, Owned, UserOk, ViewOf;
      LiveBelow(uipPacket);
      ghost var m0, block := pool.Blocks(), pool.Blocks()[uipPacket];
      var written := pool.WritePacket(uipPacket, SENDBUFFER_OFFSET, bytes);
      assert bytes[..written] == bytes;
      UpdateSameBut(m0, uipPacket, pool.Blocks()[uipPacket]);
      owner := SendBuffer(data[..], Sends(), m0, owner, SendHandle(), pool.Blocks());
      frame := pool.Blocks()[uipPacket][SENDBUFFER_OFFSET..|block| - SENDBUFFER_PADDING];
      assert frame == bytes + block[SENDBUFFER_OFFSET + |bytes|..|block| - SENDBUFFER_PADDING];
    }

    method DropSend()
      requires Valid() && SendHandle() in pool.Blocks() && SendHandle() == uipPacket
      modifies this`owner, this`uipPacket, pool`order, pool.blocks
      ensures Valid() && State() == old(State()) && pool.Received() == old(pool.Received())
      ensures uipPacket == NOBLOCK && SendHandle() == NOBLOCK
      ensures pool.Blocks() == old(pool.Blocks()) - {old(uipPacket)}
    {
      hide Live, WellFormed, InMemory, Owned, UserOk, ViewOf;
      ghost var m0, h := pool.Blocks(), uipPacket;
      pool.FreeBlock(uipPacket);
      owner := SendBuffer(data[..], SendBlocks(h, lost), m0, owner, NOBLOCK, pool.Blocks());
      uipPacket := NOBLOCK;
    }
  }
}
