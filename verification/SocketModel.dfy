/**
 A connection's packet queues, on values: arrays of handles whose occupied
 part is a prefix, and the byte strings those handles hold in the pool.
 */
module SocketModel {
  import opened Machine
  import opened ChipMemory
  import opened Callback

  const NUMPACKETS: nat := 5
  const DATALEN: u16 := 512

  type Pool = map<nat, seq<byte>>

  // ----- handle arrays

  /** The occupied handles are the first `n`, and each is live. */
  ghost predicate Occupied(q: seq<nat>, m: Pool, n: nat) {
    && n <= |q| == NUMPACKETS
    && (forall i :: 0 <= i < n ==> q[i] != 0 && q[i] in m)
    && (forall i :: n <= i < |q| ==> q[i] == 0)
  }

  function Used(q: seq<nat>): (n: nat)
    ensures n <= |q|
    ensures forall i :: 0 <= i < n ==> q[i] != 0
    ensures n < |q| ==> q[n] == 0
  {
    if q == [] || q[0] == 0 then 0 else 1 + Used(q[1..])
  }

  ghost predicate QueueOk(q: seq<nat>, m: Pool) {
    Occupied(q, m, Used(q))
  }

  lemma OccupiedIsUsed(q: seq<nat>, m: Pool, n: nat)
    requires Occupied(q, m, n)
    ensures Used(q) == n && QueueOk(q, m)
  {
    assert Used(q) == |q| || q[Used(q)] == 0;
    assert n == |q| || q[n] == 0;
  }

  /** What the queue holds, block by block. */
  ghost function Contents(q: seq<nat>, m: Pool): (c: seq<seq<byte>>)
    requires QueueOk(q, m)
    ensures |c| == Used(q)
    ensures forall i :: 0 <= i < |c| ==> c[i] == m[q[i]]
  {
    seq(Used(q), i requires 0 <= i < Used(q) => m[q[i]])
  }

  function Shifted(q: seq<nat>): (r: seq<nat>)
    requires |q| > 0
    ensures |r| == |q| && r[|q| - 1] == 0
    ensures forall i :: 0 <= i < |q| - 1 ==> r[i] == q[i + 1]
  {
    q[1..] + [0]
  }

  // ----- byte streams

  ghost function Concat(bs: seq<seq<byte>>): seq<byte> {
    if bs == [] then [] else bs[0] + Concat(bs[1..])
  }

  lemma {:induction false} ConcatSplit(a: seq<seq<byte>>, b: seq<seq<byte>>)
    ensures Concat(a + b) == Concat(a) + Concat(b)
  {
    if a == [] {
      assert a + b == b;
    } else {
      ConcatSplit(a[1..], b);
      assert (a + b)[1..] == a[1..] + b;
      Associative(a[0], Concat(a[1..]), Concat(b));
    }
  }

  lemma ConcatOne(s: seq<byte>)
    ensures Concat([s]) == s
  {
    assert [s][1..] == [];
  }

  /** An outgoing queue: blocks in order, the last one filled up to `pos`. */
  datatype OutQueue = OutQueue(blocks: seq<seq<byte>>, pos: nat) {
    ghost predicate Ok() {
      && (forall i :: 0 <= i < |blocks| ==> 0 < |blocks[i]| <= DATALEN)
      && (blocks != [] ==> pos <= |blocks[|blocks| - 1]|)
    }

    /** No room is left in the last block. */
    ghost predicate Full() {
      blocks == [] || pos == |blocks[|blocks| - 1]|
    }

    /** The bytes written and not yet given up. */
    ghost function Bytes(): seq<byte>
      requires Ok()
    {
      if blocks == [] then []
      else Concat(blocks[..|blocks| - 1]) + blocks[|blocks| - 1][..pos]
    }

    /** How much of the first block is ready to go out: all of it once another follows. */
    ghost function Ready(): nat {
      if blocks == [] then 0 else if |blocks| == 1 then pos else |blocks[0]|
    }

    ghost function Chunk(): seq<byte>
      requires Ok()
    {
      if blocks == [] then [] else blocks[0][..Ready()]
    }

    /** A transmission closes the only block at its fill position, so that later writes cannot enter it. */
    ghost function Sealed(): OutQueue
      requires Ok()
    {
      if |blocks| == 1 && pos > 0 then OutQueue([blocks[0][..pos]], pos) else this
    }

    ghost function Eaten(): (o: OutQueue)
      requires Ok()
      ensures o.Ok()
    {
      if blocks == [] then this else OutQueue(blocks[1..], pos)
    }
  }

  /** `after` is `before` with `data` written behind it: full blocks and written bytes stay put. */
  ghost predicate Wrote(before: OutQueue, after: OutQueue, data: seq<byte>) {
    && before.Ok() && after.Ok()
    && after.Bytes() == before.Bytes() + data
    && |before.blocks| <= |after.blocks|
    && (forall i :: 0 <= i < |before.blocks| - 1 ==> after.blocks[i] == before.blocks[i])
    && (before.blocks != [] ==>
          var last := |before.blocks| - 1;
          && |after.blocks[last]| == |before.blocks[last]|
          && after.blocks[last][..before.pos] == before.blocks[last][..before.pos])
    && (|before.blocks| == |after.blocks| ==> before.pos <= after.pos || before.blocks == [])
  }

  /** Sealing and giving up a block lose nothing but that block's bytes. */
  lemma SealedBytes(o: OutQueue)
    requires o.Ok()
    ensures o.Sealed().Ok() && o.Sealed().Bytes() == o.Bytes()
    ensures o.Ready() > 0 ==> o.Sealed().blocks[0] == o.Chunk() && o.Sealed().Chunk() == o.Chunk()
  {
  }

  lemma EatenBytes(o: OutQueue)
    requires o.Ok() && o.blocks != []
    ensures o.Bytes() == o.Chunk() + o.Eaten().Bytes()
  {
    if |o.blocks| > 1 {
      var init := o.blocks[..|o.blocks| - 1];
      assert init[0] == o.blocks[0] && init[1..] == o.Eaten().blocks[..|o.blocks| - 2];
    }
  }

  /** A block handed to transmission is the same after any write. */
  lemma WroteKeepsChunk(before: OutQueue, after: OutQueue, data: seq<byte>)
    requires Wrote(before, after, data) && before.blocks != []
    requires before.Ready() == |before.blocks[0]|
    ensures after.blocks[0] == before.blocks[0]
    ensures after.Ready() == before.Ready() && after.Chunk() == before.Chunk()
  {
    if |before.blocks| == 1 {
      assert after.blocks[0][..before.pos] == before.blocks[0][..before.pos];
      assert before.blocks[0][..before.pos] == before.blocks[0] && after.blocks[0][..before.pos] == after.blocks[0];
    }
  }

  /** Storing into the room left in the last block. */
  lemma FillLast(o: OutQueue, data: seq<byte>)
    requires o.Ok() && o.blocks != [] && o.pos + |data| <= |o.blocks[|o.blocks| - 1]|
    ensures var last := |o.blocks| - 1;
      Wrote(o, OutQueue(o.blocks[last := Stored(o.blocks[last], o.pos, data)], o.pos + |data|), data)
  {
    var last := |o.blocks| - 1;
    var b := Stored(o.blocks[last], o.pos, data);
    var o' := OutQueue(o.blocks[last := b], o.pos + |data|);
    assert o'.blocks[..last] == o.blocks[..last];
    assert b[..o.pos + |data|] == o.blocks[last][..o.pos] + data;
  }

  /** A fresh block behind a full last one. */
  lemma AddBlock(o: OutQueue, block: seq<byte>)
    requires 0 < |block| <= DATALEN
    requires o.Ok() && o.Full()
    ensures Wrote(o, OutQueue(o.blocks + [block], 0), [])
  {
    var o' := OutQueue(o.blocks + [block], 0);
    assert o'.blocks[..|o.blocks|] == o.blocks;
    if o.blocks != [] {
      var last := |o.blocks| - 1;
      ConcatSplit(o.blocks[..last], [o.blocks[last]]);
      ConcatOne(o.blocks[last]);
      assert o.blocks[..last] + [o.blocks[last]] == o.blocks;
      assert o.blocks[last][..o.pos] == o.blocks[last];
    }
  }

  lemma WroteNothing(o: OutQueue)
    requires o.Ok()
    ensures Wrote(o, o, [])
  {
  }

  lemma WroteTwice(a: OutQueue, b: OutQueue, c: OutQueue, d1: seq<byte>, d2: seq<byte>)
    requires Wrote(a, b, d1) && Wrote(b, c, d2)
    ensures Wrote(a, c, d1 + d2)
  {
    if a.blocks != [] {
      var last := |a.blocks| - 1;
      if last < |b.blocks| - 1 {
        assert c.blocks[last] == b.blocks[last];
      } else {
        assert a.pos <= b.pos;
        assert c.blocks[last][..a.pos] == c.blocks[last][..b.pos][..a.pos];
        assert b.blocks[last][..a.pos] == b.blocks[last][..b.pos][..a.pos];
      }
    }
  }

  // ----- one connection as its user sees it, and the callback that serves it

  datatype View = View(
    sock: nat, connected: bool, close: bool, remoteClosed: bool, restart: bool,
    input: seq<seq<byte>>, output: OutQueue)

  const FREE: View := View(0, false, false, false, false, [], OutQueue([], 0))

  /** User data just handed to a new connection. */
  function Fresh(sock: nat): View {
    View(sock, true, false, false, false, [], OutQueue([], 0))
  }

  datatype Reply = Reply(flow: Flow, newdata: bool, close: bool, sendLen: nat)

  const SILENT: Reply := Reply(Keep, false, false, 0)

  ghost predicate Offered(v: View, f: AppFlags, data: seq<byte>) {
    f.newdata && data != [] && !v.close && !v.remoteClosed
  }

  ghost function AfterData(v: View, f: AppFlags, data: seq<byte>, stored: bool): View {
    (if Offered(v, f, data) && stored then v.(input := v.input + [data]) else v).(restart := false)
  }

  ghost function AfterAck(v: View, f: AppFlags): (r: View)
    requires v.output.Ok()
    ensures r.output.Ok()
  {
    if f.acked then v.(output := v.output.Eaten()) else v
  }

  ghost predicate Transmits(v: View, f: AppFlags)
    requires v.output.Ok()
  {
    (f.poll || f.rexmit) && AfterAck(v, f).output.blocks != []
  }

  ghost predicate Leaves(f: AppFlags) {
    f.closed || f.timedout
  }

  /** Nothing left to wait for: neither ending nor transmitting. */
  ghost predicate Quiet(v: View, f: AppFlags)
    requires v.output.Ok()
  {
    !Leaves(f) && !Transmits(v, f)
  }

  /** Second half of the callback: end of connection, acknowledgement, transmission, close. */
  ghost function Served(v: View, f: AppFlags): View
    requires v.output.Ok()
  {
    var v' := AfterAck(v, f);
    if Leaves(f) then
      if v.input != [] then v.(remoteClosed := true, output := OutQueue([], 0)) else FREE
    else if Transmits(v, f) then v'.(output := v'.output.Sealed())
    else if v.close && v'.output.blocks == [] then FREE
    else v'
  }

  /** The connection after one callback; `stored` says whether memory was found for the offered data. */
  ghost function AppNext(v: View, f: AppFlags, data: seq<byte>, stored: bool): View
    requires v.output.Ok()
  {
    Served(AfterData(v, f, data, stored), f)
  }

  /** What the callback tells the protocol engine. */
  ghost function AppReply(v: View, f: AppFlags, data: seq<byte>, stored: bool): Reply
    requires v.output.Ok()
  {
    var o := AfterAck(v, f).output;
    var full := Offered(v, f, data) && (!stored || |v.input| == NUMPACKETS - 1);
    Reply(
      if Quiet(v, f) && v.close && o.blocks != [] then Halt
      else if v.restart then Resume
      else if full then Halt else Keep,
      v.restart,
      Quiet(v, f) && v.close && o.blocks == [],
      if !Leaves(f) && Transmits(v, f) then o.Ready() else 0)
  }
}
