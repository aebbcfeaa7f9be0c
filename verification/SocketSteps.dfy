/** What each single pool operation does to the connection that owns the block, on values. */
module SocketSteps {
  import opened Machine
  import opened SocketModel
  import opened Ownership

  // ----- queues alone

  lemma QueueAppend(q: seq<nat>, m: Pool, h: nat, m': Pool)
    requires QueueOk(q, m) && Used(q) < NUMPACKETS && h != 0 && h !in m && h in m' && SameBut(m, m', h)
    ensures QueueOk(q[Used(q) := h], m') && Used(q[Used(q) := h]) == Used(q) + 1
    ensures Contents(q[Used(q) := h], m') == Contents(q, m) + [m'[h]]
  {
    OccupiedIsUsed(q[Used(q) := h], m', Used(q) + 1);
  }

  lemma QueueSet(q: seq<nat>, m: Pool, i: nat, m': Pool)
    requires QueueOk(q, m) && i < Used(q) && q[i] in m' && SameBut(m, m', q[i])
    requires forall j :: 0 <= j < Used(q) && j != i ==> q[j] != q[i]
    ensures QueueOk(q, m') && Contents(q, m') == Contents(q, m)[i := m'[q[i]]]
  {
    OccupiedIsUsed(q, m', Used(q));
  }

  /** No handle occurs twice in one queue. */
  lemma QueueDistinct(data: seq<UserData>, send: SendBlocks, m: Pool, owner: map<nat, Field>, u: nat, incoming: bool,
                      i: nat)
    requires SocketsOk(data, send, m, owner) && u < |data| && (incoming || data[u].Sending())
    requires i < Used(if incoming then data[u].packetsIn else data[u].packetsOut)
    ensures var q := if incoming then data[u].packetsIn else data[u].packetsOut;
      && q[i] in owner && owner[q[i]] == (if incoming then InField(u, i) else OutField(u, i))
      && forall j :: 0 <= j < Used(q) && j != i ==> q[j] != q[i]
  {
    var q := if incoming then data[u].packetsIn else data[u].packetsOut;
    assert HandleAt(data, send, if incoming then InField(u, i) else OutField(u, i)) == q[i];
    forall j | 0 <= j < Used(q) && j != i ensures q[j] != q[i] {
      assert HandleAt(data, send, if incoming then InField(u, j) else OutField(u, j)) == q[j];
    }
  }

  /** Ownership after block `h` lands in field `f` of user `u`, whose data becomes `d'`. */
  lemma Landed(data: seq<UserData>, send: SendBlocks, m: Pool, owner: map<nat, Field>, u: nat, d': UserData,
               f: Field, h: nat, m': Pool)
    requires Owned(data, send, m, owner) && u < |data|
    requires h != 0 && h !in m && h in m' && SameBut(m, m', h)
    requires match f
      case InField(v, n) => v == u && n < |data[u].packetsIn| && data[u].packetsIn[n] == 0
        && d' == data[u].(packetsIn := data[u].packetsIn[n := h])
      case OutField(v, n) => v == u && n < |data[u].packetsOut| && data[u].packetsOut[n] == 0 && data[u].Sending()
        && d' == data[u].(packetsOut := data[u].packetsOut[n := h], outPos := 0)
      case _ => false
    ensures Owned(data[u := d'], send, m', owner[h := f])
  {
    forall g | g != f ensures HandleAt(data[u := d'], send, g) == HandleAt(data, send, g) { }
    Acquire(data, send, m, owner, data[u := d'], send, m', f, h);
  }

  lemma NullUnowned(data: seq<UserData>, send: SendBlocks, m: Pool, owner: map<nat, Field>)
    requires Owned(data, send, m, owner)
    ensures 0 !in m
  {
  }

  lemma SameKeys(data: seq<UserData>, send: SendBlocks, m: Pool, owner: map<nat, Field>, m': Pool, h: nat)
    requires Owned(data, send, m, owner) && h in m && h in m' && SameBut(m, m', h)
    ensures Owned(data, send, m', owner)
  {
    assert m'.Keys == m.Keys;
  }

  lemma Repositioned(data: seq<UserData>, send: SendBlocks, m: Pool, owner: map<nat, Field>, u: nat, pos: u16,
                     m': Pool, h: nat)
    requires Owned(data, send, m, owner) && h in m && h in m' && SameBut(m, m', h) && u < |data|
    ensures Owned(data[u := data[u].(outPos := pos)], send, m', owner)
  {
    assert m'.Keys == m.Keys;
    OwnedSame(data, send, m, owner, data[u := data[u].(outPos := pos)], m');
  }

  // ----- the user data that changes

  lemma UserTakesIn(d: UserData, m: Pool, h: nat, m': Pool)
    requires UserOk(d, m) && d.InUse() && !d.close && Used(d.packetsIn) < NUMPACKETS
    requires h != 0 && h !in m && h in m' && SameBut(m, m', h)
    requires d.Sending() ==> QueueSame(d.packetsOut, m, m')
    ensures var d' := d.(packetsIn := d.packetsIn[Used(d.packetsIn) := h]);
      && UserOk(d', m') && ViewOf(d', m') == ViewOf(d, m).(input := ViewOf(d, m).input + [m'[h]])
  {
    QueueAppend(d.packetsIn, m, h, m');
  }

  lemma UserTakesOut(d: UserData, m: Pool, h: nat, m': Pool)
    requires UserOk(d, m) && d.Sending() && Used(d.packetsOut) < NUMPACKETS && h in m' && 0 < |m'[h]| <= DATALEN
    requires h != 0 && h !in m && h in m' && SameBut(m, m', h)
    requires QueueSame(d.packetsIn, m, m')
    ensures var d' := d.(packetsOut := d.packetsOut[Used(d.packetsOut) := h], outPos := 0);
      && UserOk(d', m')
      && ViewOf(d', m') == ViewOf(d, m).(output := OutQueue(ViewOf(d, m).output.blocks + [m'[h]], 0))
  {
    QueueAppend(d.packetsOut, m, h, m');
  }

  lemma UserSetsOut(d: UserData, m: Pool, i: nat, m': Pool, pos: u16)
    requires UserOk(d, m) && d.Sending() && i < Used(d.packetsOut)
    requires d.packetsOut[i] in m' && SameBut(m, m', d.packetsOut[i]) && 0 < |m'[d.packetsOut[i]]| <= DATALEN
    requires forall j :: 0 <= j < Used(d.packetsOut) && j != i ==> d.packetsOut[j] != d.packetsOut[i]
    requires if i == Used(d.packetsOut) - 1 then pos <= |m'[d.packetsOut[i]]| else pos == d.outPos
    requires QueueSame(d.packetsIn, m, m')
    ensures var d', o := d.(outPos := pos), ViewOf(d, m).output;
      && UserOk(d', m')
      && ViewOf(d', m') == ViewOf(d, m).(output := OutQueue(o.blocks[i := m'[d.packetsOut[i]]], pos))
  {
    QueueSet(d.packetsOut, m, i, m');
  }

  lemma UserSetsIn(d: UserData, m: Pool, m': Pool)
    requires UserOk(d, m) && 0 < Used(d.packetsIn)
    requires d.packetsIn[0] in m' && SameBut(m, m', d.packetsIn[0])
    requires forall j :: 0 < j < Used(d.packetsIn) ==> d.packetsIn[j] != d.packetsIn[0]
    requires d.Sending() ==> QueueSame(d.packetsOut, m, m')
    ensures UserOk(d, m')
    ensures ViewOf(d, m') == ViewOf(d, m).(input := ViewOf(d, m).input[0 := m'[d.packetsIn[0]]])
  {
    QueueSet(d.packetsIn, m, 0, m');
  }

  lemma UserEats(d: UserData, m: Pool, m': Pool, incoming: bool)
    requires UserOk(d, m) && (incoming || d.Sending())
    requires var q := if incoming then d.packetsIn else d.packetsOut;
      SameBut(m, m', q[0]) && forall i :: 0 < i < Used(q) ==> q[i] != q[0]
    requires if incoming then d.Sending() ==> QueueSame(d.packetsOut, m, m') else QueueSame(d.packetsIn, m, m')
    ensures var v := ViewOf(d, m);
      var d' := if incoming then d.(packetsIn := Shifted(d.packetsIn)) else d.(packetsOut := Shifted(d.packetsOut));
      && UserOk(d', m')
      && ViewOf(d', m') == if incoming then v.(input := Tail(v.input)) else v.(output := v.output.Eaten())
  {
    ShiftedQueue(if incoming then d.packetsIn else d.packetsOut, m, m');
  }

  // ----- pool operations

  /** A received block is queued behind the last incoming one. */
  lemma TakeIn(data: seq<UserData>, send: SendBlocks, m: Pool, owner: map<nat, Field>, u: nat, h: nat, m': Pool)
    requires SocketsOk(data, send, m, owner) && u < |data| && data[u].InUse() && !data[u].close
    requires h != 0 && h !in m && h in m' && SameBut(m, m', h)
    requires Used(data[u].packetsIn) < NUMPACKETS
    ensures var n := Used(data[u].packetsIn);
      var d' := data[u].(packetsIn := data[u].packetsIn[n := h]);
      && SocketsOk(data[u := d'], send, m', owner[h := InField(u, n)])
      && Views(data[u := d'], m')
         == Views(data, m)[u := ViewOf(data[u], m).(input := ViewOf(data[u], m).input + [m'[h]])]
  {
    var d := data[u];
    var n := Used(d.packetsIn);
    var d' := d.(packetsIn := d.packetsIn[n := h]);
    hide HandleAt, Owned, UserOk, ViewOf;
    Landed(data, send, m, owner, u, d', InField(u, n), h, m');
    if d.Sending() { OtherQueueKeeps(data, send, m, owner, m', h, u, false); }
    UserTakesIn(d, m, h, m');
    OthersKeep(data, send, m, owner, data[u := d'], send, m', owner[h := InField(u, n)], h, u);
  }

  /** A fresh block is queued for sending, nothing written to it yet. */
  lemma TakeOut(data: seq<UserData>, send: SendBlocks, m: Pool, owner: map<nat, Field>, u: nat, h: nat, m': Pool)
    requires SocketsOk(data, send, m, owner) && u < |data| && data[u].Sending()
    requires h != 0 && h !in m && h in m' && SameBut(m, m', h) && 0 < |m'[h]| <= DATALEN
    requires Used(data[u].packetsOut) < NUMPACKETS
    ensures var n := Used(data[u].packetsOut);
      var d' := data[u].(packetsOut := data[u].packetsOut[n := h], outPos := 0);
      && SocketsOk(data[u := d'], send, m', owner[h := OutField(u, n)])
      && Views(data[u := d'], m')
         == Views(data, m)[u := ViewOf(data[u], m).(output := OutQueue(ViewOf(data[u], m).output.blocks + [m'[h]], 0))]
  {
    var d := data[u];
    var n := Used(d.packetsOut);
    var d' := d.(packetsOut := d.packetsOut[n := h], outPos := 0);
    hide HandleAt, Owned, UserOk, ViewOf;
    Landed(data, send, m, owner, u, d', OutField(u, n), h, m');
    OtherQueueKeeps(data, send, m, owner, m', h, u, true);
    UserTakesOut(d, m, h, m');
    OthersKeep(data, send, m, owner, data[u := d'], send, m', owner[h := OutField(u, n)], h, u);
  }

  /** Outgoing block `i` gets new bytes or a new length, and the fill position moves to `pos`. */
  lemma SetOut(data: seq<UserData>, send: SendBlocks, m: Pool, owner: map<nat, Field>, u: nat, i: nat, m': Pool,
               pos: u16)
    requires SocketsOk(data, send, m, owner) && u < |data| && data[u].Sending()
    requires i < Used(data[u].packetsOut)
    requires data[u].packetsOut[i] in m' && SameBut(m, m', data[u].packetsOut[i])
    requires 0 < |m'[data[u].packetsOut[i]]| <= DATALEN
    requires if i == Used(data[u].packetsOut) - 1 then pos <= |m'[data[u].packetsOut[i]]| else pos == data[u].outPos
    ensures var d' := data[u].(outPos := pos);
      && SocketsOk(data[u := d'], send, m', owner)
      && Views(data[u := d'], m')
         == Views(data, m)[u := ViewOf(data[u], m).(output :=
              OutQueue(ViewOf(data[u], m).output.blocks[i := m'[data[u].packetsOut[i]]], pos))]
  {
    var d := data[u];
    var h := d.packetsOut[i];
    hide HandleAt, Owned, UserOk, ViewOf;
    QueueDistinct(data, send, m, owner, u, false, i);
    Repositioned(data, send, m, owner, u, pos, m', h);
    OtherQueueKeeps(data, send, m, owner, m', h, u, true);
    UserSetsOut(d, m, i, m', pos);
    OthersKeep(data, send, m, owner, data[u := d.(outPos := pos)], send, m', owner, h, u);
  }

  /** The first incoming block is cut to what has not been read yet. */
  lemma SetIn(data: seq<UserData>, send: SendBlocks, m: Pool, owner: map<nat, Field>, u: nat, m': Pool)
    requires SocketsOk(data, send, m, owner) && u < |data| && 0 < Used(data[u].packetsIn)
    requires data[u].packetsIn[0] in m' && SameBut(m, m', data[u].packetsIn[0])
    ensures SocketsOk(data, send, m', owner)
    ensures Views(data, m')
         == Views(data, m)[u := ViewOf(data[u], m).(input := ViewOf(data[u], m).input[0 := m'[data[u].packetsIn[0]]])]
  {
    var d := data[u];
    var h := d.packetsIn[0];
    hide HandleAt, Owned, UserOk, ViewOf;
    QueueDistinct(data, send, m, owner, u, true, 0);
    SameKeys(data, send, m, owner, m', h);
    if d.Sending() { OtherQueueKeeps(data, send, m, owner, m', h, u, false); }
    UserSetsIn(d, m, m');
    OthersKeep(data, send, m, owner, data, send, m', owner, h, u);
  }

  function Tail<T>(s: seq<T>): seq<T> {
    if s == [] then s else s[1..]
  }

  lemma ShiftedQueue(q: seq<nat>, m: Pool, m': Pool)
    requires QueueOk(q, m) && SameBut(m, m', q[0])
    requires forall i :: 0 < i < Used(q) ==> q[i] != q[0]
    ensures QueueOk(Shifted(q), m') && Contents(Shifted(q), m') == Tail(Contents(q, m))
  {
    var n := Used(q);
    OccupiedIsUsed(Shifted(q), m', if n == 0 then 0 else n - 1);
    assert Contents(Shifted(q), m') == Tail(Contents(q, m));
  }

  /** The first block of a queue is freed and the rest moves up. */
  lemma EatFirst(data: seq<UserData>, send: SendBlocks, m: Pool, owner: map<nat, Field>, u: nat, incoming: bool,
                 m': Pool)
      returns (owner': map<nat, Field>)
    requires SocketsOk(data, send, m, owner) && u < |data| && (incoming || data[u].Sending())
    requires m' == m - {if incoming then data[u].packetsIn[0] else data[u].packetsOut[0]}
    ensures var d, v := data[u], ViewOf(data[u], m);
      var d' := if incoming then d.(packetsIn := Shifted(d.packetsIn)) else d.(packetsOut := Shifted(d.packetsOut));
      && SocketsOk(data[u := d'], send, m', owner')
      && Views(data[u := d'], m') == Views(data, m)[u :=
           if incoming then v.(input := Tail(v.input)) else v.(output := v.output.Eaten())]
  {
    var d := data[u];
    var q := if incoming then d.packetsIn else d.packetsOut;
    var d' := if incoming then d.(packetsIn := Shifted(q)) else d.(packetsOut := Shifted(q));
    hide HandleAt, Owned, UserOk, ViewOf, QueueOk, QueueSame, SameBut, Contents;
    WithoutSameBut(m, q[0]);
    owner' := EatFirstOwned(data, send, m, owner, u, incoming, m');
    FirstHeld(data, send, m, owner, u, incoming, q[0]);
    OtherQueueStays(data, send, m, owner, u, incoming, m', q[0]);
    UserEats(d, m, m', incoming);
    OthersKeep(data, send, m, owner, data[u := d'], send, m', owner', q[0], u);
  }

  lemma QueuesOk(d: UserData, m: Pool)
    requires UserOk(d, m)
    ensures QueueOk(d.packetsIn, m) && (d.Sending() ==> QueueOk(d.packetsOut, m))
    ensures Used(d.packetsIn) == 0 ==> d.packetsIn[0] == 0
    ensures d.Sending() && Used(d.packetsOut) == 0 ==> d.packetsOut[0] == 0
  {
  }

  /** The first block of a queue is held there and nowhere else. */
  lemma FirstHeld(data: seq<UserData>, send: SendBlocks, m: Pool, owner: map<nat, Field>, u: nat, incoming: bool,
                  h: nat)
    requires SocketsOk(data, send, m, owner) && u < |data| && (incoming || data[u].Sending())
    requires |data[u].packetsIn| == |data[u].packetsOut| == NUMPACKETS
    requires h == if incoming then data[u].packetsIn[0] else data[u].packetsOut[0]
    ensures h in m ==> h in owner && owner[h] == if incoming then InField(u, 0) else OutField(u, 0)
    ensures var q := if incoming then data[u].packetsIn else data[u].packetsOut;
      forall i :: 0 < i < Used(q) ==> q[i] != h
  {
    var q := if incoming then data[u].packetsIn else data[u].packetsOut;
    QueuesOk(data[u], m);
    NullUnowned(data, send, m, owner);
    if 0 < Used(q) { QueueDistinct(data, send, m, owner, u, incoming, 0); }
  }

  /** So freeing it leaves the other queue its bytes. */
  lemma OtherQueueStays(data: seq<UserData>, send: SendBlocks, m: Pool, owner: map<nat, Field>, u: nat,
                        incoming: bool, m': Pool, h: nat)
    requires SocketsOk(data, send, m, owner) && u < |data|
    requires SameBut(m, m', h)
    requires h in m ==> h in owner && owner[h] == if incoming then InField(u, 0) else OutField(u, 0)
    ensures if incoming then data[u].Sending() ==> QueueSame(data[u].packetsOut, m, m')
      else QueueSame(data[u].packetsIn, m, m')
  {
    QueuesOk(data[u], m);
    hide Owned, HandleAt, UserOk, Contents, QueueOk, QueueSame, SameBut;
    if incoming {
      if data[u].Sending() { OtherQueueKeeps(data, send, m, owner, m', h, u, false); }
    } else {
      OtherQueueKeeps(data, send, m, owner, m', h, u, true);
    }
  }

  lemma EatFirstOwned(data: seq<UserData>, send: SendBlocks, m: Pool, owner: map<nat, Field>, u: nat, incoming: bool,
                      m': Pool)
      returns (owner': map<nat, Field>)
    requires Owned(data, send, m, owner) && u < |data| && (incoming || data[u].Sending())
    requires |data[u].packetsIn| == |data[u].packetsOut| == NUMPACKETS
    requires m' == m - {if incoming then data[u].packetsIn[0] else data[u].packetsOut[0]}
    ensures var d := data[u];
      var d' := if incoming then d.(packetsIn := Shifted(d.packetsIn)) else d.(packetsOut := Shifted(d.packetsOut));
      Owned(data[u := d'], send, m', owner')
  {
    var d := data[u];
    var q := if incoming then d.packetsIn else d.packetsOut;
    var f := if incoming then InField(u, 0) else OutField(u, 0);
    var mid := if incoming then d.(packetsIn := q[0 := 0]) else d.(packetsOut := q[0 := 0]);
    var d' := if incoming then d.(packetsIn := Shifted(q)) else d.(packetsOut := Shifted(q));
    assert HandleAt(data, send, f) == q[0];
    Release(data, send, m, owner, data[u := mid], send, m', f);
    assert Shifted(q[0 := 0]) == Shifted(q);
    assert data[u := mid][u := d'] == data[u := d'];
    var between := owner - {q[0]};
    MoveDown(data[u := mid], send, m', between, data[u := d'], u, incoming);
    owner' := map h | h in between :: MovedDown(between[h], u, incoming);
  }

  /** The send block is taken, written or given back: no connection notices. */
  lemma SendBuffer(data: seq<UserData>, send: SendBlocks, m: Pool, owner: map<nat, Field>, block: nat, m': Pool)
      returns (owner': map<nat, Field>)
    requires SocketsOk(data, send, m, owner)
    requires block == 0 || send.current == 0 || block == send.current
    requires if block == 0 then m' == m - {send.current} else SameBut(m, m', block) && block in m'
    requires send.current == 0 && block != 0 ==> block !in m
    ensures SocketsOk(data, send.(current := block), m', owner') && Views(data, m') == Views(data, m)
  {
    var h, send' := (if block == 0 then send.current else block), send.(current := block);
    assert HandleAt(data, send, SendField) == send.current;
    if block == send.current {
      OwnedSame(data, send, m, owner, data, m');
      owner' := owner;
    } else if block == 0 {
      Release(data, send, m, owner, data, send', m', SendField);
      owner' := owner - {h};
    } else {
      Acquire(data, send, m, owner, data, send', m', SendField, block);
      owner' := owner[block := SendField];
    }
    OthersKeep(data, send, m, owner, data, send', m', owner', h, |data|);
  }

  /** The send blocks once the handle of the current one is overwritten. */
  function Overwritten(send: SendBlocks): SendBlocks {
    SendBlocks(0, if send.current == 0 then send.lost else send.lost + [send.current])
  }

  /** Overwriting the handle of a block still held loses the block, and nobody notices. */
  lemma LoseBlock(data: seq<UserData>, send: SendBlocks, m: Pool, owner: map<nat, Field>)
      returns (owner': map<nat, Field>)
    requires SocketsOk(data, send, m, owner)
    ensures SocketsOk(data, Overwritten(send), m, owner')
  {
    var h, f := send.current, LostField(|send.lost|);
    owner' := if h == 0 then owner else owner[h := f];
    if h != 0 {
      forall x { LostHandle(data, send, x); }
      LostHandle(data, send, f);
      hide Owned, UserOk, HandleAt, Overwritten;
      Handover(data, send, m, owner, Overwritten(send), SendField, f);
    }
  }

  lemma LostHandle(data: seq<UserData>, send: SendBlocks, x: Field)
    requires send.current != 0
    ensures HandleAt(data, send, SendField) == send.current && HandleAt(data, send, LostField(|send.lost|)) == 0
    ensures HandleAt(data, Overwritten(send), x) ==
      if x == SendField then 0 else if x == LostField(|send.lost|) then send.current else HandleAt(data, send, x)
  {
  }

  // ----- flushing a queue, block by block from the front

  function Cleared(q: seq<nat>, n: nat): (r: seq<nat>)
    requires n <= |q|
    ensures |r| == |q| && forall i :: 0 <= i < |r| ==> r[i] == if i < n then 0 else q[i]
  {
    seq(|q|, i requires 0 <= i < |q| => if i < n then 0 else q[i])
  }

  function ClearedUser(d: UserData, incoming: bool, n: nat): UserData
    requires n <= |d.packetsIn| && n <= |d.packetsOut|
  {
    if incoming then d.(packetsIn := Cleared(d.packetsIn, n)) else d.(packetsOut := Cleared(d.packetsOut, n))
  }

  /** The first `n` blocks of one of `u`'s queues have been freed; nothing else has changed. */
  ghost predicate Flushing(data: seq<UserData>, m: Pool, u: nat, incoming: bool, n: nat,
                           data': seq<UserData>, send: SendBlocks, m': Pool, owner': map<nat, Field>)
    requires u < |data| && n <= NUMPACKETS && UserOk(data[u], m) && forall v :: 0 <= v < |data| ==> UserOk(data[v], m)
  {
    && Owned(data', send, m', owner')
    && data' == data[u := ClearedUser(data[u], incoming, n)]
    && (forall v :: 0 <= v < |data| && v != u ==> UserOk(data[v], m') && ViewOf(data[v], m') == ViewOf(data[v], m))
    && (if incoming then data[u].Sending() ==> QueueSame(data[u].packetsOut, m, m')
        else QueueSame(data[u].packetsIn, m, m'))
  }

  lemma FlushStart(data: seq<UserData>, m: Pool, u: nat, incoming: bool, send: SendBlocks, owner: map<nat, Field>)
    requires SocketsOk(data, send, m, owner) && u < |data| && UserOk(data[u], m)
    ensures Flushing(data, m, u, incoming, 0, data, send, m, owner)
  {
    assert ClearedUser(data[u], incoming, 0) == data[u];
    assert data[u := data[u]] == data;
  }

  lemma FlushOwned(data: seq<UserData>, u: nat, incoming: bool, n: nat,
                   data': seq<UserData>, send: SendBlocks, m': Pool, owner': map<nat, Field>, m'': Pool)
    requires u < |data| && n < NUMPACKETS == |data[u].packetsIn| == |data[u].packetsOut|
    requires incoming || data[u].Sending()
    requires Owned(data', send, m', owner') && data' == data[u := ClearedUser(data[u], incoming, n)]
    requires m'' == m' - {if incoming then data[u].packetsIn[n] else data[u].packetsOut[n]}
    ensures var h := if incoming then data[u].packetsIn[n] else data[u].packetsOut[n];
      && Owned(data[u := ClearedUser(data[u], incoming, n + 1)], send, m'', owner' - {h})
      && (h in m' ==> owner'[h] == if incoming then InField(u, n) else OutField(u, n))
  {
    var f := if incoming then InField(u, n) else OutField(u, n);
    assert HandleAt(data', send, f) == if incoming then data[u].packetsIn[n] else data[u].packetsOut[n];
    Release(data', send, m', owner', data[u := ClearedUser(data[u], incoming, n + 1)], send, m'', f);
  }

  lemma WithoutSameBut(m: Pool, h: nat)
    ensures SameBut(m, m - {h}, h)
  {
  }

  lemma FlushStep(data: seq<UserData>, m: Pool, u: nat, incoming: bool, n: nat,
                  data': seq<UserData>, send: SendBlocks, m': Pool, owner': map<nat, Field>, m'': Pool)
    requires u < |data| && n < NUMPACKETS && UserOk(data[u], m) && forall v :: 0 <= v < |data| ==> UserOk(data[v], m)
    requires incoming || data[u].Sending()
    requires Flushing(data, m, u, incoming, n, data', send, m', owner')
    requires m'' == m' - {if incoming then data[u].packetsIn[n] else data[u].packetsOut[n]}
    ensures Flushing(data, m, u, incoming, n + 1, data[u := ClearedUser(data[u], incoming, n + 1)], send, m'',
                     owner' - {if incoming then data[u].packetsIn[n] else data[u].packetsOut[n]})
  {
    var h := if incoming then data[u].packetsIn[n] else data[u].packetsOut[n];
    FlushOwned(data, u, incoming, n, data', send, m', owner', m'');
    hide Owned, HandleAt, UserOk, ViewOf, Contents, QueueOk, SameBut;
    assert SameBut(m', m'', h) by { WithoutSameBut(m', h); }
    forall v | 0 <= v < |data| && v != u ensures UserOk(data[v], m'') && ViewOf(data[v], m'') == ViewOf(data[v], m) {
      UserKeeps(data', send, m', owner', m'', h, v);
    }
    FlushOther(data, m, u, incoming, n, data', send, m', owner', m'', h);
  }

  lemma FlushOther(data: seq<UserData>, m: Pool, u: nat, incoming: bool, n: nat,
                   data': seq<UserData>, send: SendBlocks, m': Pool, owner': map<nat, Field>, m'': Pool, h: nat)
    requires u < |data| && n < NUMPACKETS && |data[u].packetsIn| == |data[u].packetsOut| == NUMPACKETS
    requires Owned(data', send, m', owner') && data' == data[u := ClearedUser(data[u], incoming, n)]
    requires SameBut(m', m'', h) && (h in m' ==> owner'[h] == if incoming then InField(u, n) else OutField(u, n))
    requires if incoming then data[u].Sending() ==> QueueSame(data[u].packetsOut, m, m')
      else QueueSame(data[u].packetsIn, m, m')
    ensures if incoming then data[u].Sending() ==> QueueSame(data[u].packetsOut, m, m'')
      else QueueSame(data[u].packetsIn, m, m'')
  {
    hide Owned, HandleAt, Contents, QueueOk, SameBut;
    if incoming {
      if data[u].Sending() { OtherQueueKeeps(data', send, m', owner', m'', h, u, false); }
    } else {
      OtherQueueKeeps(data', send, m', owner', m'', h, u, true);
    }
  }

  lemma FlushEnd(data: seq<UserData>, m: Pool, u: nat, incoming: bool,
                 data': seq<UserData>, send: SendBlocks, m': Pool, owner': map<nat, Field>)
    requires u < |data| && forall v :: 0 <= v < |data| ==> UserOk(data[v], m)
    requires incoming || data[u].Sending()
    requires Flushing(data, m, u, incoming, NUMPACKETS, data', send, m', owner')
    ensures SocketsOk(data', send, m', owner')
    ensures Views(data', m') == Views(data, m)[u := if incoming then ViewOf(data[u], m).(input := [])
                                                 else ViewOf(data[u], m).(output := OutQueue([], data[u].outPos))]
  {
    var d' := data'[u];
    OccupiedIsUsed(if incoming then d'.packetsIn else d'.packetsOut, m', 0);
    assert UserOk(d', m');
  }

  /** Clearing one more slot of a queue cleared so far. */
  lemma ClearNext(d: UserData, incoming: bool, n: nat)
    requires n < NUMPACKETS == |d.packetsIn| == |d.packetsOut|
    ensures var c, q := ClearedUser(d, incoming, n), if incoming then d.packetsIn else d.packetsOut;
      && |c.packetsIn| == |c.packetsOut| == NUMPACKETS
      && (if incoming then c.packetsIn[n] else c.packetsOut[n]) == q[n]
      && ClearedUser(d, incoming, n + 1) ==
           if incoming then c.(packetsIn := c.packetsIn[n := 0]) else c.(packetsOut := c.packetsOut[n := 0])
  {
    var q := if incoming then d.packetsIn else d.packetsOut;
    assert Cleared(q, n + 1) == Cleared(q, n)[n := 0];
  }

  lemma ClearedSends(d: UserData, incoming: bool, n: nat)
    requires n <= |d.packetsIn| && n <= |d.packetsOut|
    ensures ClearedUser(d, incoming, n).Sending() == d.Sending()
    ensures ClearedUser(d, incoming, 0) == d
  {
    assert Cleared(d.packetsIn, 0) == d.packetsIn && Cleared(d.packetsOut, 0) == d.packetsOut;
  }

  // ----- fresh user data

  lemma FreshUser(d: UserData, m: Pool)
    requires d == UserData(d.sock, true, false, false, false, seq(NUMPACKETS, _ => 0), seq(NUMPACKETS, _ => 0), 0)
    ensures UserOk(d, m) && ViewOf(d, m) == Fresh(d.sock) && d.Sending()
  {
    OccupiedIsUsed(d.packetsIn, m, 0);
  }

  /** User data not in use hold no handle, so setting them up anew moves none. */
  lemma NothingHeld(d: UserData, d': UserData, m: Pool)
    requires UserOk(d, m) && !d.InUse() && d'.packetsIn == d'.packetsOut == seq(NUMPACKETS, _ => 0)
    ensures SameHandles(d, d')
  {
    assert d'.packetsIn == d.packetsIn;
  }

  // ----- user data whose remote side has closed

  /** With the port overlaid on an empty queue no handle is gained or lost. */
  lemma OverlaidUser(d: UserData, m: Pool, lport: u16)
    requires UserOk(d, m) && d.Sending() && forall i :: 0 <= i < |d.packetsOut| ==> d.packetsOut[i] == 0
    ensures |d.packetsOut| == NUMPACKETS
    ensures var d' := d.(remoteClosed := true, packetsOut := d.packetsOut[0 := lport % 0x100][1 := lport / 0x100]);
      && UserOk(d', m) && SameHandles(d, d') && !d'.Sending()
      && ViewOf(d', m) == ViewOf(d, m).(remoteClosed := true, output := OutQueue([], 0))
  {
  }
}
