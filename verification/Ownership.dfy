/**
 Who owns each block of the pool: one handle field of one connection's user data,
 or the transient send block, or nobody any more after a failed transmission.
 */
module Ownership {
  import opened Machine
  import opened SocketModel

  /**
   Per-connection user data. Once the remote side has closed, the first two
   entries of `packetsOut` are overlaid by the local port and are no handles.
   */
  datatype UserData = UserData(
    sock: nat, connected: bool, close: bool, remoteClosed: bool, restart: bool,
    packetsIn: seq<nat>, packetsOut: seq<nat>, outPos: u16)
  {
    predicate InUse() {
      sock != 0 || connected || close || remoteClosed || restart
    }

    predicate Sending() {
      InUse() && !remoteClosed
    }
  }

  /** The transient send block, and the blocks whose transmission failed and whose handles were overwritten since. */
  datatype SendBlocks = SendBlocks(current: nat, lost: seq<nat>)

  datatype Field = InField(user: nat, slot: nat) | OutField(user: nat, slot: nat) | SendField | LostField(slot: nat) {
    /** Not a field of a connection's queues. */
    predicate Apart() {
      SendField? || LostField?
    }
  }

  function HandleAt(data: seq<UserData>, send: SendBlocks, f: Field): nat {
    match f
    case InField(u, i) => if u < |data| && i < |data[u].packetsIn| then data[u].packetsIn[i] else 0
    case OutField(u, i) =>
      if u < |data| && i < |data[u].packetsOut| && data[u].Sending() then data[u].packetsOut[i] else 0
    case SendField => send.current
    case LostField(i) => if i < |send.lost| then send.lost[i] else 0
  }

  /** `owner` names, for each live block, the one field that holds its handle. */
  ghost predicate Owned(data: seq<UserData>, send: SendBlocks, m: Pool, owner: map<nat, Field>) {
    && owner.Keys == m.Keys
    && (forall h :: h in owner ==> h != 0 && HandleAt(data, send, owner[h]) == h)
    && (forall f :: HandleAt(data, send, f) != 0 ==>
          HandleAt(data, send, f) in owner && owner[HandleAt(data, send, f)] == f)
  }

  /** Ownership is exclusive and complete. */
  lemma OneOwner(data: seq<UserData>, send: SendBlocks, m: Pool, owner: map<nat, Field>, h: nat)
    requires Owned(data, send, m, owner) && h in m
    ensures exists f :: HandleAt(data, send, f) == h
    ensures forall f, g :: HandleAt(data, send, f) == h && HandleAt(data, send, g) == h ==> f == g
  {
    assert HandleAt(data, send, owner[h]) == h;
    forall f, g | HandleAt(data, send, f) == h && HandleAt(data, send, g) == h ensures f == g {
      assert owner[h] == f && owner[h] == g;
    }
  }

  ghost predicate UserOk(d: UserData, m: Pool) {
    && QueueOk(d.packetsIn, m) && |d.packetsOut| == NUMPACKETS
    && (d.Sending() ==> QueueOk(d.packetsOut, m) && OutQueueOf(d, m).Ok())
    && (d.close || !d.InUse() ==> Used(d.packetsIn) == 0)
    && (d.InUse() ==> d.connected)
  }

  ghost function OutQueueOf(d: UserData, m: Pool): OutQueue
    requires QueueOk(d.packetsOut, m)
  {
    OutQueue(Contents(d.packetsOut, m), d.outPos)
  }

  // ----- the changes of ownership

  /** A new block's handle `h` lands in the empty field `f`. */
  lemma Acquire(data: seq<UserData>, send: SendBlocks, m: Pool, owner: map<nat, Field>,
                data': seq<UserData>, send': SendBlocks, m': Pool, f: Field, h: nat)
    requires Owned(data, send, m, owner) && h != 0 && h !in m && m'.Keys == m.Keys + {h}
    requires HandleAt(data, send, f) == 0 && HandleAt(data', send', f) == h
    requires forall g :: g != f ==> HandleAt(data', send', g) == HandleAt(data, send, g)
    ensures Owned(data', send', m', owner[h := f])
  {
  }

  /** The block in field `f` is freed and the field cleared. */
  lemma Release(data: seq<UserData>, send: SendBlocks, m: Pool, owner: map<nat, Field>,
                data': seq<UserData>, send': SendBlocks, m': Pool, f: Field)
    requires Owned(data, send, m, owner) && m'.Keys == m.Keys - {HandleAt(data, send, f)}
    requires HandleAt(data', send', f) == 0
    requires forall g :: g != f ==> HandleAt(data', send', g) == HandleAt(data, send, g)
    ensures Owned(data', send', m', owner - {HandleAt(data, send, f)})
  {
    var h, owner' := HandleAt(data, send, f), owner - {HandleAt(data, send, f)};
    forall x | x in owner' ensures x != 0 && HandleAt(data', send', owner'[x]) == x {
      assert owner'[x] == owner[x] && owner[x] != f;
    }
    forall g | HandleAt(data', send', g) != 0
      ensures HandleAt(data', send', g) in owner' && owner'[HandleAt(data', send', g)] == g
    {
      assert g != f && owner[HandleAt(data, send, g)] == g;
    }
  }

  /** The handle in field `f` moves to the empty field `g`. */
  lemma Handover(data: seq<UserData>, send: SendBlocks, m: Pool, owner: map<nat, Field>, send': SendBlocks, f: Field,
                 g: Field)
    requires Owned(data, send, m, owner) && f != g && HandleAt(data, send, f) != 0 && HandleAt(data, send, g) == 0
    requires HandleAt(data, send', f) == 0 && HandleAt(data, send', g) == HandleAt(data, send, f)
    requires forall x :: x != f && x != g ==> HandleAt(data, send', x) == HandleAt(data, send, x)
    ensures Owned(data, send', m, owner[HandleAt(data, send, f) := g])
  {
    hide HandleAt;
    var h := HandleAt(data, send, f);
    var owner' := owner[h := g];
    forall x | x in owner' ensures x != 0 && HandleAt(data, send', owner'[x]) == x {
      if x != h { assert owner[x] != f && owner[x] != g; }
    }
    forall x | HandleAt(data, send', x) != 0
      ensures HandleAt(data, send', x) in owner' && owner'[HandleAt(data, send', x)] == x
    {
      if x != g { assert owner[HandleAt(data, send, x)] == x; }
    }
  }

  function MovedDown(f: Field, u: nat, incoming: bool): Field {
    match f
    case InField(v, i) => if incoming && v == u && i > 0 then InField(v, i - 1) else f
    case OutField(v, i) => if !incoming && v == u && i > 0 then OutField(v, i - 1) else f
    case _ => f
  }

  function MovedUp(f: Field, u: nat, incoming: bool): Field {
    match f
    case InField(v, i) => if incoming && v == u then InField(v, i + 1) else f
    case OutField(v, i) => if !incoming && v == u then OutField(v, i + 1) else f
    case _ => f
  }

  ghost predicate ShiftedUser(data: seq<UserData>, data': seq<UserData>, u: nat, incoming: bool) {
    && u < |data| && |data[u].packetsIn| == |data[u].packetsOut| == NUMPACKETS
    && data' == data[u := if incoming then data[u].(packetsIn := Shifted(data[u].packetsIn))
                          else data[u].(packetsOut := Shifted(data[u].packetsOut))]
  }

  lemma MovedHandles(data: seq<UserData>, send: SendBlocks, data': seq<UserData>, u: nat, incoming: bool, f: Field)
    requires ShiftedUser(data, data', u, incoming)
    requires HandleAt(data, send, if incoming then InField(u, 0) else OutField(u, 0)) == 0
    ensures HandleAt(data, send, f) != 0 ==> HandleAt(data', send, MovedDown(f, u, incoming)) == HandleAt(data, send, f)
    ensures HandleAt(data', send, f) != 0 ==> HandleAt(data, send, MovedUp(f, u, incoming)) == HandleAt(data', send, f)
    ensures HandleAt(data', send, f) != 0 ==> MovedDown(MovedUp(f, u, incoming), u, incoming) == f
  {
  }

  /** A queue whose first field is empty moves down by one. */
  lemma MoveDown(data: seq<UserData>, send: SendBlocks, m: Pool, owner: map<nat, Field>, data': seq<UserData>,
                 u: nat, incoming: bool)
    requires Owned(data, send, m, owner) && ShiftedUser(data, data', u, incoming)
    requires HandleAt(data, send, if incoming then InField(u, 0) else OutField(u, 0)) == 0
    ensures Owned(data', send, m, map h | h in owner :: MovedDown(owner[h], u, incoming))
  {
    hide HandleAt, MovedDown, MovedUp, ShiftedUser;
    var owner' := map h | h in owner :: MovedDown(owner[h], u, incoming);
    assert owner'.Keys == owner.Keys;
    forall h | h in owner' ensures h != 0 && HandleAt(data', send, owner'[h]) == h {
      MovedHandles(data, send, data', u, incoming, owner[h]);
    }
    forall f | HandleAt(data', send, f) != 0
      ensures HandleAt(data', send, f) in owner' && owner'[HandleAt(data', send, f)] == f
    {
      MovedHandles(data, send, data', u, incoming, f);
    }
  }

  // ----- all connections together

  ghost function ViewOf(d: UserData, m: Pool): View
    requires UserOk(d, m)
  {
    View(d.sock, d.connected, d.close, d.remoteClosed, d.restart,
         Contents(d.packetsIn, m), if d.Sending() then OutQueueOf(d, m) else OutQueue([], 0))
  }

  lemma ViewFacts(d: UserData, m: Pool)
    requires UserOk(d, m)
    ensures |d.packetsIn| == |d.packetsOut| == NUMPACKETS && (d.InUse() ==> d.connected)
    ensures var v := ViewOf(d, m);
      && v == View(d.sock, d.connected, d.close, d.remoteClosed, d.restart, v.input, v.output) && v.output.Ok()
      && |v.input| == Used(d.packetsIn)
      && (forall i :: 0 <= i < |v.input| ==> d.packetsIn[i] in m && v.input[i] == m[d.packetsIn[i]])
      && (d.close || !d.InUse() ==> v.input == [])
      && (!d.Sending() ==> v.output == OutQueue([], 0))
      && (d.Sending() ==>
            && v.output.pos == d.outPos && |v.output.blocks| == Used(d.packetsOut)
            && forall i :: 0 <= i < |v.output.blocks| ==>
                 d.packetsOut[i] in m && v.output.blocks[i] == m[d.packetsOut[i]])
  {
  }

  ghost predicate SocketsOk(data: seq<UserData>, send: SendBlocks, m: Pool, owner: map<nat, Field>) {
    && Owned(data, send, m, owner)
    && forall v :: 0 <= v < |data| ==> UserOk(data[v], m)
  }

  ghost function Views(data: seq<UserData>, m: Pool): (r: seq<View>)
    requires forall v :: 0 <= v < |data| ==> UserOk(data[v], m)
    ensures |r| == |data| && forall v :: 0 <= v < |data| ==> r[v] == ViewOf(data[v], m)
  {
    seq(|data|, v requires 0 <= v < |data| => ViewOf(data[v], m))
  }

  /** The pools differ at handle `h` only. */
  ghost predicate SameBut(m: Pool, m': Pool, h: nat) {
    && (forall g :: g in m && g != h ==> g in m' && m'[g] == m[g])
    && (forall g :: g in m' && g != h ==> g in m)
  }

  /** `q` holds the same bytes in both pools. */
  ghost predicate QueueSame(q: seq<nat>, m: Pool, m': Pool) {
    QueueOk(q, m) && QueueOk(q, m') && Contents(q, m') == Contents(q, m)
  }

  lemma QueueKeeps(q: seq<nat>, m: Pool, m': Pool, h: nat)
    requires QueueOk(q, m) && SameBut(m, m', h)
    requires forall i :: 0 <= i < Used(q) ==> q[i] != h
    ensures QueueOk(q, m') && Contents(q, m') == Contents(q, m)
  {
    OccupiedIsUsed(q, m', Used(q));
  }

  /** A change at a handle that user `u` does not own leaves `u`'s queues alone. */
  lemma UserKeeps(data: seq<UserData>, send: SendBlocks, m: Pool, owner: map<nat, Field>, m': Pool, h: nat, u: nat)
    requires Owned(data, send, m, owner) && u < |data| && UserOk(data[u], m) && SameBut(m, m', h)
    requires h in m ==> owner[h].Apart() || owner[h].user != u
    ensures UserOk(data[u], m') && ViewOf(data[u], m') == ViewOf(data[u], m)
  {
    var d := data[u];
    forall i | 0 <= i < Used(d.packetsIn) ensures d.packetsIn[i] != h {
      assert HandleAt(data, send, InField(u, i)) == d.packetsIn[i];
    }
    QueueKeeps(d.packetsIn, m, m', h);
    if d.Sending() {
      forall i | 0 <= i < Used(d.packetsOut) ensures d.packetsOut[i] != h {
        assert HandleAt(data, send, OutField(u, i)) == d.packetsOut[i];
      }
      QueueKeeps(d.packetsOut, m, m', h);
    }
  }

  /** User `u`'s other queue, too, is untouched by a change at a handle it does not hold. */
  lemma OtherQueueKeeps(data: seq<UserData>, send: SendBlocks, m: Pool, owner: map<nat, Field>, m': Pool, h: nat,
                        u: nat, keepsIn: bool)
    requires Owned(data, send, m, owner) && u < |data| && SameBut(m, m', h)
    requires QueueOk(if keepsIn then data[u].packetsIn else data[u].packetsOut, m)
    requires h in m ==> owner[h].Apart() || if keepsIn then owner[h].OutField? else owner[h].InField?
    requires !keepsIn ==> data[u].Sending()
    ensures QueueSame(if keepsIn then data[u].packetsIn else data[u].packetsOut, m, m')
  {
    var q := if keepsIn then data[u].packetsIn else data[u].packetsOut;
    forall i | 0 <= i < Used(q) ensures q[i] != h {
      assert HandleAt(data, send, if keepsIn then InField(u, i) else OutField(u, i)) == q[i];
    }
    QueueKeeps(q, m, m', h);
  }

  /** Only user `u` (or the send buffer) was touched: everybody else's view stays. */
  lemma OthersKeep(data: seq<UserData>, send: SendBlocks, m: Pool, owner: map<nat, Field>,
                   data': seq<UserData>, send': SendBlocks, m': Pool, owner': map<nat, Field>, h: nat, u: nat)
    requires SocketsOk(data, send, m, owner) && SameBut(m, m', h)
    requires h in m ==> owner[h].Apart() || owner[h].user == u
    requires Owned(data', send', m', owner') && |data'| == |data|
    requires forall v :: 0 <= v < |data| && v != u ==> data'[v] == data[v]
    requires u < |data| ==> UserOk(data'[u], m')
    ensures SocketsOk(data', send', m', owner')
    ensures Views(data', m') == if u < |data| then Views(data, m)[u := ViewOf(data'[u], m')] else Views(data, m)
  {
    hide Owned, UserOk, ViewOf;
    forall v | 0 <= v < |data| && v != u ensures UserOk(data'[v], m') && ViewOf(data'[v], m') == ViewOf(data[v], m) {
      UserKeeps(data, send, m, owner, m', h, v);
    }
  }

  lemma OwnedSame(data: seq<UserData>, send: SendBlocks, m: Pool, owner: map<nat, Field>, data': seq<UserData>,
                  m': Pool)
    requires Owned(data, send, m, owner) && m'.Keys == m.Keys
    requires forall f :: HandleAt(data', send, f) == HandleAt(data, send, f)
    ensures Owned(data', send, m', owner)
  {
  }

  /** `d` and `d'` hold the same handles in the same fields. */
  ghost predicate SameHandles(d: UserData, d': UserData) {
    && d'.packetsIn == d.packetsIn && |d'.packetsOut| == |d.packetsOut|
    && forall i :: 0 <= i < |d.packetsOut| ==>
         (if d.Sending() then d.packetsOut[i] else 0) == if d'.Sending() then d'.packetsOut[i] else 0
  }

  /** A change of user `u`'s flags that moves no handle. */
  lemma Relabel(data: seq<UserData>, send: SendBlocks, m: Pool, owner: map<nat, Field>, u: nat, d': UserData)
    requires SocketsOk(data, send, m, owner) && u < |data| && UserOk(d', m) && SameHandles(data[u], d')
    ensures SocketsOk(data[u := d'], send, m, owner)
    ensures Views(data[u := d'], m) == Views(data, m)[u := ViewOf(d', m)]
  {
    forall f ensures HandleAt(data[u := d'], send, f) == HandleAt(data, send, f) { }
    OwnedSame(data, send, m, owner, data[u := d'], m);
  }
}
