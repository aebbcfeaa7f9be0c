/** The best-fit, compacting allocator for packets in the controller's RAM, and packet access through it. */
module PacketPool {
  import opened Machine
  import opened PoolTable
  import opened ChipMemory

  const NOBLOCK: nat := 0
  const RECEIVE_BUFFER: nat := 0xff

  /** The block behind position `k` slides down against it, its bytes with it. */
  ghost predicate Slid(bs: seq<MemBlock>, order: seq<nat>, mem: seq<byte>, k: nat,
                       bs': seq<MemBlock>, mem': seq<byte>)
    requires InTable(bs, order) && k + 1 < |order|
  {
    var b := bs[order[k + 1]];
    && End(bs[order[k]]) <= b.begin && End(b) <= |mem|
    && bs' == bs[order[k + 1] := b.(begin := End(bs[order[k]]))]
    && mem' == Moved(mem, End(bs[order[k]]), b.begin, b.size)
  }

  lemma InPool(bs: seq<MemBlock>, order: seq<nat>, start: nat, limit: nat, mem: seq<byte>)
    requires WellFormed(bs, order, start, limit) && limit <= |mem|
    ensures InMemory(bs, mem)
  {
    forall h | 0 < h < |bs| && bs[h].size > 0 ensures End(bs[h]) <= |mem| {
      var k :| 0 <= k < |order| && order[k] == h;
      Inside(bs, order, start, limit, k);
    }
  }

  lemma SlideKeepsOthers(bs: seq<MemBlock>, order: seq<nat>, start: nat, limit: nat, mem: seq<byte>, k: nat,
                         bs': seq<MemBlock>, mem': seq<byte>, g: nat)
    requires WellFormed(bs, order, start, limit) && limit <= |mem| && k + 1 < |order|
    requires Slid(bs, order, mem, k, bs', mem')
    requires 0 < g < |bs| && bs[g].size > 0 && g != order[k + 1]
    ensures End(bs[g]) <= |mem| && mem'[bs[g].begin..End(bs[g])] == mem[bs[g].begin..End(bs[g])]
  {
    var dest, b := End(bs[order[k]]), bs[order[k + 1]];
    var j :| 0 <= j < |order| && order[j] == g;
    Inside(bs, order, start, limit, j);
    if j < k { Ordered(bs, order, start, limit, j, k); }
    if j > k { Ordered(bs, order, start, limit, k + 1, j); }
    StoredElsewhere(mem, dest, mem[b.begin..End(b)], bs[g].begin, End(bs[g]));
  }

  lemma SlideKeepsOrder(bs: seq<MemBlock>, order: seq<nat>, start: nat, limit: nat, mem: seq<byte>, k: nat,
                        bs': seq<MemBlock>, mem': seq<byte>)
    requires WellFormed(bs, order, start, limit) && limit <= |mem|
    requires k + 1 < |order| && Packed(bs, order, k)
    requires Slid(bs, order, mem, k, bs', mem')
    ensures WellFormed(bs', order, start, limit) && Packed(bs', order, k + 1)
  {
    hide Stored, Moved;
    var h := order[k + 1];
    assert order[0] == 0;
    Ordered(bs, order, start, limit, 0, k + 1);
    RebindKeeps(bs, order, start, limit, h, bs'[h], bs');
    forall j | 0 <= j < k + 1 ensures End(bs'[order[j]]) == bs'[order[j + 1]].begin {
      Ordered(bs, order, start, limit, j, k + 1);
      if j < k { Ordered(bs, order, start, limit, j + 1, k + 1); }
    }
  }

  lemma SlideKeeps(bs: seq<MemBlock>, order: seq<nat>, start: nat, limit: nat, mem: seq<byte>, k: nat,
                   bs': seq<MemBlock>, mem': seq<byte>)
    requires WellFormed(bs, order, start, limit) && limit <= |mem| && InMemory(bs, mem)
    requires k + 1 < |order| && Packed(bs, order, k)
    requires Slid(bs, order, mem, k, bs', mem')
    ensures WellFormed(bs', order, start, limit) && InMemory(bs', mem') && Packed(bs', order, k + 1)
    ensures Live(bs', mem') == Live(bs, mem)
  {
    hide Stored, Moved, Chain, SizedIffListed, Packed;
    Basics(bs, order, start, limit);
    SlideKeepsOrder(bs, order, start, limit, mem, k, bs', mem');
    InPool(bs', order, start, limit, mem');
    forall g | 0 < g < |bs| && bs[g].size > 0
      ensures mem'[bs'[g].begin..End(bs'[g])] == mem[bs[g].begin..End(bs[g])]
    {
      if g != order[k + 1] { SlideKeepsOthers(bs, order, start, limit, mem, k, bs', mem', g); }
    }
  }

  lemma InsertLive(bs: seq<MemBlock>, mem: seq<byte>, p: nat, h: nat, size: u16, bs': seq<MemBlock>)
    requires InMemory(bs, mem) && InMemory(bs', mem)
    requires p < |bs| && 0 < h < |bs| && p != h && bs[h].size == 0 && size > 0
    requires LinkedAfter(bs, p, h, size, bs')
    ensures h !in Live(bs, mem) && h in Live(bs', mem) && |Live(bs', mem)[h]| == size
    ensures Live(bs', mem) == Live(bs, mem)[h := Live(bs', mem)[h]]
  {
  }

  lemma RemoveLive(bs: seq<MemBlock>, mem: seq<byte>, p: nat, g: nat, bs': seq<MemBlock>)
    requires InMemory(bs, mem) && InMemory(bs', mem)
    requires p < |bs| && g < |bs| && p != g && Unlinked(bs, p, g, bs')
    ensures Live(bs', mem) == Live(bs, mem) - {g}
  {
  }

  lemma RebindLive(bs: seq<MemBlock>, mem: seq<byte>, h: nat, position: u16, size: u16, bs': seq<MemBlock>)
    requires InMemory(bs, mem) && InMemory(bs', mem)
    requires 0 < h < |bs| && 0 < size && position + size <= bs[h].size && End(bs[h]) < 0x1_0000
    requires bs' == bs[h := bs[h].(begin := bs[h].begin + position, size := size)]
    ensures Live(bs', mem) == Live(bs, mem)[h := Live(bs, mem)[h][position..position + size]]
  {
    SubSlice(mem, bs[h].begin, End(bs[h]), position, size);
  }

  lemma NotListed(bs: seq<MemBlock>, order: seq<nat>, start: nat, limit: nat, mem: seq<byte>, h: nat)
    requires WellFormed(bs, order, start, limit) && InMemory(bs, mem)
    requires forall j :: 0 <= j < |order| ==> order[j] != h
    ensures h !in Live(bs, mem)
  {
  }

  /** Cutting or overwriting block `h` inside its range leaves every other block's bytes alone. */
  lemma LiveUpdate(bs: seq<MemBlock>, order: seq<nat>, start: nat, limit: nat, mem: seq<byte>, h: nat,
                   pos: nat, data: seq<byte>)
    requires WellFormed(bs, order, start, limit) && limit <= |mem| && InMemory(bs, mem)
    requires 0 < h < |bs| && bs[h].size > 0 && pos + |data| <= bs[h].size
    ensures InMemory(bs, Stored(mem, bs[h].begin + pos, data))
    ensures Live(bs, Stored(mem, bs[h].begin + pos, data))
         == Live(bs, mem)[h := Stored(Live(bs, mem)[h], pos, data)]
  {
    var dest := bs[h].begin + pos;
    var mem' := Stored(mem, dest, data);
    forall g | 0 < g < |bs| && bs[g].size > 0 && g != h
      ensures mem'[bs[g].begin..End(bs[g])] == mem[bs[g].begin..End(bs[g])]
    {
      Disjoint(bs, order, start, limit, g, h);
      StoredElsewhere(mem, dest, data, bs[g].begin, End(bs[g]));
    }
    assert mem'[bs[h].begin..End(bs[h])] == Stored(mem[bs[h].begin..End(bs[h])], pos, data);
  }

  /** The gap behind position `k` fits, and no smaller gap does. */
  ghost predicate BestGap(bs: seq<MemBlock>, order: seq<nat>, k: nat, size: u16, limit: nat)
    requires InTable(bs, order) && k < |order|
  {
    && size <= GapAfter(bs, order, k, limit)
    && forall j :: 0 <= j < |order| && size <= GapAfter(bs, order, j, limit)
             ==> GapAfter(bs, order, k, limit) <= GapAfter(bs, order, j, limit)
  }

  ghost predicate SomeGap(bs: seq<MemBlock>, order: seq<nat>, size: u16, limit: nat)
    requires InTable(bs, order)
  {
    exists k :: 0 <= k < |order| && size <= GapAfter(bs, order, k, limit)
  }

  /** A copy into block `h` changes that block only, and nothing below the pool. */
  lemma CopyKeeps(bs: seq<MemBlock>, order: seq<nat>, start: nat, limit: nat, mem: seq<byte>, received: MemBlock,
                  h: nat, pos: nat, from: nat, len: nat)
    requires WellFormed(bs, order, start, limit) && limit <= |mem| && InMemory(bs, mem)
    requires End(received) <= start <= limit
    requires 0 < h < |bs| && bs[h].size > 0 && pos + len <= bs[h].size && from + len <= |mem|
    requires End(bs[h]) <= |mem|
    ensures var mem' := Moved(mem, bs[h].begin + pos, from, len);
      && InMemory(bs, mem') && mem'[received.begin..End(received)] == mem[received.begin..End(received)]
      && Live(bs, mem') == Live(bs, mem)[h := Stored(Live(bs, mem)[h], pos, mem[from..from + len])]
  {
    var data := mem[from..from + len];
    LiveUpdate(bs, order, start, limit, mem, h, pos, data);
    LiveInside(bs, order, start, limit, h);
    StoredElsewhere(mem, bs[h].begin + pos, data, received.begin, End(received));
  }

  class MemoryPool {
    const slots: nat
    const start: u16
    const capacity: u16
    const blocks: array<MemBlock>
    const mem: array<byte>
    var received: MemBlock
    ghost var order: seq<nat>

    ghost predicate Valid()
      reads this, blocks, mem
    {
      && blocks.Length == slots + 1 && slots < RECEIVE_BUFFER
      && start + capacity <= mem.Length < 0x1_0000
      && WellFormed(blocks[..], order, start, start + capacity)
      && InMemory(blocks[..], mem[..])
      && End(received) <= start
    }

    /** The live blocks: what each handle in use holds. */
    ghost function Blocks(): map<nat, seq<byte>>
      requires Valid()
      reads this, blocks, mem
    {
      Live(blocks[..], mem[..])
    }

    ghost function Received(): seq<byte>
      requires Valid()
      reads this, blocks, mem
    {
      mem[..][received.begin..End(received)]
    }

    constructor (slots: nat, start: u16, capacity: u16, mem: array<byte>)
      requires slots < RECEIVE_BUFFER && start + capacity <= mem.Length < 0x1_0000
      ensures Valid() && fresh(blocks) && this.mem == mem && this.slots == slots
      ensures this.start == start && this.capacity == capacity
      ensures Blocks() == map[] && received.size == 0
    {
      this.slots, this.start, this.capacity, this.mem := slots, start, capacity, mem;
      var bs := new MemBlock[slots + 1](i => MemBlock(0, 0, NOBLOCK));
      bs[0] := MemBlock(start, 0, NOBLOCK);
      this.blocks := bs;
      received := MemBlock(0, 0, NOBLOCK);
      order := [0];
    }

    /** The first of the smallest gaps that hold `size` bytes, by the block in front of it. */
    method FindGap(size: u16) returns (found: bool, best: nat, ghost at: nat)
      requires Valid()
      ensures found <==> SomeGap(blocks[..], order, size, start + capacity)
      ensures found ==> at < |order| && best == order[at] && BestGap(blocks[..], order, at, size, start + capacity)
    {
      hide Live, Chain, SizedIffListed, InMemory;
      ghost var bs, limit := blocks[..], start + capacity;
      Basics(bs, order, start, limit);
      found, best, at := false, 0, 0;
      var bestsize := capacity + 1;
      var cur := 0;
      ghost var k := 0;
      while true
        invariant k < |order| && cur == order[k]
        invariant !found ==> forall j :: 0 <= j < k ==> GapAfter(bs, order, j, limit) < size
        invariant !found ==> bestsize == capacity + 1
        invariant found ==> at < k && best == order[at] && size < bestsize == GapAfter(bs, order, at, limit)
        invariant found ==> forall j :: 0 <= j < k && size <= GapAfter(bs, order, j, limit)
                                 ==> bestsize <= GapAfter(bs, order, j, limit)
        decreases |order| - k
      {
        var next := blocks[cur].next;
        if k < |order| - 1 { ListedNext(bs, order, start, limit, k); }
        GapWithinFree(bs, order, start, limit, k);
        Inside(bs, order, start, limit, k);
        var freesize: u16 :=
          (if next == NOBLOCK then blocks[0].begin + capacity else blocks[next].begin)
          - blocks[cur].begin - blocks[cur].size;
        assert freesize == GapAfter(bs, order, k, limit);
        if freesize == size {
          found, best, at := true, cur, k;
          return;
        }
        if freesize > size && freesize < bestsize {
          bestsize, found, best, at := freesize, true, cur, k;
        }
        if next == NOBLOCK {
          return;
        }
        cur, k := next, k + 1;
      }
    }

    /** One compaction step: block `next` slides down against the block `prev` in front of it. */
    method Slide(prev: nat, next: nat, ghost k: nat)
      requires Valid() && k + 1 < |order| && prev == order[k] && next == order[k + 1]
      requires Packed(blocks[..], order, k)
      modifies blocks, mem
      ensures Valid() && Blocks() == old(Blocks()) && Received() == old(Received())
      ensures Packed(blocks[..], order, k + 1)
    {
      hide Live, SizedIffListed, InMemory, Stored;
      ghost var bs, m, limit := blocks[..], mem[..], start + capacity;
      assert Link(bs, order, k);
      ListedNext(bs, order, start, limit, k);
      Inside(bs, order, start, limit, k);
      Inside(bs, order, start, limit, k + 1);
      var dest: u16, src := blocks[prev].begin + blocks[prev].size, blocks[next].begin;
      if dest != src {
        BlockMove(mem, dest, src, blocks[next].size);
        blocks[next] := blocks[next].(begin := dest);
        assert Slid(bs, order, m, k, blocks[..], mem[..]);
        SlideKeeps(bs, order, start, limit, m, k, blocks[..], mem[..]);
        StoredElsewhere(m, dest, m[src..End(bs[next])], received.begin, End(received));
      }
    }

    /** Slides every block down against its predecessor; `last` ends the list. */
    method Compact() returns (last: nat)
      requires Valid()
      modifies blocks, mem
      ensures Valid() && Blocks() == old(Blocks()) && Received() == old(Received())
      ensures last == order[|order| - 1] && Packed(blocks[..], order, |order| - 1)
    {
      hide Live, Chain, SizedIffListed, InMemory;
      Basics(blocks[..], order, start, start + capacity);
      last := 0;
      ghost var k := 0;
      while blocks[last].next != NOBLOCK
        invariant Valid() && InTable(blocks[..], order) && k < |order| && last == order[k]
        invariant blocks[order[|order| - 1]].next == NOBLOCK
        invariant Packed(blocks[..], order, k)
        invariant Blocks() == old(Blocks()) && Received() == old(Received())
        decreases |order| - k
      {
        var next := blocks[last].next;
        ListedNext(blocks[..], order, start, start + capacity, k);
        Slide(last, next, k);
        Basics(blocks[..], order, start, start + capacity);
        last, k := next, k + 1;
      }
      if k < |order| - 1 { ListedNext(blocks[..], order, start, start + capacity, k); }
    }

    /** The first unused slot becomes a block of `size` bytes behind block `best`. */
    method TakeSlot(size: u16, best: nat, ghost at: nat) returns (h: nat)
      requires Valid() && size > 0
      requires at < |order| && best == order[at] && size <= GapAfter(blocks[..], order, at, start + capacity)
      modifies this`order, blocks
      ensures Valid() && (h != NOBLOCK <==> FreeSlot(old(Blocks()), slots)) && Received() == old(Received())
      ensures h == NOBLOCK ==> Blocks() == old(Blocks())
      ensures h != NOBLOCK ==> 0 < h <= slots && h !in old(Blocks()) && h in Blocks() && |Blocks()[h]| == size
      ensures h != NOBLOCK ==> Blocks() == old(Blocks())[h := Blocks()[h]]
      ensures h != NOBLOCK ==> order == Inserted(old(order), at, h) && blocks[h].begin == old(End(blocks[best]))
      ensures forall g :: 0 <= g < blocks.Length && g != h ==> blocks[g].begin == old(blocks[g].begin)
    {
      hide Live, Chain, SizedIffListed, InMemory;
      ghost var bs, limit := blocks[..], start + capacity;
      h := 1;
      while h <= slots
        invariant 1 <= h <= slots + 1
        invariant forall g :: 0 < g < h ==> g in old(Blocks())
        invariant blocks[..] == bs && order == old(order)
      {
        LiveAt(bs, mem[..], h);
        if blocks[h].size == 0 {
          Inside(bs, order, start, limit, at);
          GapWithinFree(bs, order, start, limit, at);
          ListedNotFree(bs, order, start, limit, at, h);
          blocks[h] := MemBlock(End(blocks[best]), size, blocks[best].next);
          blocks[best] := blocks[best].(next := h);
          assert LinkedAfter(bs, best, h, size, blocks[..]);
          InsertKeeps(bs, order, start, limit, at, h, size, blocks[..]);
          order := Inserted(order, at, h);
          InPool(blocks[..], order, start, limit, mem[..]);
          InsertLive(bs, mem[..], best, h, size, blocks[..]);
          return;
        }
        h := h + 1;
      }
      h := NOBLOCK;
    }

    /**
     Succeeds exactly when a slot is free and the space left, however scattered,
     suffices. A gap that already fits is used without moving anything.
     */
    method AllocBlock(size: u16) returns (h: nat)
      requires Valid() && size > 0
      modifies this`order, blocks, mem
      ensures Valid() && Received() == old(Received())
      ensures h != NOBLOCK <==>
        FreeSlot(old(Blocks()), slots) && Footprint(old(Blocks()), slots) + size <= capacity
      ensures h == NOBLOCK ==> Blocks() == old(Blocks())
      ensures h != NOBLOCK ==> 0 < h <= slots && h !in old(Blocks()) && h in Blocks() && |Blocks()[h]| == size
      ensures h != NOBLOCK ==> Blocks() == old(Blocks())[h := Blocks()[h]]
      ensures h != NOBLOCK && old(SomeGap(blocks[..], order, size, start + capacity)) ==>
        && mem[..] == old(mem[..])
        && (forall g :: 0 <= g < blocks.Length && g != h ==> blocks[g].begin == old(blocks[g].begin))
        && exists k :: 0 <= k < |old(order)| && BestGap(old(blocks[..]), old(order), k, size, start + capacity)
             && order == Inserted(old(order), k, h) && blocks[h].begin == End(old(blocks[..])[old(order)[k]])
    {
      hide Live, Chain, SizedIffListed, InMemory;
      ghost var bs, ord, limit := blocks[..], order, start + capacity;
      Basics(bs, order, start, limit);
      UsedAgrees(bs, order, mem[..], start, limit);
      var found, best, at := FindGap(size);
      if !found {
        best := Compact();
        at := |order| - 1;
        Basics(blocks[..], order, start, limit);
        UsedAgrees(blocks[..], order, mem[..], start, limit);
        PackedEnd(blocks[..], order, start, limit, at);
        Inside(blocks[..], order, start, limit, at);
        if blocks[0].begin + capacity - blocks[best].begin - blocks[best].size < size {
          h := NOBLOCK;
          return;
        }
      } else {
        GapWithinFree(bs, order, start, limit, at);
        assert BestGap(bs, ord, at, size, limit);
      }
      h := TakeSlot(size, best, at);
    }

    /** Unlinks block `next` from behind block `b` and clears its slot. */
    method Unlink(b: nat, next: nat, ghost k: nat)
      requires Valid() && k + 1 < |order| && b == order[k] && next == order[k + 1]
      modifies this`order, blocks
      ensures Valid() && Blocks() == old(Blocks()) - {next} && Received() == old(Received())
      ensures forall g :: 0 <= g < blocks.Length ==> blocks[g].begin == old(blocks[g].begin)
    {
      hide Live, Chain, SizedIffListed, InMemory;
      ghost var bs, limit := blocks[..], start + capacity;
      Basics(bs, order, start, limit);
      ListedNext(bs, order, start, limit, k);
      blocks[b] := blocks[b].(next := blocks[next].next);
      blocks[next] := blocks[next].(size := 0, next := NOBLOCK);
      assert Unlinked(bs, b, next, blocks[..]);
      RemoveKeeps(bs, order, start, limit, k + 1, blocks[..]);
      order := Removed(order, k + 1);
      InPool(blocks[..], order, start, limit, mem[..]);
      RemoveLive(bs, mem[..], b, next, blocks[..]);
    }

    /** Gives up a live block; any other handle is ignored. */
    method FreeBlock(handle: nat)
      requires Valid()
      modifies this`order, blocks
      ensures Valid() && Blocks() == old(Blocks()) - {handle} && Received() == old(Received())
      ensures forall g :: 0 <= g < blocks.Length ==> blocks[g].begin == old(blocks[g].begin)
    {
      hide Live, Chain, SizedIffListed, InMemory;
      ghost var limit := start + capacity;
      LiveAt(blocks[..], mem[..], handle);
      if handle == NOBLOCK {
        return;
      }
      Basics(blocks[..], order, start, limit);
      var b := 0;
      ghost var k := 0;
      while true
        invariant k < |order| && b == order[k] && blocks[..] == old(blocks[..]) && order == old(order)
        invariant forall j :: 0 <= j <= k ==> order[j] != handle
        decreases |order| - k
      {
        var next := blocks[b].next;
        if k < |order| - 1 {
          ListedNext(blocks[..], order, start, limit, k);
        }
        if next == handle {
          Unlink(b, next, k);
          return;
        }
        if next == NOBLOCK {
          NotListed(blocks[..], order, start, limit, mem[..], handle);
          return;
        }
        b, k := next, k + 1;
      }
    }

    /** Drops the first `position` bytes of a live block, not all of it. */
    method ResizeFrom(handle: nat, position: u16)
      requires Valid() && handle in Blocks() && position < |Blocks()[handle]|
      modifies blocks
      ensures Valid() && Blocks() == old(Blocks())[handle := old(Blocks())[handle][position..]]
      ensures Received() == old(Received())
    {
      hide Live, Chain, SizedIffListed, InMemory;
      LiveAt(blocks[..], mem[..], handle);
      ghost var bytes := Blocks()[handle];
      assert bytes[position..] == bytes[position..position + (|bytes| - position)];
      Resize(handle, position, blocks[handle].size - position);
    }

    /** Cuts a live block to a non-empty part of its own range. */
    method Resize(handle: nat, position: u16, size: u16)
      requires Valid() && handle in Blocks() && 0 < size && position + size <= |Blocks()[handle]|
      modifies blocks
      ensures Valid() && Blocks() == old(Blocks())[handle := old(Blocks())[handle][position..position + size]]
      ensures Received() == old(Received())
    {
      ghost var bs := blocks[..];
      var block := blocks[handle];
      blocks[handle] := block.(begin := block.begin + position, size := size);
      RebindKeeps(bs, order, start, start + capacity, handle, blocks[handle], blocks[..]);
      InPool(blocks[..], order, start, start + capacity, mem[..]);
      RebindLive(bs, mem[..], handle, position, size, blocks[..]);
    }

    ghost predicate IsPacket(handle: nat)
      requires Valid()
      reads this, blocks, mem
    {
      handle == RECEIVE_BUFFER || handle in Blocks()
    }

    /** What a packet handle stands for: a live block, or the received frame. */
    ghost function Packet(handle: nat): seq<byte>
      requires Valid() && IsPacket(handle)
      reads this, blocks, mem
    {
      if handle == RECEIVE_BUFFER then Received() else Blocks()[handle]
    }

    method Region(handle: nat) returns (begin: u16, size: u16)
      requires Valid() && IsPacket(handle)
      ensures begin + size <= mem.Length && mem[..][begin..begin + size] == Packet(handle)
      ensures handle == RECEIVE_BUFFER ==> begin == received.begin && size == received.size
      ensures handle != RECEIVE_BUFFER ==> 0 < handle < blocks.Length && begin == blocks[handle].begin
      ensures handle != RECEIVE_BUFFER ==> size == blocks[handle].size > 0
    {
      LiveAt(blocks[..], mem[..], handle);
      var packet := if handle == RECEIVE_BUFFER then received else blocks[handle];
      begin, size := packet.begin, packet.size;
    }

    method BlockSize(handle: nat) returns (size: u16)
      requires Valid() && (handle <= slots || handle == RECEIVE_BUFFER)
      ensures size == if IsPacket(handle) then |Packet(handle)| else 0
    {
      LiveAt(blocks[..], mem[..], handle);
      size := if handle == NOBLOCK then 0 else if handle == RECEIVE_BUFFER then received.size else blocks[handle].size;
    }

    /** Reads at most `len` bytes from `position`, clamped to the packet's end. */
    method ReadPacket(handle: nat, position: u16, len: u16) returns (data: seq<byte>)
      requires Valid() && IsPacket(handle) && position <= |Packet(handle)|
      ensures |data| == Min(len, |Packet(handle)| - position)
      ensures data == Packet(handle)[position..position + |data|]
    {
      hide Live, WellFormed, InMemory, Packet, IsPacket, Valid;
      var begin, size := Region(handle);
      var count := if len > size - position then size - position else len;
      data := [];
      ghost var m := mem[..];
      var from := begin + position;
      SubSlice(m, begin, begin + size, position, count);
      while |data| < count
        invariant |data| <= count && data == m[from..from + |data|]
      {
        data := data + [mem[from + |data|]];
      }
    }

    /** Writes as much of `data` at `position` as the block holds; no other block changes. */
    method WritePacket(handle: nat, position: u16, data: seq<byte>) returns (written: u16)
      requires Valid() && handle in Blocks() && handle != RECEIVE_BUFFER && position <= |Blocks()[handle]|
      modifies mem
      ensures Valid() && written == Min(|data|, |old(Blocks())[handle]| - position)
      ensures Blocks() == old(Blocks())[handle := Stored(old(Blocks())[handle], position, data[..written])]
      ensures Received() == old(Received())
    {
      hide Live, WellFormed, InMemory, Stored;
      BlockRange(handle);
      var begin, size := Region(handle);
      written := if |data| > size - position then size - position else |data|;
      ghost var m := mem[..];
      LiveUpdate(blocks[..], order, start, start + capacity, m, handle, position, data[..written]);
      StoredElsewhere(m, begin + position, data[..written], received.begin, End(received));
      StoreBytes(begin + position, data[..written]);
    }

    /** The bytes go to ascending addresses, one by one. */
    method StoreBytes(address: nat, data: seq<byte>)
      requires address + |data| <= mem.Length
      modifies mem
      ensures mem[..] == Stored(old(mem[..]), address, data)
    {
      ghost var m := mem[..];
      var i := 0;
      while i < |data|
        invariant 0 <= i <= |data|
        invariant forall j :: 0 <= j < |m| && !(address <= j < address + i) ==> mem[j] == m[j]
        invariant forall j :: address <= j < address + i ==> mem[j] == data[j - address]
      {
        mem[address + i] := data[i];
        i := i + 1;
      }
      assert forall j :: 0 <= j < |m| ==> mem[j] == Stored(m, address, data)[j];
    }

    /** Copies between packets inside the chip; the caller keeps both ranges inside their packets. */
    method CopyPacket(dest: nat, destPos: u16, src: nat, srcPos: u16, len: u16)
      requires Valid() && dest in Blocks() && dest != RECEIVE_BUFFER && IsPacket(src) && src != dest
      requires 0 < len && destPos + len <= |Blocks()[dest]| && srcPos + len <= |Packet(src)|
      modifies mem
      ensures Valid() && Received() == old(Received())
      ensures Blocks() ==
        old(Blocks())[dest := Stored(old(Blocks())[dest], destPos, old(Packet(src))[srcPos..srcPos + len])]
    {
      hide Live, WellFormed, InMemory, Stored, Moved, Packet;
      var to, room := Region(dest);
      var from, size := Region(src);
      CopyPlan(dest, destPos, src, srcPos, len, to, from, size);
      MoveBytes(to + destPos, from + srcPos, len,
                Blocks()[dest := Stored(Blocks()[dest], destPos, Packet(src)[srcPos..srcPos + len])]);
    }

    /** Moves bytes to where they change the live blocks into `live` and nothing else. */
    method MoveBytes(dest: nat, src: nat, len: u16, ghost live: map<nat, seq<byte>>)
      requires Valid() && 0 < len && dest + len <= mem.Length && src + len <= mem.Length
      requires dest <= src || src + len <= dest
      requires var m := Moved(mem[..], dest, src, len);
        InMemory(blocks[..], m) && Live(blocks[..], m) == live && m[received.begin..End(received)] == Received()
      modifies mem
      ensures Valid() && Blocks() == live && Received() == old(Received())
    {
      hide Live, WellFormed, InMemory, Moved;
      BlockMove(mem, dest, src, len);
    }

    /** What the copy will do, read off the state before it. */
    lemma CopyPlan(dest: nat, destPos: u16, src: nat, srcPos: u16, len: u16, to: nat, from: nat, size: nat)
      requires Valid() && dest in Blocks() && dest != RECEIVE_BUFFER && IsPacket(src) && src != dest
      requires 0 < len && destPos + len <= |Blocks()[dest]| && srcPos + len <= |Packet(src)|
      requires 0 < dest < blocks.Length && to == blocks[dest].begin
      requires from + size <= mem.Length && mem[..][from..from + size] == Packet(src)
      requires if src == RECEIVE_BUFFER then from == received.begin && size == received.size
               else 0 < src < blocks.Length && from == blocks[src].begin && size == blocks[src].size
      ensures to + destPos + len <= mem.Length && from + srcPos + len <= mem.Length
      ensures from + srcPos + len <= to + destPos || to + destPos <= from + srcPos
      ensures var m := Moved(mem[..], to + destPos, from + srcPos, len);
        && InMemory(blocks[..], m) && m[received.begin..End(received)] == Received()
        && Live(blocks[..], m) == Blocks()[dest := Stored(Blocks()[dest], destPos, Packet(src)[srcPos..srcPos + len])]
    {
      hide Live, Chain, SizedIffListed, InMemory, Stored, Moved, Link;
      BlockRange(dest);
      if src != RECEIVE_BUFFER {
        BlockRange(src);
        Disjoint(blocks[..], order, start, start + capacity, dest, src);
      }
      SubSlice(mem[..], from, from + size, srcPos, len);
      CopyKeeps(blocks[..], order, start, start + capacity, mem[..], received, dest, destPos, from + srcPos, len);
    }

    lemma BlockRange(h: nat)
      requires Valid() && h in Blocks()
      ensures 0 < h < blocks.Length && blocks[h].size > 0 && |Blocks()[h]| == blocks[h].size
      ensures start <= blocks[h].begin && End(blocks[h]) <= start + capacity
    {
      LiveInside(blocks[..], order, start, start + capacity, h);
    }
  }

  lemma LiveInside(bs: seq<MemBlock>, order: seq<nat>, start: nat, limit: nat, h: nat)
    requires WellFormed(bs, order, start, limit) && 0 < h < |bs| && bs[h].size > 0
    ensures start <= bs[h].begin && End(bs[h]) <= limit
  {
    var j :| 0 <= j < |order| && order[j] == h;
    Inside(bs, order, start, limit, j);
  }
}
