/**
 The handle table of the packet memory pool, on values: slot 0 heads an
 address-ordered list threaded through `next`, and a slot is off the list
 exactly when its size is 0.
 */
module PoolTable {
  import opened Machine

  datatype MemBlock = MemBlock(begin: u16, size: u16, next: nat)

  function End(b: MemBlock): nat {
    b.begin + b.size
  }

  /** Listed block `k` is followed by block `k + 1`, at a higher address. */
  ghost predicate Link(bs: seq<MemBlock>, order: seq<nat>, k: nat)
    requires k + 1 < |order| && order[k] < |bs| && order[k + 1] < |bs|
  {
    bs[order[k]].next == order[k + 1] && End(bs[order[k]]) <= bs[order[k + 1]].begin
  }

  ghost predicate InTable(bs: seq<MemBlock>, order: seq<nat>) {
    forall k :: 0 <= k < |order| ==> order[k] < |bs|
  }

  /** `order` is the list from slot 0: linked in address order, inside the pool, ended by 0. */
  ghost predicate Chain(bs: seq<MemBlock>, order: seq<nat>, start: nat, limit: nat) {
    && 0 < |order| && order[0] == 0 && InTable(bs, order)
    && bs[0].begin == start && bs[0].size == 0
    && (forall k :: 0 <= k < |order| - 1 ==> Link(bs, order, k))
    && bs[order[|order| - 1]].next == 0
    && End(bs[order[|order| - 1]]) <= limit
  }

  /** Off the list means size 0; past slot 0, on the list means size above 0. */
  ghost predicate SizedIffListed(bs: seq<MemBlock>, order: seq<nat>)
    requires InTable(bs, order)
  {
    && (forall k :: 1 <= k < |order| ==> bs[order[k]].size > 0)
    && (forall h :: 0 < h < |bs| && bs[h].size > 0 ==> h in order)
  }

  ghost predicate WellFormed(bs: seq<MemBlock>, order: seq<nat>, start: nat, limit: nat) {
    Chain(bs, order, start, limit) && SizedIffListed(bs, order)
  }

  ghost function GapAfter(bs: seq<MemBlock>, order: seq<nat>, k: nat, limit: nat): int
    requires InTable(bs, order) && k < |order|
  {
    (if k == |order| - 1 then limit else bs[order[k + 1]].begin) - End(bs[order[k]])
  }

  /** The list never returns to a block, and blocks later in it lie at higher addresses. */
  lemma {:induction false} Ordered(bs: seq<MemBlock>, order: seq<nat>, start: nat, limit: nat, j: nat, k: nat)
    requires WellFormed(bs, order, start, limit) && j < k < |order|
    ensures End(bs[order[j]]) <= bs[order[k]].begin
    ensures order[j] != order[k]
    decreases k
  {
    assert Link(bs, order, k - 1);
    if j < k - 1 {
      Ordered(bs, order, start, limit, j, k - 1);
    }
  }

  lemma {:induction false} Inside(bs: seq<MemBlock>, order: seq<nat>, start: nat, limit: nat, k: nat)
    requires WellFormed(bs, order, start, limit) && k < |order|
    ensures start <= bs[order[k]].begin && End(bs[order[k]]) <= limit
  {
    if k > 0 { Ordered(bs, order, start, limit, 0, k); }
    if k < |order| - 1 { Ordered(bs, order, start, limit, k, |order| - 1); }
  }

  lemma Basics(bs: seq<MemBlock>, order: seq<nat>, start: nat, limit: nat)
    requires WellFormed(bs, order, start, limit)
    ensures InTable(bs, order) && 0 < |order| && order[0] == 0 < |bs|
    ensures bs[0].begin == start && bs[0].size == 0
    ensures bs[order[|order| - 1]].next == 0 && End(bs[order[|order| - 1]]) <= limit
  {
  }

  lemma ListedNotFree(bs: seq<MemBlock>, order: seq<nat>, start: nat, limit: nat, k: nat, h: nat)
    requires WellFormed(bs, order, start, limit) && k < |order| && 0 < h < |bs| && bs[h].size == 0
    ensures order[k] < |bs| && order[k] != h
  {
  }

  lemma ListedNext(bs: seq<MemBlock>, order: seq<nat>, start: nat, limit: nat, k: nat)
    requires WellFormed(bs, order, start, limit) && k + 1 < |order|
    ensures order[k] < |bs| && bs[order[k]].next == order[k + 1] != 0
    ensures order[k] != order[k + 1] < |bs| && bs[order[k + 1]].size > 0 && Link(bs, order, k)
  {
    assert Link(bs, order, k);
    Ordered(bs, order, start, limit, 0, k + 1);
    Ordered(bs, order, start, limit, k, k + 1);
  }

  /** Distinct live blocks occupy disjoint ranges inside the pool. */
  lemma Disjoint(bs: seq<MemBlock>, order: seq<nat>, start: nat, limit: nat, g: nat, h: nat)
    requires WellFormed(bs, order, start, limit)
    requires 0 < g < |bs| && bs[g].size > 0 && 0 < h < |bs| && bs[h].size > 0 && g != h
    ensures End(bs[g]) <= bs[h].begin || End(bs[h]) <= bs[g].begin
    ensures start <= bs[g].begin && End(bs[g]) <= limit
  {
    var j :| 0 <= j < |order| && order[j] == g;
    var k :| 0 <= k < |order| && order[k] == h;
    Ordered(bs, order, start, limit, if j < k then j else k, if j < k then k else j);
    Inside(bs, order, start, limit, j);
  }

  // ----- the abstract view: handles to byte strings

  ghost predicate InMemory(bs: seq<MemBlock>, mem: seq<byte>) {
    forall h :: 0 < h < |bs| && bs[h].size > 0 ==> End(bs[h]) <= |mem|
  }

  ghost function Live(bs: seq<MemBlock>, mem: seq<byte>): map<nat, seq<byte>>
    requires InMemory(bs, mem)
  {
    map h: nat | 0 < h < |bs| && bs[h].size > 0 :: mem[bs[h].begin..End(bs[h])]
  }

  lemma LiveAt(bs: seq<MemBlock>, mem: seq<byte>, h: nat)
    requires InMemory(bs, mem)
    ensures h in Live(bs, mem) <==> 0 < h < |bs| && bs[h].size > 0
    ensures h in Live(bs, mem) ==> End(bs[h]) <= |mem| && Live(bs, mem)[h] == mem[bs[h].begin..End(bs[h])]
  {
  }

  /** The bytes held by handles 1 to n. */
  ghost function Footprint(m: map<nat, seq<byte>>, n: nat): nat {
    if n == 0 then 0 else Footprint(m, n - 1) + if n in m then |m[n]| else 0
  }

  ghost predicate FreeSlot(m: map<nat, seq<byte>>, slots: nat) {
    exists h :: 0 < h <= slots && h !in m
  }

  // ----- sums: along the list, and along the table

  ghost function ListSum(bs: seq<MemBlock>, order: seq<nat>, k: nat): nat
    requires InTable(bs, order) && k <= |order|
  {
    if k == 0 then 0 else ListSum(bs, order, k - 1) + bs[order[k - 1]].size
  }

  ghost function SumTo(sizes: seq<nat>, n: nat): nat
    requires n <= |sizes|
  {
    if n == 0 then 0 else SumTo(sizes, n - 1) + sizes[n - 1]
  }

  ghost function SumAt(sizes: seq<nat>, picks: seq<nat>): nat
    requires forall j :: 0 <= j < |picks| ==> picks[j] < |sizes|
  {
    if picks == [] then 0 else SumAt(sizes, picks[..|picks| - 1]) + sizes[picks[|picks| - 1]]
  }

  lemma {:induction false} SumToUpdate(sizes: seq<nat>, i: nat, v: nat, n: nat)
    requires i < |sizes| && n <= |sizes|
    ensures SumTo(sizes[i := v], n) == SumTo(sizes, n) + if i < n then v - sizes[i] else 0
  {
    if n > 0 { SumToUpdate(sizes, i, v, n - 1); }
  }

  lemma {:induction false} SumAtElsewhere(sizes: seq<nat>, picks: seq<nat>, i: nat, v: nat)
    requires i < |sizes| && i !in picks
    requires forall j :: 0 <= j < |picks| ==> picks[j] < |sizes|
    ensures SumAt(sizes[i := v], picks) == SumAt(sizes, picks)
  {
    if picks != [] {
      assert picks[|picks| - 1] != i;
      SumAtElsewhere(sizes, picks[..|picks| - 1], i, v);
    }
  }

  lemma {:induction false} SumToZero(sizes: seq<nat>, n: nat)
    requires n <= |sizes| && forall j :: 0 <= j < n ==> sizes[j] == 0
    ensures SumTo(sizes, n) == 0
  {
    if n > 0 { SumToZero(sizes, n - 1); }
  }

  /** Picking every non-zero entry once, in any order, sums the whole table. */
  lemma {:induction false} SumAtIsSumTo(sizes: seq<nat>, picks: seq<nat>)
    requires forall j :: 0 <= j < |picks| ==> picks[j] < |sizes|
    requires forall j, k :: 0 <= j < k < |picks| ==> picks[j] != picks[k]
    requires forall i :: 0 <= i < |sizes| && sizes[i] > 0 ==> i in picks
    ensures SumAt(sizes, picks) == SumTo(sizes, |sizes|)
    decreases |picks|
  {
    if picks == [] {
      SumToZero(sizes, |sizes|);
    } else {
      var rest, i := picks[..|picks| - 1], picks[|picks| - 1];
      var sizes' := sizes[i := 0];
      forall x | 0 <= x < |sizes'| && sizes'[x] > 0 ensures x in rest {
        assert x in picks;
        var j :| 0 <= j < |picks| && picks[j] == x;
        assert rest[j] == x;
      }
      SumAtIsSumTo(sizes', rest);
      SumAtElsewhere(sizes, rest, i, 0);
      SumToUpdate(sizes, i, 0, |sizes|);
    }
  }

  ghost function Sizes(bs: seq<MemBlock>): seq<nat> {
    seq(|bs|, i requires 0 <= i < |bs| => bs[i].size)
  }

  lemma {:induction false} ListSumIsSumAt(bs: seq<MemBlock>, order: seq<nat>, k: nat)
    requires InTable(bs, order) && k <= |order|
    ensures ListSum(bs, order, k) == SumAt(Sizes(bs), order[..k])
  {
    if k > 0 {
      ListSumIsSumAt(bs, order, k - 1);
      assert order[..k][..k - 1] == order[..k - 1];
    }
  }

  lemma {:induction false} FootprintIsSumTo(bs: seq<MemBlock>, mem: seq<byte>, n: nat)
    requires InMemory(bs, mem) && n < |bs| && bs[0].size == 0
    ensures Footprint(Live(bs, mem), n) == SumTo(Sizes(bs), n + 1)
  {
    if n > 0 { FootprintIsSumTo(bs, mem, n - 1); }
    else { assert SumTo(Sizes(bs), 1) == SumTo(Sizes(bs), 0) + Sizes(bs)[0]; }
  }

  /** The space in use, read off the list or off the abstract map, is the same. */
  lemma UsedAgrees(bs: seq<MemBlock>, order: seq<nat>, mem: seq<byte>, start: nat, limit: nat)
    requires WellFormed(bs, order, start, limit) && InMemory(bs, mem)
    ensures ListSum(bs, order, |order|) == Footprint(Live(bs, mem), |bs| - 1)
  {
    forall j, k | 0 <= j < k < |order| ensures order[j] != order[k] {
      Ordered(bs, order, start, limit, j, k);
    }
    ListSumIsSumAt(bs, order, |order|);
    assert order[..|order|] == order;
    SumAtIsSumTo(Sizes(bs), order);
    FootprintIsSumTo(bs, mem, |bs| - 1);
  }

  // ----- no gap exceeds the space left

  lemma {:induction false} PrefixFits(bs: seq<MemBlock>, order: seq<nat>, start: nat, limit: nat, k: nat)
    requires WellFormed(bs, order, start, limit) && 0 < k <= |order|
    ensures ListSum(bs, order, k) <= End(bs[order[k - 1]]) - start
  {
    if k > 1 {
      PrefixFits(bs, order, start, limit, k - 1);
      assert Link(bs, order, k - 2);
    } else {
      assert ListSum(bs, order, 1) == ListSum(bs, order, 0) + bs[0].size;
    }
  }

  lemma {:induction false} SuffixFits(bs: seq<MemBlock>, order: seq<nat>, start: nat, limit: nat, k: nat)
    requires WellFormed(bs, order, start, limit) && k < |order|
    ensures ListSum(bs, order, |order|) - ListSum(bs, order, k) <= limit - bs[order[k]].begin
    decreases |order| - k
  {
    if k < |order| - 1 {
      SuffixFits(bs, order, start, limit, k + 1);
      assert Link(bs, order, k);
    }
  }

  lemma GapWithinFree(bs: seq<MemBlock>, order: seq<nat>, start: nat, limit: nat, k: nat)
    requires WellFormed(bs, order, start, limit) && k < |order|
    ensures 0 <= GapAfter(bs, order, k, limit) <= limit - start - ListSum(bs, order, |order|)
  {
    PrefixFits(bs, order, start, limit, k + 1);
    if k < |order| - 1 {
      SuffixFits(bs, order, start, limit, k + 1);
      assert Link(bs, order, k);
    }
  }

  /** No gap before position `k`. */
  ghost predicate Packed(bs: seq<MemBlock>, order: seq<nat>, k: nat)
    requires InTable(bs, order) && k < |order|
  {
    forall j :: 0 <= j < k ==> End(bs[order[j]]) == bs[order[j + 1]].begin
  }

  /** With no gap before the last block, the last gap is all the space left. */
  lemma {:induction false} PackedEnd(bs: seq<MemBlock>, order: seq<nat>, start: nat, limit: nat, k: nat)
    requires WellFormed(bs, order, start, limit) && k < |order| && Packed(bs, order, k)
    ensures End(bs[order[k]]) == start + ListSum(bs, order, k + 1)
  {
    if k > 0 {
      PackedEnd(bs, order, start, limit, k - 1);
      assert End(bs[order[k - 1]]) == bs[order[k - 1 + 1]].begin;
    } else {
      assert ListSum(bs, order, 1) == ListSum(bs, order, 0) + bs[0].size;
    }
  }

  // ----- linking a block in

  ghost function Inserted(order: seq<nat>, k: nat, h: nat): (r: seq<nat>)
    requires k < |order|
    ensures |r| == |order| + 1
    ensures forall j :: 0 <= j < |r| ==> r[j] == if j <= k then order[j] else if j == k + 1 then h else order[j - 1]
  {
    order[..k + 1] + [h] + order[k + 1..]
  }

  /** Slot `h` becomes a block of `size` bytes linked in right behind block `p`. */
  ghost predicate LinkedAfter(bs: seq<MemBlock>, p: nat, h: nat, size: u16, bs': seq<MemBlock>)
    requires p < |bs| && h < |bs| && p != h
  {
    && End(bs[p]) < 0x1_0000 && |bs'| == |bs|
    && bs'[h] == MemBlock(End(bs[p]), size, bs[p].next)
    && bs'[p] == bs[p].(next := h)
    && (forall x :: 0 <= x < |bs| && x != p && x != h ==> bs'[x] == bs[x])
  }

  lemma InsertLink(bs: seq<MemBlock>, order: seq<nat>, start: nat, limit: nat, k: nat, h: nat, size: u16,
                   bs': seq<MemBlock>, j: nat)
    requires WellFormed(bs, order, start, limit) && k < |order|
    requires h < |bs| && h !in order && size <= GapAfter(bs, order, k, limit)
    requires LinkedAfter(bs, order[k], h, size, bs') && j < |order|
    ensures var r := Inserted(order, k, h); r[j] < |bs'| && r[j + 1] < |bs'| && Link(bs', r, j)
  {
    Basics(bs, order, start, limit);
    hide WellFormed;
    if j < k {
      ListedNext(bs, order, start, limit, j);
      Ordered(bs, order, start, limit, j, k);
    } else if j > k + 1 {
      ListedNext(bs, order, start, limit, j - 1);
      Ordered(bs, order, start, limit, k, j - 1);
      Ordered(bs, order, start, limit, k, j);
    } else if k + 1 < |order| {
      ListedNext(bs, order, start, limit, k);
    }
  }

  /** Slot `h`, off the list, is linked in after position `k` into a gap that fits. */
  lemma InsertKeeps(bs: seq<MemBlock>, order: seq<nat>, start: nat, limit: nat, k: nat, h: nat, size: u16,
                    bs': seq<MemBlock>)
    requires WellFormed(bs, order, start, limit) && k < |order|
    requires 0 < h < |bs| && bs[h].size == 0 && 0 < size <= GapAfter(bs, order, k, limit)
    requires order[k] != h && LinkedAfter(bs, order[k], h, size, bs')
    ensures h !in order && WellFormed(bs', Inserted(order, k, h), start, limit)
  {
    Basics(bs, order, start, limit);
    forall j | 0 <= j < |order| ensures order[j] != h { ListedNotFree(bs, order, start, limit, j, h); }
    InsertedMembers(bs, order, start, limit, k, h, size, bs');
    InsertedEnd(bs, order, start, limit, k, h, size, bs');
    hide SizedIffListed, LinkedAfter, GapAfter;
    var r := Inserted(order, k, h);
    forall j | 0 <= j < |r| - 1 ensures Link(bs', r, j) {
      InsertLink(bs, order, start, limit, k, h, size, bs', j);
    }
  }

  lemma InsertedEnd(bs: seq<MemBlock>, order: seq<nat>, start: nat, limit: nat, k: nat, h: nat, size: u16,
                    bs': seq<MemBlock>)
    requires WellFormed(bs, order, start, limit) && k < |order| && 0 < h < |bs| && h !in order
    requires size <= GapAfter(bs, order, k, limit) && LinkedAfter(bs, order[k], h, size, bs')
    ensures bs'[0].begin == start && bs'[0].size == 0
    ensures var last := Inserted(order, k, h)[|order|];
      last < |bs'| && bs'[last].next == 0 && End(bs'[last]) <= limit
  {
    Basics(bs, order, start, limit);
    var last := |order| - 1;
    if k < last { Ordered(bs, order, start, limit, k, last); }
    hide WellFormed;
  }

  lemma InsertedMembers(bs: seq<MemBlock>, order: seq<nat>, start: nat, limit: nat, k: nat, h: nat, size: u16,
                        bs': seq<MemBlock>)
    requires WellFormed(bs, order, start, limit) && k < |order|
    requires 0 < h < |bs| && h !in order && size > 0
    requires LinkedAfter(bs, order[k], h, size, bs')
    ensures InTable(bs', Inserted(order, k, h)) && SizedIffListed(bs', Inserted(order, k, h))
  {
    hide Chain;
    Basics(bs, order, start, limit);
    var r := Inserted(order, k, h);
    forall j | 0 <= j < |r| ensures r[j] < |bs'| && (j >= 1 ==> bs'[r[j]].size > 0) {
      InsertedSized(bs, order, k, h, size, bs', j);
    }
    forall x | 0 < x < |bs'| && bs'[x].size > 0 ensures x in r {
      InsertedListed(bs, order, k, h, size, bs', x);
    }
  }

  lemma InsertedSized(bs: seq<MemBlock>, order: seq<nat>, k: nat, h: nat, size: u16, bs': seq<MemBlock>, j: nat)
    requires InTable(bs, order) && SizedIffListed(bs, order) && k < |order| && h < |bs| && h !in order && size > 0
    requires LinkedAfter(bs, order[k], h, size, bs') && j <= |order|
    ensures var r := Inserted(order, k, h); r[j] < |bs'| && (j >= 1 ==> bs'[r[j]].size > 0)
  {
    assert Inserted(order, k, h)[j] == if j <= k then order[j] else if j == k + 1 then h else order[j - 1];
  }

  lemma InsertedListed(bs: seq<MemBlock>, order: seq<nat>, k: nat, h: nat, size: u16, bs': seq<MemBlock>, x: nat)
    requires InTable(bs, order) && SizedIffListed(bs, order) && k < |order| && h < |bs| && h !in order
    requires LinkedAfter(bs, order[k], h, size, bs') && 0 < x < |bs'| && bs'[x].size > 0
    ensures x in Inserted(order, k, h)
  {
    if x == h {
      assert Inserted(order, k, h)[k + 1] == x;
    } else {
      var j :| 0 <= j < |order| && order[j] == x;
      assert Inserted(order, k, h)[if j <= k then j else j + 1] == x;
    }
  }

  // ----- unlinking a block

  ghost function Removed(order: seq<nat>, k: nat): (r: seq<nat>)
    requires k < |order|
    ensures |r| == |order| - 1
    ensures forall j :: 0 <= j < |r| ==> r[j] == if j < k then order[j] else order[j + 1]
  {
    order[..k] + order[k + 1..]
  }

  /** Block `g`, right behind block `p` in the list, is unlinked and its slot cleared. */
  ghost predicate Unlinked(bs: seq<MemBlock>, p: nat, g: nat, bs': seq<MemBlock>)
    requires p < |bs| && g < |bs| && p != g
  {
    && |bs'| == |bs|
    && bs'[p] == bs[p].(next := bs[g].next)
    && bs'[g] == bs[g].(size := 0, next := 0)
    && (forall x :: 0 <= x < |bs| && x != p && x != g ==> bs'[x] == bs[x])
  }

  lemma RemoveLinkBefore(bs: seq<MemBlock>, order: seq<nat>, start: nat, limit: nat, k: nat, bs': seq<MemBlock>, j: nat)
    requires WellFormed(bs, order, start, limit) && 0 < k < |order| && order[k - 1] != order[k]
    requires Unlinked(bs, order[k - 1], order[k], bs') && j < k - 1
    ensures var r := Removed(order, k); r[j] < |bs'| && r[j + 1] < |bs'| && Link(bs', r, j)
  {
    hide WellFormed;
    ListedNext(bs, order, start, limit, j);
    Ordered(bs, order, start, limit, j, k - 1);
    Ordered(bs, order, start, limit, j, k);
    if j + 1 < k - 1 { Ordered(bs, order, start, limit, j + 1, k - 1); }
    Ordered(bs, order, start, limit, j + 1, k);
  }

  lemma RemoveLink(bs: seq<MemBlock>, order: seq<nat>, start: nat, limit: nat, k: nat, bs': seq<MemBlock>, j: nat)
    requires WellFormed(bs, order, start, limit) && 0 < k < |order| && order[k - 1] != order[k]
    requires Unlinked(bs, order[k - 1], order[k], bs') && k - 1 <= j < |order| - 2
    ensures var r := Removed(order, k); r[j] < |bs'| && r[j + 1] < |bs'| && Link(bs', r, j)
  {
    hide WellFormed;
    ListedNext(bs, order, start, limit, j + 1);
    Ordered(bs, order, start, limit, k - 1, j + 2);
    Ordered(bs, order, start, limit, k, j + 2);
    if j == k - 1 {
      ListedNext(bs, order, start, limit, k - 1);
    } else {
      Ordered(bs, order, start, limit, k - 1, j + 1);
      Ordered(bs, order, start, limit, k, j + 1);
    }
  }

  lemma RemovedEnd(bs: seq<MemBlock>, order: seq<nat>, start: nat, limit: nat, k: nat, bs': seq<MemBlock>)
    requires WellFormed(bs, order, start, limit) && 0 < k < |order| && order[k - 1] != order[k]
    requires Unlinked(bs, order[k - 1], order[k], bs')
    ensures var r := Removed(order, k);
      0 < |r| && r[|r| - 1] < |bs'| && bs'[r[|r| - 1]].next == 0 && End(bs'[r[|r| - 1]]) <= limit
  {
    Basics(bs, order, start, limit);
    hide WellFormed;
    var last := |order| - 1;
    if k == last {
      Inside(bs, order, start, limit, k - 1);
    } else {
      Ordered(bs, order, start, limit, k - 1, last);
      Ordered(bs, order, start, limit, k, last);
    }
  }

  lemma RemoveKeeps(bs: seq<MemBlock>, order: seq<nat>, start: nat, limit: nat, k: nat, bs': seq<MemBlock>)
    requires WellFormed(bs, order, start, limit) && 0 < k < |order| && order[k - 1] != order[k]
    requires Unlinked(bs, order[k - 1], order[k], bs')
    ensures WellFormed(bs', Removed(order, k), start, limit)
  {
    hide SizedIffListed;
    var r := Removed(order, k);
    Basics(bs, order, start, limit);
    RemovedEnd(bs, order, start, limit, k, bs');
    RemovedMembers(bs, order, start, limit, k, bs');
    forall j | 0 <= j < |r| - 1 ensures Link(bs', r, j) {
      if j < k - 1 {
        RemoveLinkBefore(bs, order, start, limit, k, bs', j);
      } else {
        RemoveLink(bs, order, start, limit, k, bs', j);
      }
    }
    ListedNext(bs, order, start, limit, k - 1);
  }

  lemma RemovedSized(bs: seq<MemBlock>, order: seq<nat>, start: nat, limit: nat, k: nat, bs': seq<MemBlock>, j: nat)
    requires WellFormed(bs, order, start, limit) && 0 < k < |order| && order[k - 1] != order[k]
    requires Unlinked(bs, order[k - 1], order[k], bs') && j < |order| - 1
    ensures var r := Removed(order, k); r[j] < |bs'| && (j > 0 ==> bs'[r[j]].size > 0)
  {
    hide Chain, Link;
    Basics(bs, order, start, limit);
    if j < k { Ordered(bs, order, start, limit, j, k); } else { Ordered(bs, order, start, limit, k, j + 1); }
  }

  lemma RemovedMembers(bs: seq<MemBlock>, order: seq<nat>, start: nat, limit: nat, k: nat, bs': seq<MemBlock>)
    requires WellFormed(bs, order, start, limit) && 0 < k < |order| && order[k - 1] != order[k]
    requires Unlinked(bs, order[k - 1], order[k], bs')
    ensures InTable(bs', Removed(order, k)) && SizedIffListed(bs', Removed(order, k))
  {
    var r := Removed(order, k);
    forall j | 0 <= j < |r| ensures r[j] < |bs'| && (j > 0 ==> bs'[r[j]].size > 0) {
      RemovedSized(bs, order, start, limit, k, bs', j);
    }
    forall x | 0 < x < |bs'| && bs'[x].size > 0 ensures x in r {
      RemovedListed(bs, order, k, bs', x);
    }
  }

  lemma RemovedListed(bs: seq<MemBlock>, order: seq<nat>, k: nat, bs': seq<MemBlock>, x: nat)
    requires InTable(bs, order) && SizedIffListed(bs, order) && 0 < k < |order| && order[k - 1] != order[k]
    requires Unlinked(bs, order[k - 1], order[k], bs') && 0 < x < |bs'| && bs'[x].size > 0
    ensures x in Removed(order, k)
  {
    assert bs[x].size > 0 && x != order[k];
    var j :| 0 <= j < |order| && order[j] == x;
    assert Removed(order, k)[if j < k then j else j - 1] == x;
  }

  // ----- re-bounding a block

  /** Block `h` is re-bounded without reaching before its old begin or beyond the next block. */
  lemma RebindKeeps(bs: seq<MemBlock>, order: seq<nat>, start: nat, limit: nat, h: nat, b: MemBlock,
                    bs': seq<MemBlock>)
    requires WellFormed(bs, order, start, limit)
    requires 0 < h < |bs| && bs[h].size > 0
    requires b.next == bs[h].next && b.size > 0 && End(b) <= End(bs[h])
    requires bs[h].begin <= b.begin
      || exists k {:trigger order[k]} :: 0 < k < |order| && order[k] == h && End(bs[order[k - 1]]) <= b.begin
    requires bs' == bs[h := b]
    ensures WellFormed(bs', order, start, limit)
  {
    assert order[0] == 0;
    forall j | 0 <= j < |order| - 1 ensures Link(bs', order, j) {
      assert Link(bs, order, j);
      Ordered(bs, order, start, limit, j, j + 1);
      if order[j + 1] == h {
        if b.begin < bs[h].begin {
          var k :| 0 < k < |order| && order[k] == h && End(bs[order[k - 1]]) <= b.begin;
          if k < j + 1 { Ordered(bs, order, start, limit, k, j + 1); }
          if k > j + 1 { Ordered(bs, order, start, limit, j + 1, k); }
        }
      }
    }
  }
}
