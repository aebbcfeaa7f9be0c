/**
 The Internet checksum (sections 1 and 2 of RFC 1071) over a packet whose header
 is in RAM and whose payload is in the network chip's memory.
 */
module Checksum {
  import opened Machine
  import opened PoolTable
  import opened ChipMemory

  const ALL_ONES: u16 := 0xffff
  const LLH_LEN: nat := 14
  const IPH_LEN: nat := 20
  const TCPH_LEN: nat := 20
  const UDPH_LEN: nat := 8
  const PROTO_TCP: byte := 6
  const PROTO_UDP: byte := 17

  // ----- one's complement sums

  function Word(hi: byte, lo: byte): u16 {
    hi as int * 0x100 + lo as int
  }

  /** The 16-bit words added up without wrap-around; an odd last byte is padded with zero. */
  function WordSum(s: seq<byte>): nat {
    if s == [] then 0
    else if |s| == 1 then Word(s[0], 0)
    else Word(s[0], s[1]) + WordSum(s[2..])
  }

  /** The one's complement sum in 16 bits: the sum mod 65535, with zero only for zero. */
  function Fold(n: nat): u16 {
    if n == 0 then 0 else 1 + (n - 1) % 0xffff
  }

  lemma FoldSmall(n: u16)
    ensures Fold(n) == n
  {
  }

  /** Carries added back until none is left. */
  function CarriesAdded(n: nat): nat {
    if n < 0x1_0000 then n else CarriesAdded(n % 0x1_0000 + n / 0x1_0000)
  }

  lemma {:induction false} FoldAddsCarries(n: nat)
    ensures CarriesAdded(n) == Fold(n)
  {
    if n >= 0x1_0000 {
      var m := n % 0x1_0000 + n / 0x1_0000;
      assert n - 1 == m - 1 + 0xffff * (n / 0x1_0000);
      FoldAddsCarries(m);
      ModuloShift(m - 1, n / 0x1_0000);
    }
  }

  lemma {:induction false} ModuloShift(m: nat, k: nat)
    ensures (m + 0xffff * k) % 0xffff == m % 0xffff
  {
    if k > 0 { ModuloShift(m, k - 1); }
  }

  lemma FoldMeaning(n: nat)
    ensures Fold(n) as int % 0xffff == n % 0xffff
    ensures Fold(n) == 0 <==> n == 0
  {
  }

  lemma {:induction false} WordSumZero(s: seq<byte>)
    ensures WordSum(s) == 0 <==> forall i :: 0 <= i < |s| ==> s[i] == 0
  {
    if |s| >= 2 {
      WordSumZero(s[2..]);
      assert forall i :: 2 <= i < |s| ==> s[i] == s[2..][i - 2];
    }
  }

  /** At an even split the parts add up. */
  lemma {:induction false} WordSumSplit(a: seq<byte>, b: seq<byte>)
    requires |a| % 2 == 0
    ensures WordSum(a + b) == WordSum(a) + WordSum(b)
  {
    if a == [] {
      assert a + b == b;
    } else {
      WordSumSplit(a[2..], b);
      assert (a + b)[2..] == a[2..] + b;
    }
  }

  /** The next bytes of a stretch summed so far: one word, or the odd byte at the end. */
  lemma WordSumNext(s: seq<byte>, i: nat)
    requires i < |s| && i % 2 == 0
    ensures i + 1 < |s| ==> WordSum(s[..i + 2]) == WordSum(s[..i]) + Word(s[i], s[i + 1])
    ensures i + 1 == |s| ==> WordSum(s) == WordSum(s[..i]) + Word(s[i], 0)
  {
    hide WordSum;
    if i + 1 < |s| {
      WordSumSplit(s[..i], [s[i], s[i + 1]]);
      WordSumShort(s[i], s[i + 1]);
      assert s[..i + 2] == s[..i] + [s[i], s[i + 1]];
    } else {
      WordSumSplit(s[..i], [s[i]]);
      WordSumShort(s[i], 0);
      assert s == s[..i] + [s[i]];
    }
  }

  lemma WordSumShort(hi: byte, lo: byte)
    ensures WordSum([hi, lo]) == Word(hi, lo) && WordSum([hi]) == Word(hi, 0)
  {
    assert [hi, lo][2..] == [];
  }

  /** Replacing one aligned word changes the sum by the difference. */
  lemma WordSumUpdate(s: seq<byte>, k: nat, hi: byte, lo: byte)
    requires k % 2 == 0 && k + 1 < |s|
    ensures WordSum(s[k := hi][k + 1 := lo]) + Word(s[k], s[k + 1]) == WordSum(s) + Word(hi, lo)
  {
    var s' := s[k := hi][k + 1 := lo];
    WordSumSplit(s[..k], s[k..]);
    WordSumSplit(s'[..k], s'[k..]);
    assert s == s[..k] + s[k..] && s' == s'[..k] + s'[k..];
    assert s[..k] == s'[..k] && s[k..][2..] == s'[k..][2..];
  }

  // ----- the two loops

  /** Adds a word; a carry out of the 16 bits comes back in at the bottom. */
  function AddCarry(sum: u16, t: u16): (r: u16)
    ensures r == Fold(sum as int + t as int)
  {
    var wrapped := (sum as int + t as int) % 0x1_0000;
    if wrapped < t as int then wrapped + 1 else wrapped
  }

  lemma FoldTwice(n: nat, t: nat)
    ensures Fold(Fold(n) as int + t) == Fold(n + t)
  {
    if n > 0 { ModuloShift(Fold(n) as int + t - 1, (n - 1) / 0xffff); }
  }

  /** The sum of the first `i` bytes, on top of `start`, as the loops keep it. */
  ghost function SumTo(start: u16, s: seq<byte>, i: nat): u16
    requires i <= |s|
  {
    Fold(start as int + WordSum(s[..i]))
  }

  lemma SumBegins(start: u16, s: seq<byte>)
    ensures SumTo(start, s, 0) == start && SumTo(start, s, |s|) == Fold(start as int + WordSum(s))
  {
    assert s[..|s|] == s;
    FoldSmall(start);
    hide Fold;
    assert WordSum(s[..0]) == 0;
  }

  lemma SumNext(start: u16, s: seq<byte>, i: nat)
    requires i < |s| && i % 2 == 0
    ensures i + 1 < |s| ==> SumTo(start, s, i + 2) == AddCarry(SumTo(start, s, i), Word(s[i], s[i + 1]))
    ensures i + 1 == |s| ==> SumTo(start, s, |s|) == AddCarry(SumTo(start, s, i), Word(s[i], 0))
  {
    hide Fold, WordSum;
    var n := start as int + WordSum(s[..i]);
    WordSumNext(s, i);
    if i + 1 < |s| {
      FoldTwice(n, Word(s[i], s[i + 1]) as int);
    } else {
      FoldTwice(n, Word(s[i], 0) as int);
      assert s[..|s|] == s;
    }
  }

  /** Sums RAM through a moving pointer, two bytes at a time. */
  method Chksum(start: u16, data: array<byte>, begin: nat, len: nat) returns (sum: u16)
    requires begin + len <= data.Length
    ensures sum == Fold(start as int + WordSum(data[begin..begin + len]))
  {
    hide Fold, WordSum, SumTo, Word, AddCarry;
    ghost var s := data[begin..begin + len];
    SumBegins(start, s);
    sum := start;
    var dataptr: int, lastByte: int := begin, begin + len - 1;
    while dataptr < lastByte
      invariant begin <= dataptr <= begin + len && (dataptr - begin) % 2 == 0
      invariant sum == SumTo(start, s, dataptr - begin)
    {
      SumNext(start, s, dataptr - begin);
      sum := AddCarry(sum, Word(data[dataptr], data[dataptr + 1]));
      dataptr := dataptr + 2;
    }
    if dataptr == lastByte {
      SumNext(start, s, dataptr - begin);
      sum := AddCarry(sum, Word(data[dataptr], 0));
    }
  }

  /** How much of a packet of `size` bytes is left to read from `position`, in 16 bits. */
  function Available(size: u16, position: u16, len: u16): (n: u16)
    ensures n <= len && (position <= size ==> n == Min(len, size as int - position as int))
  {
    Min(len, (size as int - position as int) % 0x1_0000)
  }

  /** What the loop over chip memory counts up to: one less than the bytes there are, in 16 bits. */
  function LastIndex(available: nat): u16 {
    (available + 0xffff) % 0x1_0000
  }

  /** Its index after `n` rounds. */
  function IndexAfter(n: nat): u16 {
    2 * n % 0x1_0000
  }

  ghost predicate LoopEnds(available: nat) {
    exists n: nat :: IndexAfter(n) >= LastIndex(available)
  }

  /**
   The loop ends exactly if there is a byte to read: for none the count wraps around,
   and the even index never gets there.
   */
  lemma LoopEndsExactly(available: u16)
    ensures LoopEnds(available) <==> available > 0
  {
    if available > 0 {
      assert IndexAfter(available / 2) >= LastIndex(available);
    } else {
      forall n: nat ensures IndexAfter(n) < LastIndex(0) {
        assert IndexAfter(n) % 2 == 0;
      }
    }
  }

  /** Sums chip memory, where there is at least one byte to read; `LoopEndsExactly` says why that is needed. */
  method DeviceChksum(start: u16, mem: array<byte>, packet: MemBlock, position: u16, len: u16) returns (sum: u16)
    requires packet.begin + packet.size <= mem.Length && packet.size < 0x1_0000
    requires position < packet.size && 0 < len
    ensures var from := packet.begin + position;
      sum == Fold(start as int + WordSum(mem[from..from + Available(packet.size, position, len)]))
  {
    hide Fold, WordSum, SumTo, Word, AddCarry;
    ghost var from := packet.begin + position;
    ghost var s := mem[from..from + Available(packet.size, position, len)];
    SumBegins(start, s);
    sum := start;
    var pointer := packet.begin + position;
    var last := LastIndex(Available(packet.size, position, len));
    var i: u16 := 0;
    while i < last
      invariant i as int <= last as int + 1 && i % 2 == 0 && pointer == from + i as int
      invariant last as int + 1 == Available(packet.size, position, len)
      invariant sum == SumTo(start, s, i)
    {
      SumNext(start, s, i);
      sum := AddCarry(sum, Word(mem[pointer], mem[pointer + 1]));
      pointer, i := pointer + 2, (i as int + 2) % 0x1_0000;
    }
    if i == last {
      SumNext(start, s, i);
      sum := AddCarry(sum, Word(mem[pointer], 0));
    }
  }

  // ----- headers

  /** Swaps the bytes between host order, low byte first, and network order. */
  function Htons(v: u16): u16 {
    Word(v % 0x100, v / 0x100)
  }

  lemma HtonsOf(hi: byte, lo: byte)
    ensures Htons(Word(hi, lo)) == Word(lo, hi)
  {
    Digits(Word(hi, lo), hi, lo);
  }

  lemma Digits(v: int, hi: int, lo: int)
    requires v == hi * 0x100 + lo && 0 <= lo < 0x100
    ensures v / 0x100 == hi && v % 0x100 == lo
  {
  }

  /** What the header sums return for a total of `n`: never zero, and in network order. */
  function Returned(n: nat): u16 {
    if Fold(n) == 0 then ALL_ONES else Htons(Fold(n))
  }

  /** The receive test passes exactly when the one's complement sum is a zero. */
  lemma ReturnedAccepts(n: nat)
    ensures Returned(n) == ALL_ONES <==> n % 0xffff == 0
  {
    FoldMeaning(n);
  }

  /** A 16-bit value as the target keeps it in memory. */
  function Stored16(s: seq<byte>, k: nat, v: u16): (r: seq<byte>)
    requires k + 1 < |s|
    ensures |r| == |s|
  {
    s[k := v % 0x100][k + 1 := v / 0x100]
  }

  function Complement(v: u16): u16 {
    ALL_ONES - v
  }

  /** The value stored in a UDP header: zero would mean that there is no checksum. */
  function NonZero(v: u16): u16 {
    if v == 0 then ALL_ONES else v
  }

  lemma ComplementSwapped(sum: u16)
    ensures Htons(Complement(Htons(sum))) == Complement(sum)
    ensures Complement(Htons(sum)) == 0 <==> sum == ALL_ONES
  {
    var hi: byte, lo: byte := sum / 0x100, sum % 0x100;
    assert sum == Word(hi, lo);
    HtonsOf(hi, lo);
    HtonsOf(0xff - lo, 0xff - hi);
    hide Htons;
  }

  /**
   Wherever an aligned field sits: with the complement of the sum over the zeroed
   field stored in it, the data pass the receive test, and so with UDP's rule.
   */
  lemma SealedPasses(s: seq<byte>, k: nat)
    requires k % 2 == 0 && k + 1 < |s| && s[k] == 0 && s[k + 1] == 0
    ensures var v := Complement(Returned(WordSum(s)));
      && Returned(WordSum(Stored16(s, k, v))) == ALL_ONES
      && Returned(WordSum(Stored16(s, k, NonZero(v)))) == ALL_ONES
  {
    hide Fold, WordSum, Returned, Complement, NonZero;
    var n := WordSum(s);
    var v := Complement(Returned(n));
    StoredSum(s, k, v);
    StoredSum(s, k, NonZero(v));
    ComplementCancels(n);
    ReturnedAccepts(WordSum(Stored16(s, k, v)));
    ReturnedAccepts(WordSum(Stored16(s, k, NonZero(v))));
  }

  /** A value stored in a zeroed field adds its swapped self. */
  lemma StoredSum(s: seq<byte>, k: nat, v: u16)
    requires k % 2 == 0 && k + 1 < |s| && s[k] == 0 && s[k + 1] == 0
    ensures WordSum(Stored16(s, k, v)) == WordSum(s) + Htons(v) as int
  {
    hide WordSum;
    WordSumUpdate(s, k, v % 0x100, v / 0x100);
  }

  /** The stored word makes up what the sum lacks to a multiple of 65535. */
  lemma ComplementCancels(n: nat)
    ensures var v := Complement(Returned(n));
      (n + Htons(v) as int) % 0xffff == 0 && (n + Htons(NonZero(v)) as int) % 0xffff == 0
  {
    FoldMeaning(n);
    hide Fold;
    ComplementSwapped(Fold(n));
    hide Htons;
    MakesUp(n, Fold(n));
    HtonsOf(0, 0);
    HtonsOf(0xff, 0xff);
  }

  lemma MakesUp(n: nat, sum: u16)
    requires sum as int % 0xffff == n % 0xffff
    ensures (n + 0xffff - sum as int) % 0xffff == 0
    ensures n == 0 ==> (n + 0xffff) % 0xffff == 0
    ensures sum == ALL_ONES ==> (n + 0xffff) % 0xffff == 0
  {
  }

  method StoreWord(buf: array<byte>, k: nat, v: u16)
    requires k + 1 < buf.Length
    modifies buf
    ensures buf[..] == Stored16(old(buf[..]), k, v)
  {
    buf[k] := v % 0x100;
    buf[k + 1] := v / 0x100;
  }

  function IpHeader(b: seq<byte>): seq<byte>
    requires |b| >= LLH_LEN + IPH_LEN
  {
    b[LLH_LEN..LLH_LEN + IPH_LEN]
  }

  method IpChksum(buf: array<byte>) returns (r: u16)
    requires buf.Length >= LLH_LEN + IPH_LEN
    ensures r == Returned(WordSum(IpHeader(buf[..])))
  {
    var sum := Chksum(0, buf, LLH_LEN, IPH_LEN);
    assert buf[LLH_LEN..LLH_LEN + IPH_LEN] == IpHeader(buf[..]);
    r := if sum == 0 then ALL_ONES else Htons(sum);
  }

  const IP_FIELD: nat := 24
  const TCP_FIELD: nat := 50
  const UDP_FIELD: nat := 40

  /** Leaves an IP header that passes the receive test, and every other byte as it was. */
  method FinishIp(buf: array<byte>)
    requires buf.Length >= LLH_LEN + IPH_LEN
    modifies buf
    ensures Returned(WordSum(IpHeader(buf[..]))) == ALL_ONES
    ensures buf[..IP_FIELD] == old(buf[..IP_FIELD]) && buf[IP_FIELD + 2..] == old(buf[IP_FIELD + 2..])
  {
    hide Returned, WordSum, Complement;
    StoreWord(buf, IP_FIELD, 0);
    ghost var zeroed := buf[..];
    var sum := IpChksum(buf);
    StoreWord(buf, IP_FIELD, Complement(sum));
    SealedPasses(IpHeader(zeroed), IP_FIELD - LLH_LEN);
    assert IpHeader(buf[..]) == Stored16(IpHeader(zeroed), IP_FIELD - LLH_LEN, Complement(sum));
  }

  // ----- TCP and UDP: pseudo header, header in RAM, payload on the chip

  const HEADER: nat := 34
  const MAX_HEADER: nat := 94

  /** The length behind the IP header, in 16 bits. */
  function UpperLen(b: seq<byte>): u16
    requires |b| >= MAX_HEADER
  {
    Upper16(Word(b[16], b[17]))
  }

  function Upper16(len: u16): u16 {
    (len as int - IPH_LEN) % 0x1_0000
  }

  /** How much of the segment is in RAM. */
  function MemLen(b: seq<byte>, proto: byte): (n: nat)
    requires |b| >= MAX_HEADER
    ensures n % 2 == 0 && n <= 60
  {
    if proto == PROTO_UDP then UDPH_LEN else b[46] as int / 0x10 * 4
  }

  /** Addresses, protocol and length, as section 3.1 of RFC 793 lists them. */
  function PseudoHeader(b: seq<byte>, proto: byte): (s: seq<byte>)
    requires |b| >= MAX_HEADER
    ensures |s| == 12
  {
    b[26..34] + [0, proto] + [UpperLen(b) / 0x100, UpperLen(b) % 0x100]
  }

  /** The segment itself: header from RAM, the rest from the packet on the chip, as far as that goes. */
  function SegmentBytes(b: seq<byte>, device: seq<byte>, base: nat, proto: byte): (s: seq<byte>)
    requires |b| >= MAX_HEADER && ReadsOn(b, |device|, base, proto)
    ensures MemLen(b, proto) <= UpperLen(b) && base + UpperLen(b) <= |device| ==> |s| == UpperLen(b)
  {
    var n := MemLen(b, proto);
    b[HEADER..HEADER + n] + if n < UpperLen(b) then device[base + n..Min(base + UpperLen(b), |device|)] else []
  }

  /** Whatever is summed on the chip begins before the packet's end. */
  predicate ReadsOn(b: seq<byte>, size: nat, base: nat, proto: byte)
    requires |b| >= MAX_HEADER
  {
    MemLen(b, proto) < UpperLen(b) ==> base + MemLen(b, proto) < size
  }

  /** All the bytes the checksum covers. */
  function Covered(b: seq<byte>, device: seq<byte>, base: nat, proto: byte): seq<byte>
    requires |b| >= MAX_HEADER && ReadsOn(b, |device|, base, proto)
  {
    PseudoHeader(b, proto) + SegmentBytes(b, device, base, proto)
  }

  ghost predicate Packet(buf: array<byte>, mem: array<byte>, packet: MemBlock, base: nat, proto: byte)
    reads buf
  {
    && buf.Length >= MAX_HEADER && packet.begin + packet.size <= mem.Length && packet.size < 0x1_0000
    && ReadsOn(buf[..], packet.size, base, proto)
  }

  /** The carry the first sum, of length and protocol, loses; there is none unless the length has wrapped around. */
  function LostCarry(b: seq<byte>, proto: byte): (n: nat)
    requires |b| >= MAX_HEADER
    ensures Word(b[16], b[17]) >= IPH_LEN && proto <= PROTO_UDP ==> n == 0
  {
    if UpperLen(b) + proto < 0x1_0000 then 0 else 0x1_0000
  }

  /** The split sum is the sum over all the bytes in one pass. */
  lemma SplitSum(b: seq<byte>, device: seq<byte>, base: nat, proto: byte)
    requires |b| >= MAX_HEADER && ReadsOn(b, |device|, base, proto)
    ensures var n := MemLen(b, proto);
      WordSum(Covered(b, device, base, proto)) ==
        UpperLen(b) as int + proto as int + WordSum(b[26..34]) + WordSum(b[HEADER..HEADER + n])
        + if n < UpperLen(b) then WordSum(device[base + n..Min(base + UpperLen(b), |device|)]) else 0
  {
    hide UpperLen, MemLen;
    var n, len := MemLen(b, proto), UpperLen(b);
    var tail: seq<byte> := [0, proto] + [len / 0x100, len % 0x100];
    var rest := if n < len then device[base + n..Min(base + len, |device|)] else [];
    assert PseudoHeader(b, proto) == b[26..34] + tail;
    WordSumSplit(b[26..34], tail);
    PseudoTail(len, proto);
    WordSumSplit(PseudoHeader(b, proto), SegmentBytes(b, device, base, proto));
    WordSumSplit(b[HEADER..HEADER + n], rest);
  }

  lemma PseudoTail(len: u16, proto: byte)
    ensures WordSum([0, proto] + [len / 0x100, len % 0x100]) == len as int + proto as int
  {
    WordSumSplit([0, proto], [len / 0x100, len % 0x100]);
    assert [0, proto][2..] == [] && [len / 0x100, len % 0x100][2..] == [];
  }

  /** The sum of the covered bytes, without the carry that the code loses. */
  function CoveredSum(b: seq<byte>, device: seq<byte>, base: nat, proto: byte): nat
    requires |b| >= MAX_HEADER && ReadsOn(b, |device|, base, proto)
  {
    SplitSum(b, device, base, proto);
    WordSum(Covered(b, device, base, proto)) - LostCarry(b, proto)
  }

  /** The parts of the sum that are in RAM: the first word, the addresses and the segment's header. */
  method HeaderChksum(buf: array<byte>, start: u16, memlen: nat) returns (sum: u16)
    requires buf.Length >= MAX_HEADER && memlen <= 60
    ensures sum == Fold(start as int + WordSum(buf[..][26..34]) + WordSum(buf[..][HEADER..HEADER + memlen]))
  {
    hide Fold, WordSum;
    FoldSmall(start);
    sum := Chksum(start, buf, 26, 8);
    assert buf[26..34] == buf[..][26..34];
    sum := Chksum(sum, buf, HEADER, memlen);
    assert buf[HEADER..HEADER + memlen] == buf[..][HEADER..HEADER + memlen];
    FoldTwice(start as int + WordSum(buf[..][26..34]), WordSum(buf[..][HEADER..HEADER + memlen]));
  }

  /** The part of the segment that is on the chip, as a part of the packet's bytes. */
  method PayloadChksum(start: u16, mem: array<byte>, packet: MemBlock, position: u16, len: u16) returns (sum: u16)
    requires packet.begin + packet.size <= mem.Length && packet.size < 0x1_0000 && position < packet.size && 0 < len
    ensures var device := mem[packet.begin..packet.begin + packet.size];
      sum == Fold(start as int + WordSum(device[position..Min(position as int + len as int, |device|)]))
  {
    hide Fold, WordSum;
    ghost var from, rest := packet.begin + position, Available(packet.size, position, len);
    SubSlice(mem[..], packet.begin, packet.begin + packet.size, position, rest);
    assert mem[from..from + rest] == mem[..][from..from + rest];
    assert mem[packet.begin..packet.begin + packet.size] == mem[..][packet.begin..packet.begin + packet.size];
    sum := DeviceChksum(start, mem, packet, position, len);
  }

  /**
   Pseudo header, RAM and chip memory in turn come to the one-pass checksum of section 1
   of RFC 1071, but for the carry of the first sum.
   */
  method UpperLayerChksum(buf: array<byte>, mem: array<byte>, packet: MemBlock, base: nat, proto: byte) returns (r: u16)
    requires Packet(buf, mem, packet, base, proto) && (proto == PROTO_TCP || proto == PROTO_UDP)
    ensures var device := mem[packet.begin..packet.begin + packet.size];
      r == Returned(CoveredSum(buf[..], device, base, proto))
  {
    hide Fold, WordSum, Htons, Covered, PseudoHeader, SegmentBytes, Word;
    ghost var b, device := buf[..], mem[packet.begin..packet.begin + packet.size];
    var upperLayerLen: u16 := (Word(buf[16], buf[17]) as int - IPH_LEN) % 0x1_0000;
    var upperLayerMemlen := if proto == PROTO_UDP then UDPH_LEN else buf[46] as int / 0x10 * 4;
    assert upperLayerLen == UpperLen(b) && upperLayerMemlen == MemLen(b, proto);
    var sum := HeaderChksum(buf, (upperLayerLen as int + proto as int) % 0x1_0000, upperLayerMemlen);
    ghost var n: nat :=
      (UpperLen(b) + proto) % 0x1_0000 + WordSum(b[26..34]) + WordSum(b[HEADER..HEADER + upperLayerMemlen]);
    if upperLayerMemlen < upperLayerLen {
      ghost var rest := device[base + upperLayerMemlen..Min(base + upperLayerLen, |device|)];
      sum := PayloadChksum(sum, mem, packet, base + upperLayerMemlen, upperLayerLen as int - upperLayerMemlen);
      FoldTwice(n, WordSum(rest));
      n := n + WordSum(rest);
    }
    SplitSum(b, device, base, proto);
    assert n == CoveredSum(b, device, base, proto);
    r := if sum == 0 then ALL_ONES else Htons(sum);
  }

  // ----- when the sum over a received packet ends

  /** The loop over the chip's memory for a received packet of `size` bytes whose IP header announces `len`. */
  ghost predicate ReceivedSumEnds(len: u16, memlen: u16, size: u16) {
    memlen < Upper16(len) ==>
      LoopEnds(Available(size, (HEADER + memlen) % 0x1_0000, (Upper16(len) - memlen) % 0x1_0000))
  }

  /**
   The engine has checked that the packet holds what its header announces, but not that
   it announces an IP header at all: then the length wraps around, and the loop does not
   end if the packet stops where the header in RAM does.
   */
  lemma ReceivedSumEndsExactly(len: u16, memlen: u16, size: u16)
    requires memlen <= 60 && LLH_LEN + len <= size
    ensures ReceivedSumEnds(len, memlen, size) <==> !(len < IPH_LEN && size == HEADER + memlen)
  {
    LoopEndsExactly(Available(size, HEADER + memlen, (Upper16(len) - memlen) % 0x1_0000));
  }

  /** A packet that has been let through and announces its IP header holds what is summed of it. */
  lemma ReceivedReadsOn(b: seq<byte>, size: u16, proto: byte)
    requires |b| >= MAX_HEADER && IPH_LEN <= Word(b[16], b[17]) && LLH_LEN + Word(b[16], b[17]) <= size
    ensures ReadsOn(b, size, HEADER, proto) && (proto <= PROTO_UDP ==> LostCarry(b, proto) == 0)
  {
  }

  /** A correct IP header that announces 10 bytes. */
  const RUNT_HEADER: seq<byte> :=
    [0x45, 0, 0, 10] + ([0, 0, 0, 0] + ([64, PROTO_TCP, 0x66, 0xec] + ([10, 0, 0, 1] + ([10, 0, 0, 2] + []))))

  /** A frame with that header, and 28 bytes behind it that begin like a TCP header of 28 bytes. */
  function Runt(): (frame: seq<byte>)
    ensures |frame| == 62 && frame[LLH_LEN..LLH_LEN + IPH_LEN] == RUNT_HEADER && frame[46] == 0x70
  {
    [2, 0, 0, 0, 0, 2, 2, 0, 0, 0, 0, 1, 8, 0] + RUNT_HEADER + (seq(12, _ => 0) + [0x70] + seq(15, _ => 0))
  }

  lemma FourSum(s: seq<byte>, a: byte, b: byte, c: byte, d: byte)
    ensures WordSum([a, b, c, d] + s) == Word(a, b) as int + Word(c, d) as int + WordSum(s)
  {
    var t := [a, b, c, d] + s;
    assert t[2..][2..] == s;
  }

  lemma RuntHeaderSum()
    ensures WordSum(RUNT_HEADER) == ALL_ONES as int
  {
    hide WordSum;
    var t4: seq<byte> := [10, 0, 0, 2] + [];
    var t3: seq<byte> := [10, 0, 0, 1] + t4;
    var t2: seq<byte> := [64, PROTO_TCP, 0x66, 0xec] + t3;
    FourSum([], 10, 0, 0, 2);
    FourSum(t4, 10, 0, 0, 1);
    FourSum(t3, 64, PROTO_TCP, 0x66, 0xec);
    FourSum(t2, 0, 0, 0, 0);
    FourSum([0, 0, 0, 0] + t2, 0x45, 0, 0, 10);
    WordSumZero([]);
  }

  /** The frame passes the engine's tests of the IP header, and the sum over its segment does not end. */
  lemma RuntNeverSummed(b: seq<byte>)
    requires |b| >= MAX_HEADER && Runt() <= b
    ensures Returned(WordSum(IpHeader(b))) == ALL_ONES
    ensures LLH_LEN + Word(b[16], b[17]) <= |Runt()|
    ensures !ReceivedSumEnds(Word(b[16], b[17]), MemLen(b, PROTO_TCP), |Runt()|)
  {
    hide WordSum, ReceivedSumEnds, Runt;
    RuntHeaderSum();
    assert IpHeader(b) == Runt()[LLH_LEN..LLH_LEN + IPH_LEN];
    assert b[16] == RUNT_HEADER[2] && b[17] == RUNT_HEADER[3] && b[46] == Runt()[46];
    ReceivedSumEndsExactly(10, 28, 62);
  }

  function ChecksumField(proto: byte): nat {
    if proto == PROTO_UDP then UDP_FIELD else TCP_FIELD
  }

  /** A whole segment: no longer than its packet, its header no longer than itself and with room for the checksum. */
  ghost predicate Sendable(b: seq<byte>, device: seq<byte>, base: nat, proto: byte) {
    && |b| >= MAX_HEADER && (proto == PROTO_TCP || proto == PROTO_UDP)
    && Word(b[16], b[17]) as int >= IPH_LEN && base + UpperLen(b) <= |device|
    && (proto == PROTO_TCP ==> MemLen(b, proto) >= TCPH_LEN)
  }

  /** Storing the checksum is storing it in the covered bytes. */
  lemma FieldCovered(b: seq<byte>, device: seq<byte>, base: nat, proto: byte, v: u16)
    requires Sendable(b, device, base, proto)
    ensures var f := ChecksumField(proto); var b' := Stored16(b, f, v);
      && Sendable(b', device, base, proto) && f - 21 < |Covered(b, device, base, proto)|
      && Covered(b', device, base, proto) == Stored16(Covered(b, device, base, proto), f - 22, v)
  {
    hide WordSum;
    var f, n := ChecksumField(proto), MemLen(b, proto);
    var b' := Stored16(b, f, v);
    assert UpperLen(b') == UpperLen(b) && MemLen(b', proto) == n;
    assert PseudoHeader(b', proto) == PseudoHeader(b, proto);
    assert b'[HEADER..HEADER + n] == Stored16(b[HEADER..HEADER + n], f - HEADER, v);
  }

  /** The segment's checksum as the receiver recomputes it, for the header `b` and the packet on the chip. */
  ghost function Received(b: seq<byte>, device: seq<byte>, base: nat, proto: byte): u16
    requires Sendable(b, device, base, proto)
  {
    Returned(WordSum(Covered(b, device, base, proto)))
  }

  lemma SegmentSealed(zeroed: seq<byte>, device: seq<byte>, base: nat, proto: byte)
    requires Sendable(zeroed, device, base, proto)
    requires zeroed[ChecksumField(proto)] == 0 && zeroed[ChecksumField(proto) + 1] == 0
    ensures var f, v := ChecksumField(proto), Complement(Received(zeroed, device, base, proto));
      && Sendable(Stored16(zeroed, f, v), device, base, proto)
      && Sendable(Stored16(zeroed, f, NonZero(v)), device, base, proto)
      && Received(Stored16(zeroed, f, v), device, base, proto) == ALL_ONES
      && Received(Stored16(zeroed, f, NonZero(v)), device, base, proto) == ALL_ONES
  {
    hide Returned, WordSum, Covered, Complement, NonZero;
    var f, v := ChecksumField(proto), Complement(Received(zeroed, device, base, proto));
    FieldCovered(zeroed, device, base, proto, v);
    FieldCovered(zeroed, device, base, proto, NonZero(v));
    ZeroCovered(zeroed, device, base, proto);
    SealedPasses(Covered(zeroed, device, base, proto), f - 22);
  }

  lemma ZeroCovered(b: seq<byte>, device: seq<byte>, base: nat, proto: byte)
    requires Sendable(b, device, base, proto)
    requires b[ChecksumField(proto)] == 0 && b[ChecksumField(proto) + 1] == 0
    ensures var c, k := Covered(b, device, base, proto), ChecksumField(proto) - 22;
      k + 1 < |c| && c[k] == 0 && c[k + 1] == 0
  {
  }

  /** Fills in the TCP or UDP checksum: the segment passes the receive test, and no other byte changes. */
  method FinishSegment(buf: array<byte>, mem: array<byte>, packet: MemBlock, base: nat, proto: byte)
    requires buf != mem && Packet(buf, mem, packet, base, proto) && (proto == PROTO_TCP || proto == PROTO_UDP)
    requires Sendable(buf[..], mem[packet.begin..packet.begin + packet.size], base, proto)
    modifies buf
    ensures Sendable(buf[..], mem[packet.begin..packet.begin + packet.size], base, proto)
    ensures Received(buf[..], mem[packet.begin..packet.begin + packet.size], base, proto) == ALL_ONES
    ensures proto == PROTO_UDP ==> buf[UDP_FIELD] != 0 || buf[UDP_FIELD + 1] != 0
    ensures var f := ChecksumField(proto); buf[..f] == old(buf[..f]) && buf[f + 2..] == old(buf[f + 2..])
  {
    hide Returned, WordSum, Complement, Covered, Sendable;
    ghost var device := mem[packet.begin..packet.begin + packet.size];
    ghost var before := buf[..];
    FieldCovered(before, device, base, proto, 0);
    var f := ChecksumField(proto);
    StoreWord(buf, f, 0);
    ghost var zeroed := buf[..];
    assert mem[packet.begin..packet.begin + packet.size] == device;
    StillPacket(before, zeroed, proto);
    SendableSum(zeroed, device, base, proto);
    var sum := UpperLayerChksum(buf, mem, packet, base, proto);
    SegmentSealed(zeroed, device, base, proto);
    var v := Complement(sum);
    if proto == PROTO_UDP {
      v := NonZero(v);
    }
    StoreWord(buf, f, v);
    assert mem[packet.begin..packet.begin + packet.size] == device;
  }

  lemma StillPacket(b: seq<byte>, b': seq<byte>, proto: byte)
    requires |b| >= MAX_HEADER && b' == Stored16(b, ChecksumField(proto), 0)
    ensures UpperLen(b') == UpperLen(b) && MemLen(b', proto) == MemLen(b, proto)
    ensures b'[ChecksumField(proto)] == 0 && b'[ChecksumField(proto) + 1] == 0
  {
  }

  lemma SendableSum(b: seq<byte>, device: seq<byte>, base: nat, proto: byte)
    requires Sendable(b, device, base, proto)
    ensures ReadsOn(b, |device|, base, proto)
    ensures CoveredSum(b, device, base, proto) == WordSum(Covered(b, device, base, proto))
  {
    hide WordSum, Covered;
  }

  // ----- the ping reply

  const ICMP_ECHO: byte := 8

  /** The checksum of the reply from that of the request, on the word as the target reads it, low byte first. */
  function EchoUpdated(v: u16): u16 {
    if v >= Htons(ALL_ONES - Word(ICMP_ECHO, 0)) then (v as int + Htons(Word(ICMP_ECHO, 0)) as int + 1) % 0x1_0000
    else (v as int + Htons(Word(ICMP_ECHO, 0)) as int) % 0x1_0000
  }

  lemma EchoValue(v: u16)
    ensures EchoUpdated(v) as int == if v >= 0xfff7 then v as int - 0xfff7 else v as int + 8
  {
    HtonsOf(0xf7, 0xff);
    HtonsOf(8, 0);
    hide Htons;
  }

  /** The swapped word goes up by 8 in one's complement. */
  lemma EchoStep(hi: byte, lo: byte)
    ensures var up, v' := Htons(Word(hi, lo)) as int + 0x800, Htons(EchoUpdated(Word(hi, lo))) as int;
      v' == up || v' == up - 0xffff
  {
    HtonsOf(hi, lo);
    EchoValue(Word(hi, lo));
    hide Htons, EchoUpdated;
    if hi == 0xff && lo >= 247 {
      HtonsOf(0, lo - 247);
    } else if lo < 248 {
      HtonsOf(hi, lo + 8);
    } else {
      HtonsOf(hi + 1, lo - 248);
    }
  }

  /** Taking 8 from the type and giving it back to the checksum is exact in one's complement (section 3 of RFC 1624). */
  lemma EchoExact(v: u16, code: byte)
    ensures (Word(0, code) as int + Htons(EchoUpdated(v)) as int) % 0xffff
        == (Word(ICMP_ECHO, code) as int + Htons(v) as int) % 0xffff
  {
    hide Htons, EchoUpdated;
    EchoStep(v / 0x100, v % 0x100);
  }

  const ICMP: nat := 34
  const SRC_IP: nat := 26
  const DST_IP: nat := 30

  /** The request turned into the reply: type and checksum of the message, and the addresses swapped. */
  ghost function Reply(b: seq<byte>, host: seq<byte>): (r: seq<byte>)
    requires |b| >= ICMP + 4 && |host| == 4
    ensures |r| == |b|
  {
    var v := Word(b[37], b[36]);
    b[..SRC_IP] + host + b[SRC_IP..DST_IP] + [0, b[35]] + [EchoUpdated(v) % 0x100, EchoUpdated(v) / 0x100] + b[38..]
  }

  /**
   Whatever the message: its sum stays what it was mod 65535, with the rest of it in
   RAM or on the chip. The header's sum stays the same if the request was for this host.
   */
  lemma ReplyKeepsSums(b: seq<byte>, host: seq<byte>, rest: seq<byte>)
    requires |b| >= ICMP + 4 && |host| == 4 && b[ICMP] == ICMP_ECHO
    ensures WordSum(Reply(b, host)[ICMP..] + rest) % 0xffff == WordSum(b[ICMP..] + rest) % 0xffff
    ensures host == b[DST_IP..ICMP] ==> WordSum(IpHeader(Reply(b, host))) == WordSum(IpHeader(b))
  {
    hide WordSum, Htons, EchoUpdated;
    var r, v := Reply(b, host), Word(b[37], b[36]);
    MessageSum(b, rest);
    MessageSum(r, rest);
    assert b[38..] == r[38..];
    EchoExact(v, b[35]);
    HtonsOf(b[37], b[36]);
    assert r[36] == EchoUpdated(v) % 0x100 && r[37] == EchoUpdated(v) / 0x100;
    HtonsOf(r[37], r[36]);
    ModCancel(Word(0, b[35]) as int + Htons(EchoUpdated(v)) as int, Word(b[34], b[35]) as int + Htons(v) as int,
              WordSum(b[38..] + rest));
    if host == b[DST_IP..ICMP] { SwappedSum(b, r); }
  }

  lemma MessageSum(b: seq<byte>, rest: seq<byte>)
    requires |b| >= ICMP + 4
    ensures WordSum(b[ICMP..] + rest) == Word(b[34], b[35]) as int + Word(b[36], b[37]) as int + WordSum(b[38..] + rest)
  {
    var s := b[ICMP..] + rest;
    assert s[2..][2..] == b[38..] + rest;
  }

  lemma SwappedSum(b: seq<byte>, r: seq<byte>)
    requires |b| == |r| >= ICMP && r[..SRC_IP] == b[..SRC_IP]
    requires r[SRC_IP..DST_IP] == b[DST_IP..ICMP] && r[DST_IP..ICMP] == b[SRC_IP..DST_IP]
    ensures WordSum(IpHeader(r)) == WordSum(IpHeader(b))
  {
    HeaderSum(b);
    HeaderSum(r);
    assert r[LLH_LEN..SRC_IP] == r[..SRC_IP][LLH_LEN..] == b[LLH_LEN..SRC_IP];
  }

  lemma HeaderSum(b: seq<byte>)
    requires |b| >= ICMP
    ensures WordSum(IpHeader(b)) == WordSum(b[LLH_LEN..SRC_IP]) + WordSum(b[SRC_IP..DST_IP]) + WordSum(b[DST_IP..ICMP])
  {
    WordSumSplit(b[LLH_LEN..SRC_IP], b[SRC_IP..DST_IP]);
    WordSumSplit(b[LLH_LEN..SRC_IP] + b[SRC_IP..DST_IP], b[DST_IP..ICMP]);
    assert IpHeader(b) == b[LLH_LEN..SRC_IP] + b[SRC_IP..DST_IP] + b[DST_IP..ICMP];
  }

  method CopyAddress(buf: array<byte>, to: nat, address: seq<byte>)
    requires to + 4 <= buf.Length && |address| == 4
    modifies buf
    ensures buf[..] == Stored(old(buf[..]), to, address)
  {
    buf[to], buf[to + 1], buf[to + 2], buf[to + 3] := address[0], address[1], address[2], address[3];
  }

  lemma ReplySteps(b: seq<byte>, host: seq<byte>)
    requires |b| >= ICMP + 4 && |host| == 4
    ensures var typed := Stored16(b[ICMP := 0], 36, EchoUpdated(Word(b[37], b[36])));
      Stored(Stored(typed, DST_IP, typed[SRC_IP..DST_IP]), SRC_IP, host) == Reply(b, host)
  {
    hide EchoUpdated;
  }

  /** An echo request becomes its reply in place; anything else is dropped. */
  method EchoReply(buf: array<byte>, host: seq<byte>) returns (sent: bool)
    requires buf.Length >= ICMP + 4 && |host| == 4
    modifies buf
    ensures sent == (old(buf[ICMP]) == ICMP_ECHO)
    ensures buf[..] == if sent then Reply(old(buf[..]), host) else old(buf[..])
  {
    hide EchoUpdated, Reply, Stored, Stored16;
    if buf[ICMP] != ICMP_ECHO {
      return false;
    }
    ghost var b := buf[..];
    var v := Word(buf[37], buf[36]);
    buf[ICMP] := 0;
    assert buf[..] == b[ICMP := 0];
    StoreWord(buf, 36, EchoUpdated(v));
    ghost var typed := buf[..];
    CopyAddress(buf, DST_IP, buf[SRC_IP..DST_IP]);
    CopyAddress(buf, SRC_IP, host);
    ReplySteps(b, host);
    sent := true;
  }

  lemma ModCancel(a: nat, b: nat, c: nat)
    requires a % 0xffff == b % 0xffff
    ensures (a + c) % 0xffff == (b + c) % 0xffff
  {
  }
}
