/** 32-bit sequence numbers: the modular value, and its addition on four bytes, high byte first. */
module Sequence {
  import opened Machine

  const MODULUS: nat := 0x1_0000_0000

  /** The sequence number of position `n` of a stream. */
  function Wrap(n: nat): u32 {
    n % MODULUS
  }

  function Add32(a: u32, n: nat): u32 {
    Wrap(a + n)
  }

  lemma AddWrap(a: nat, n: nat)
    ensures Add32(Wrap(a), n) == Wrap(a + n)
  {
  }

  lemma AddZero(n: u32)
    ensures Add32(n, 0) == n
  {
  }

  /** Within one cycle of sequence numbers, equal numbers mean equal positions. */
  lemma WrapInjective(base: nat, a: nat, b: nat)
    requires a < MODULUS && b < MODULUS && Wrap(base + a) == Wrap(base + b)
    ensures a == b
  {
  }

  function Number(a: int, b: int, c: int, d: int): int {
    a * 0x100_0000 + b * 0x1_0000 + c * 0x100 + d
  }

  /** An 8-bit sum. */
  function Sum8(a: byte, b: int): (r: byte)
    requires 0 <= b < 0x100
    ensures r == if a as int + b < 0x100 then a as int + b else a as int + b - 0x100
  {
    (a as int + b) % 0x100
  }

  ghost function Value(b: array<byte>): u32
    requires b.Length == 4
    reads b
  {
    Number(b[0], b[1], b[2], b[3])
  }

  /** A carry into byte 1, and from there into byte 0. */
  method CarryInto1(acc32: array<byte>)
    requires acc32.Length == 4
    modifies acc32
    ensures acc32[2] == old(acc32[2]) && acc32[3] == old(acc32[3])
    ensures Same(Number(acc32[0], acc32[1], 0, 0), old(Number(acc32[0], acc32[1], 0, 0)) + 0x1_0000)
  {
    acc32[1] := Sum8(acc32[1], 1);
    if acc32[1] == 0 {
      acc32[0] := Sum8(acc32[0], 1);
    }
  }

  /** A carry into byte 2, and on. */
  method CarryInto2(acc32: array<byte>)
    requires acc32.Length == 4
    modifies acc32
    ensures acc32[3] == old(acc32[3])
    ensures Same(Number(acc32[0], acc32[1], acc32[2], 0), old(Number(acc32[0], acc32[1], acc32[2], 0)) + 0x100)
  {
    acc32[2] := Sum8(acc32[2], 1);
    if acc32[2] == 0 {
      CarryInto1(acc32);
    }
  }

  /** Both byte sums, with the carry out of the high one taken on. */
  method AddBytes(op32: array<byte>, low: byte, high: byte, acc32: array<byte>)
    requires op32.Length == 4 && acc32.Length == 4 && op32 != acc32
    modifies acc32
    ensures acc32[3] == Sum8(op32[3], low)
    ensures Same(Number(acc32[0], acc32[1], acc32[2], 0), Number(op32[0], op32[1], op32[2] as int + high, 0))
  {
    acc32[3] := Sum8(op32[3], low);
    acc32[2] := Sum8(op32[2], high);
    acc32[1] := op32[1];
    acc32[0] := op32[0];
    if acc32[2] < high {
      CarryInto1(acc32);
    }
  }

  /** Adds a 16-bit number to the four bytes of `op32`, carrying by hand between 8-bit sums. */
  method UipAdd32(op32: array<byte>, op16: u16, acc32: array<byte>)
    requires op32.Length == 4 && acc32.Length == 4 && op32 != acc32
    modifies acc32
    ensures Value(acc32) == Add32(Value(op32), op16)
  {
    hide Wrap, Same, Sum8, Add32, Number;
    var low, high := op16 % 0x100, op16 / 0x100;
    ghost var o := op32[..];
    AddBytes(op32, low, high, acc32);
    ghost var mid := Number(acc32[0], acc32[1], acc32[2], 0);
    if acc32[3] < low {
      CarryInto2(acc32);
    }
    NumberParts(o[0], o[1], o[2], o[3], high);
    NumberParts(acc32[0], acc32[1], acc32[2], acc32[3], 0);
    Combine(Number(o[0], o[1], o[2], 0), o[3], low, high, mid, Number(acc32[0], acc32[1], acc32[2], 0));
    assert high as int * 0x100 + low as int == op16;
  }

  /** Equal, or short of one whole cycle. */
  ghost predicate Same(x: int, y: int) {
    x == y || x == y - MODULUS
  }

  /** The sum of the low bytes under the number made of the upper three, its carry taken on. */
  lemma Combine(upper: int, last: byte, low: byte, high: byte, mid: int, top: int)
    requires 0 <= upper && upper + last as int < MODULUS && 0 <= top <= MODULUS - 0x100
    requires Same(mid, upper + high as int * 0x100)
    requires if Sum8(last, low) < low then Same(top, mid + 0x100) else top == mid
    ensures top + Sum8(last, low) as int == Add32(upper + last as int, high as int * 0x100 + low as int)
  {
    hide Sum8;
    var total, v := upper + last as int + high as int * 0x100 + low as int, top + Sum8(last, low) as int;
    assert Sum8(last, low) < low <==> last as int + low as int >= 0x100;
    assert v == total || v == total - MODULUS;
    WrapIs(total, v);
  }

  lemma WrapIs(n: nat, v: int)
    requires 0 <= v < MODULUS && (v == n || v == n - MODULUS)
    ensures Wrap(n) == v
  {
  }

  lemma NumberParts(a: byte, b: byte, c: byte, d: byte, e: byte)
    ensures Number(a, b, c, d) == Number(a, b, c, 0) + d as int
    ensures Number(a, b, c as int + e as int, 0) == Number(a, b, c, 0) + e as int * 0x100
    ensures 0 <= Number(a, b, c, 0) <= MODULUS - 0x100
  {
  }
}
