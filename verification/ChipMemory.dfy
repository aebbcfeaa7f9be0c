/** The controller's RAM and its DMA copy. */
module ChipMemory {
  import opened Machine

  /** Memory `m` with the bytes of `data` stored from `dest` on. */
  ghost function Stored(m: seq<byte>, dest: nat, data: seq<byte>): (r: seq<byte>)
    requires dest + |data| <= |m|
    ensures |r| == |m| && r[dest..dest + |data|] == data
  {
    m[..dest] + data + m[dest + |data|..]
  }

  lemma StoredElsewhere(m: seq<byte>, dest: nat, data: seq<byte>, lo: nat, hi: nat)
    requires dest + |data| <= |m| && lo <= hi <= |m|
    requires hi <= dest || dest + |data| <= lo
    ensures Stored(m, dest, data)[lo..hi] == m[lo..hi]
  {
    assert forall i :: lo <= i < hi ==> Stored(m, dest, data)[i] == m[i];
  }

  /** Memory `m` after the `len` bytes from `src` have been copied to `dest`. */
  ghost function Moved(m: seq<byte>, dest: nat, src: nat, len: nat): (r: seq<byte>)
    requires dest + len <= |m| && src + len <= |m|
    ensures |r| == |m| && r[dest..dest + len] == m[src..src + len]
  {
    Stored(m, dest, m[src..src + len])
  }

  /**
   Copies ascending, byte by byte, from the first to the last source address,
   so it may overlap its source when moving down. The DMA end address is
   inclusive: it cannot express an empty copy, and one byte goes the slow way.
   */
  method BlockMove(mem: array<byte>, dest: u16, src: u16, len: u16)
    requires 0 < len && dest + len <= mem.Length && src + len <= mem.Length <= 0x1_0000
    requires dest <= src || src + len <= dest
    modifies mem
    ensures mem[..] == Moved(old(mem[..]), dest, src, len)
  {
    ghost var m := mem[..];
    if len == 1 {
      mem[dest] := mem[src];
    } else {
      var last: u16 := len + src - 1;
      var from: int, to: int := src, dest;
      while from <= last
        invariant src <= from <= last + 1 && to - dest == from - src
        invariant forall i :: 0 <= i < mem.Length && !(dest <= i < to) ==> mem[i] == m[i]
        invariant forall i :: dest <= i < to ==> mem[i] == m[src + (i - dest)]
      {
        mem[to] := mem[from];
        from, to := from + 1, to + 1;
      }
    }
    assert forall i :: 0 <= i < |m| ==> mem[i] == Moved(m, dest, src, len)[i];
  }
}
