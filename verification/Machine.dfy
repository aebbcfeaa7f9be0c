/** The integer widths of the 8-bit target, with its byte order and wrap-around. */
module Machine {

  type byte = x: int | 0 <= x < 0x100
  type u16 = x: int | 0 <= x < 0x1_0000
  type u32 = x: int | 0 <= x < 0x1_0000_0000

  function Min(a: int, b: int): int {
    if a < b then a else b
  }

  datatype Option<+T> = None | Some(value: T)

  lemma SubSlice(m: seq<byte>, lo: nat, hi: nat, pos: nat, len: nat)
    requires lo <= hi <= |m| && pos + len <= hi - lo
    ensures m[lo..hi][pos..pos + len] == m[lo + pos..lo + pos + len]
  {
    var s := m[lo..hi];
    var a, b := s[pos..pos + len], m[lo + pos..lo + pos + len];
    forall i | 0 <= i < len ensures a[i] == b[i] {
      assert a[i] == s[pos + i];
    }
  }

  lemma Associative(a: seq<byte>, b: seq<byte>, c: seq<byte>)
    ensures (a + b) + c == a + (b + c)
  {
  }
}
