/** Bytes, fixed-width little-endian integers and zero padding. */
module Bytes {
  import opened Arithmetic

  type byte = x: int | 0 <= x < 256
  type u16 = x: int | 0 <= x < 0x1_0000
  type u32 = x: int | 0 <= x < 0x1_0000_0000
  type u64 = x: int | 0 <= x < 0x1_0000_0000_0000_0000

  const U16_LIMIT := 0x1_0000
  const U32_LIMIT := 0x1_0000_0000
  const U64_LIMIT := 0x1_0000_0000_0000_0000

  function Pow256(width: nat): (p: nat)
    ensures p >= 1
  {
    if width == 0 then 1 else 256 * Pow256(width - 1)
  }

  lemma Pow256Values()
    ensures Pow256(2) == U16_LIMIT
    ensures Pow256(4) == U32_LIMIT
    ensures Pow256(8) == U64_LIMIT
  {
    assert Pow256(2) == 256 * 256;
    assert Pow256(4) == 256 * 256 * Pow256(2);
    assert Pow256(6) == 256 * 256 * Pow256(4);
    assert Pow256(8) == 256 * 256 * Pow256(6);
  }

  /** The `width` low bytes of `value`, least significant first. */
  function ToLE(value: nat, width: nat): (s: seq<byte>)
    ensures |s| == width
    decreases width
  {
    if width == 0 then [] else [value % 256] + ToLE(value / 256, width - 1)
  }

  /** Byte `i` is digit `i` of the value in base 256. */
  lemma {:induction false} DigitOfLE(value: nat, width: nat, i: nat)
    requires i < width
    ensures ToLE(value, width)[i] == value / Pow256(i) % 256
    decreases width
  {
    if i > 0 {
      DigitOfLE(value / 256, width - 1, i - 1);
      DivTwice(value, 256, Pow256(i - 1));
    }
  }

  lemma DivTwice(v: nat, a: nat, b: nat)
    requires a > 0 && b > 0
    ensures a * b > 0 && v / a / b == v / (a * b)
  {
    var q, r := v / a, v % a;
    var u, w := q / b, q % b;
    QuotientAndRest(v, a);
    QuotientAndRest(q, b);
    MulDistributes(u * b, w, a);
    MulAssociative(u, b, a);
    MulMonotone(w + 1, b, a);
    MulSuccessor(w, a);
    Commutes(a, b);
    ModUnique(v, a * b, u, w * a + r);
  }

  lemma Commutes(a: nat, b: nat)
    requires a > 0 && b > 0
    ensures a * b == b * a > 0
  {
  }

  lemma QuotientAndRest(v: nat, a: nat)
    requires a > 0
    ensures v == v / a * a + v % a && v % a < a
  {
  }

  function FromLE(s: seq<byte>): (v: nat)
    ensures v < Pow256(|s|)
  {
    if s == [] then 0 else s[0] + 256 * FromLE(s[1..])
  }

  lemma {:induction false} FromToLE(value: nat, width: nat)
    requires value < Pow256(width)
    ensures FromLE(ToLE(value, width)) == value
    decreases width
  {
    if width > 0 {
      FromToLE(value / 256, width - 1);
      assert ToLE(value, width)[1..] == ToLE(value / 256, width - 1);
    }
  }

  lemma {:induction false} ToFromLE(s: seq<byte>)
    ensures ToLE(FromLE(s), |s|) == s
  {
    if s != [] {
      ToFromLE(s[1..]);
      assert FromLE(s) % 256 == s[0] && FromLE(s) / 256 == FromLE(s[1..]);
      assert s == [s[0]] + s[1..];
    }
  }

  function Zeros(n: nat): (s: seq<byte>)
    ensures |s| == n
    ensures forall i :: 0 <= i < n ==> s[i] == 0
  {
    seq(n, _ => 0)
  }
}
