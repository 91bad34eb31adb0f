/** Bits most significant first, and their packing into zero-padded bytes. */
module BitStream {
  import opened Bytes
  import opened Arithmetic

  type bit = x: int | 0 <= x < 2

  function Pow2(n: nat): (p: nat)
    ensures p >= 1
  {
    if n == 0 then 1 else 2 * Pow2(n - 1)
  }

  /** The `width` low bits of `value`. */
  function Binary(value: nat, width: nat): (s: seq<bit>)
    ensures |s| == width
    decreases width
  {
    if width == 0 then [] else [value / Pow2(width - 1) % 2] + Binary(value, width - 1)
  }

  function BinaryValue(s: seq<bit>): (v: nat)
    ensures v < Pow2(|s|)
  {
    if s == [] then 0 else s[0] * Pow2(|s| - 1) + BinaryValue(s[1..])
  }

  lemma DivMod(v: nat, p: nat)
    requires p >= 1
    ensures v % (2 * p) == (v / p % 2) * p + v % p
  {
    var a, r := v / p, v % p;
    var b, c := a / 2, a % 2;
    assert v == a * p + r;
    assert a * p == (2 * b + c) * p == b * (2 * p) + c * p;
    assert v == b * (2 * p) + (c * p + r);
    assert 0 <= c * p + r < 2 * p by {
      assert c == 0 || c == 1;
    }
    ModUnique(v, 2 * p, b, c * p + r);
  }

  lemma {:induction false} ValueOfBinary(value: nat, width: nat)
    ensures BinaryValue(Binary(value, width)) == value % Pow2(width)
    decreases width
  {
    if width > 0 {
      ValueOfBinary(value, width - 1);
      DivMod(value, Pow2(width - 1));
      assert Binary(value, width)[1..] == Binary(value, width - 1);
    }
  }

  lemma {:induction false} BinaryOfValue(s: seq<bit>)
    ensures Binary(BinaryValue(s), |s|) == s
  {
    hide Pow2;
    if s != [] {
      var w, p, r := |s| - 1, Pow2(|s| - 1), BinaryValue(s[1..]);
      BinaryOfValue(s[1..]);
      ModUnique(s[0] * p + r, p, s[0], r);
      BinaryStep(s[0] * p + r, r, w);
      assert s == [s[0]] + s[1..];
    }
  }

  /** Only `value % Pow2(width)` matters, whatever sits above it. */
  lemma {:induction false} BinaryStep(value: nat, low: nat, width: nat)
    requires value % Pow2(width) == low
    ensures Binary(value, width) == Binary(low, width)
    decreases width
  {
    if width > 0 {
      var p := Pow2(width - 1);
      SameLowPart(value, low, p);
      BinaryStep(value, value % p, width - 1);
      BinaryStep(low, value % p, width - 1);
    }
  }

  lemma SameLowPart(value: nat, low: nat, p: nat)
    requires p >= 1 && value % (2 * p) == low
    ensures value / p % 2 == low / p % 2 && value % p == low % p
  {
    DivMod(value, p);
    ModUnique(low, p, value / p % 2, value % p);
  }

  lemma {:induction false} BinaryIndex(value: nat, width: nat, j: nat)
    requires j < width
    ensures Binary(value, width)[j] == value / Pow2(width - 1 - j) % 2
    decreases width
  {
    if j > 0 {
      BinaryIndex(value, width - 1, j - 1);
    }
  }

  function Bits(bytes: seq<byte>): (s: seq<bit>)
    ensures |s| == 8 * |bytes|
  {
    if bytes == [] then [] else Binary(bytes[0], 8) + Bits(bytes[1..])
  }

  lemma {:induction false} BitsIndex(bytes: seq<byte>, i: nat)
    requires i < 8 * |bytes|
    ensures Bits(bytes)[i] == bytes[i / 8] / Pow2(7 - i % 8) % 2
  {
    hide Binary, Pow2;
    if i < 8 {
      BinaryIndex(bytes[0], 8, i);
    } else {
      BitsIndex(bytes[1..], i - 8);
      assert (i - 8) / 8 == i / 8 - 1 && (i - 8) % 8 == i % 8;
    }
  }

  function ZeroBits(n: nat): (s: seq<bit>)
    ensures |s| == n
    ensures forall i :: 0 <= i < n ==> s[i] == 0
  {
    seq(n, _ => 0)
  }

  /** The bits packed into the fewest bytes, the last one completed with zeros. */
  function Pack(bits: seq<bit>): (bytes: seq<byte>)
    ensures |bytes| == (|bits| + 7) / 8
  {
    Pow2Eight();
    if bits == [] then []
    else if |bits| < 8 then [BinaryValue(bits + ZeroBits(8 - |bits|))]
    else [BinaryValue(bits[..8])] + Pack(bits[8..])
  }

  lemma Pow2Eight()
    ensures Pow2(8) == 256
  {
    assert Pow2(2) == 2 * Pow2(1) == 4 * Pow2(0);
    assert Pow2(4) == 2 * Pow2(3) == 4 * Pow2(2);
    assert Pow2(6) == 2 * Pow2(5) == 4 * Pow2(4);
    assert Pow2(8) == 2 * Pow2(7) == 4 * Pow2(6);
  }

  lemma Pow2Nineteen()
    ensures Pow2(19) == 0x8_0000
  {
    Pow2Eight();
    assert Pow2(10) == 2 * Pow2(9) == 4 * Pow2(8);
    assert Pow2(12) == 2 * Pow2(11) == 4 * Pow2(10);
    assert Pow2(14) == 2 * Pow2(13) == 4 * Pow2(12);
    assert Pow2(16) == 2 * Pow2(15) == 4 * Pow2(14);
    assert Pow2(18) == 2 * Pow2(17) == 4 * Pow2(16);
  }

  /** A byte made of eight bits unpacks to them. */
  lemma BitsOfByte(s: seq<bit>, tail: seq<byte>)
    requires |s| == 8
    ensures BinaryValue(s) < 256
    ensures Bits([BinaryValue(s)] + tail) == s + Bits(tail)
  {
    Pow2Eight();
    BinaryOfValue(s);
    assert ([BinaryValue(s)] + tail)[1..] == tail;
  }

  /** Unpacking gives the bits back, then the padding. */
  lemma {:induction false} BitsOfPack(bits: seq<bit>)
    ensures Bits(Pack(bits)) == bits + ZeroBits(8 * |Pack(bits)| - |bits|)
  {
    hide Binary, BinaryValue, Pow2;
    if bits == [] {
    } else if |bits| < 8 {
      var s := bits + ZeroBits(8 - |bits|);
      BitsOfByte(s, []);
      assert Pack(bits) == [BinaryValue(s)] + [];
    } else {
      BitsOfPack(bits[8..]);
      BitsOfByte(bits[..8], Pack(bits[8..]));
      BitsSplit(bits);
    }
  }

  lemma BitsSplit(bits: seq<bit>)
    requires |bits| >= 8
    ensures forall n: nat :: bits[..8] + (bits[8..] + ZeroBits(n)) == bits + ZeroBits(n)
  {
    assert bits == bits[..8] + bits[8..];
  }

  lemma {:induction false} PackOfBits(bytes: seq<byte>)
    ensures Pack(Bits(bytes)) == bytes
  {
    hide Binary, BinaryValue, Pow2;
    if bytes != [] {
      PackOfBits(bytes[1..]);
      Pow2Eight();
      ValueOfBinary(bytes[0], 8);
      var s := Bits(bytes);
      assert s[..8] == Binary(bytes[0], 8) && s[8..] == Bits(bytes[1..]);
    }
  }

  /** Zero bits that do not start a new byte do not change the packing. */
  lemma {:induction false} PackIgnoresPadding(bits: seq<bit>, zeros: nat)
    requires (|bits| + zeros + 7) / 8 == (|bits| + 7) / 8
    ensures Pack(bits + ZeroBits(zeros)) == Pack(bits)
  {
    var long := bits + ZeroBits(zeros);
    if |bits| >= 8 {
      PackIgnoresPadding(bits[8..], zeros);
      assert long[..8] == bits[..8] && long[8..] == bits[8..] + ZeroBits(zeros);
    } else if |long| == 8 {
      assert long[..8] == bits + ZeroBits(8 - |bits|);
      assert Pack(long[8..]) == [];
    } else if bits != [] {
      assert long + ZeroBits(8 - |long|) == bits + ZeroBits(8 - |bits|);
    }
  }

  lemma {:induction false} ZeroValue(s: seq<bit>)
    ensures BinaryValue(s) == 0 <==> s == ZeroBits(|s|)
  {
    if s != [] {
      ZeroValue(s[1..]);
      assert s == [s[0]] + s[1..];
      if s[0] == 0 {
        assert s == ZeroBits(|s|) <==> s[1..] == ZeroBits(|s| - 1) by {
          assert ZeroBits(|s|)[1..] == ZeroBits(|s| - 1);
          assert ZeroBits(|s|) == [0] + ZeroBits(|s| - 1);
        }
      } else {
        assert s[0] * Pow2(|s| - 1) == Pow2(|s| - 1);
        assert s[0] != ZeroBits(|s|)[0];
      }
    }
  }

  /** The masked low bits of a byte are zero exactly when the stream is zero there. */
  lemma LowBitsZero(b: byte, used: nat)
    requires used < 8
    ensures b % Pow2(8 - used) == 0 <==> Binary(b, 8)[used..] == ZeroBits(8 - used)
  {
    hide Binary, Pow2;
    forall j | 0 <= j < 8 - used
      ensures Binary(b, 8)[used..][j] == Binary(b, 8 - used)[j]
    {
      BinaryIndex(b, 8, used + j);
      BinaryIndex(b, 8 - used, j);
    }
    assert Binary(b, 8)[used..] == Binary(b, 8 - used);
    ValueOfBinary(b, 8 - used);
    ZeroValue(Binary(b, 8 - used));
  }
}
