/** A cursor over a byte slice that never over-reads: `Reader` of the envelope, `Input` of the worker wire. */
module Cursor {
  import opened Bytes
  import opened Results
  import Codec
  import CompactSize

  function ParseCompact(s: seq<byte>): (r: Option<(u64, seq<byte>)>) {
    var head := CompactSize.Parse(s);
    if head.Err? then None else Some((head.value.0, s[head.value.1..]))
  }

  /** The length field of a vector, `len() as u64`. */
  function Length(n: nat): (s: seq<byte>)
    ensures 1 <= |s| <= 9
  {
    CompactSize.Encode(n % U64_LIMIT)
  }

  lemma ParseOfLength(n: nat, rest: seq<byte>)
    requires n < U64_LIMIT
    ensures ParseCompact(Length(n) + rest) == Some((n, rest))
  {
    hide CompactSize.Parse, CompactSize.Encode;
    CompactSize.ParseEncode(n, rest);
    Codec.TakeOfPut(Length(n), rest);
  }

  lemma LengthOfParse(s: seq<byte>)
    requires ParseCompact(s).Some?
    ensures var (n, rest) := ParseCompact(s).value; s == Length(n) + rest
  {
    hide CompactSize.Parse, CompactSize.Encode;
    CompactSize.EncodeParse(s);
    var (n, length) := CompactSize.Parse(s).value;
    assert s == s[..length] + s[length..];
  }

  class ByteCursor {
    const bytes: seq<byte>
    var offset: nat

    ghost predicate Valid()
      reads this
    {
      offset <= |bytes|
    }

    ghost function Rest(): (s: seq<byte>)
      requires Valid()
      reads this
    {
      bytes[offset..]
    }

    constructor (bytes: seq<byte>)
      ensures Valid() && Rest() == bytes
    {
      this.bytes := bytes;
      offset := 0;
    }

    method Take(count: nat) returns (r: Option<seq<byte>>)
      requires Valid()
      modifies this
      ensures Valid()
      ensures r.None? <==> Codec.Take(old(Rest()), count).None?
      ensures r.Some? ==> Codec.Take(old(Rest()), count) == Some((r.value, Rest()))
    {
      if offset + count > |bytes| {
        return None;
      }
      assert Rest()[..count] == bytes[offset..offset + count];
      assert Rest()[count..] == bytes[offset + count..];
      r := Some(bytes[offset..offset + count]);
      offset := offset + count;
    }

    method TakeInt(width: nat) returns (r: Option<nat>)
      requires Valid()
      modifies this
      ensures Valid()
      ensures r.None? <==> Codec.ParseInt(old(Rest()), width).None?
      ensures r.Some? ==> Codec.ParseInt(old(Rest()), width) == Some((r.value, Rest()))
    {
      var raw := Take(width);
      if raw.None? {
        return None;
      }
      return Some(FromLE(raw.value));
    }

    method TakeU64() returns (r: Option<u64>)
      requires Valid()
      modifies this
      ensures Valid()
      ensures r.None? <==> Codec.ParseU64(old(Rest())).None?
      ensures r.Some? ==> Codec.ParseU64(old(Rest())) == Some((r.value, Rest()))
    {
      Pow256Values();
      r := TakeInt(8);
    }

    /** A canonical CompactSize. */
    method TakeCompact() returns (r: Option<u64>)
      requires Valid()
      modifies this
      ensures Valid()
      ensures r.None? <==> ParseCompact(old(Rest())).None?
      ensures r.Some? ==> ParseCompact(old(Rest())) == Some((r.value, Rest()))
    {
      hide FromLE, Pow256;
      Pow256Values();
      ghost var start := Rest();
      var first := Take(1);
      if first.None? {
        return None;
      }
      var tag := first.value[0];
      assert start[0] == tag;
      if tag < 0xfd {
        return Some(tag);
      }
      var width := if tag == 0xfd then 2 else if tag == 0xfe then 4 else 8;
      var minimum := if tag == 0xfd then 0xfd else if tag == 0xfe then 0x1_0000 else 0x1_0000_0000;
      assert |Rest()| >= width ==> Rest()[..width] == start[1..1 + width];
      assert |Rest()| >= width ==> Rest()[width..] == start[1 + width..];
      var value := TakeInt(width);
      if value.None? || value.value < minimum {
        return None;
      }
      return value;
    }

    /** `count` eight-byte coefficients, taken as one slice and split into chunks. */
    method TakeCoefficients(count: nat) returns (r: Option<seq<u64>>)
      requires Valid()
      modifies this
      ensures Valid()
      ensures r.None? <==> Codec.ParseMany(old(Rest()), count, Codec.ParseU64).None?
      ensures r.Some? ==> Codec.ParseMany(old(Rest()), count, Codec.ParseU64) == Some((r.value, Rest()))
    {
      ParseCoefficients(Rest(), count);
      var raw := Take(8 * count);
      if raw.None? {
        return None;
      }
      var values := SplitCoefficients(raw.value, count);
      assert Coefficients(raw.value, count) == Coefficients(old(Rest()), count) by {
        hide FromLE;
        forall i: nat | i < count
          ensures old(Rest())[8 * i..8 * i + 8] == raw.value[8 * i..8 * i + 8]
        {
        }
      }
      return Some(values);
    }
  }

  /** The little-endian integers of the first `count` eight-byte chunks. */
  function Coefficients(raw: seq<byte>, count: nat): (r: seq<u64>)
    requires 8 * count <= |raw|
    ensures |r| == count
    ensures forall i :: 0 <= i < count ==> r[i] == FromLE(raw[8 * i..8 * i + 8])
  {
    Pow256Values();
    seq(count, i requires 0 <= i < count => Coefficient(raw, i))
  }

  function Coefficient(raw: seq<byte>, i: nat): (v: u64)
    requires 8 * i + 8 <= |raw|
  {
    Pow256Values();
    FromLE(raw[8 * i..8 * i + 8])
  }

  method SplitCoefficients(raw: seq<byte>, count: nat) returns (values: seq<u64>)
    requires 8 * count == |raw|
    ensures values == Coefficients(raw, count)
  {
    values := [];
    for i := 0 to count
      invariant |values| == i
      invariant forall k :: 0 <= k < i ==> values[k] == Coefficient(raw, k)
    {
      values := values + [Coefficient(raw, i)];
    }
  }

  /** Chunking one slice is parsing coefficient by coefficient. */
  lemma {:induction false} ParseCoefficients(s: seq<byte>, count: nat)
    ensures Codec.ParseMany(s, count, Codec.ParseU64) ==
      if 8 * count <= |s| then Some((Coefficients(s, count), s[8 * count..])) else None
    decreases count
  {
    hide FromLE, Pow256;
    if count > 0 && |s| >= 8 {
      ParseCoefficients(s[8..], count - 1);
      if 8 * count <= |s| {
        assert s[8..][8 * (count - 1)..] == s[8 * count..];
        var all, tail := Coefficients(s, count), Coefficients(s[8..], count - 1);
        forall i | 0 <= i < count - 1
          ensures tail[i] == all[i + 1]
        {
          assert s[8..][8 * i..8 * i + 8] == s[8 * (i + 1)..8 * (i + 1) + 8];
        }
        assert s[8 * 0..8 * 0 + 8] == s[..8];
        assert Coefficients(s, count) == [FromLE(s[..8])] + Coefficients(s[8..], count - 1);
      }
    }
  }

  ghost function Prepend<T>(xs: seq<T>, tail: Option<(seq<T>, seq<byte>)>): Option<(seq<T>, seq<byte>)> {
    if tail.None? then None else Some((xs + tail.value.0, tail.value.1))
  }

  lemma PrependStep<T>(xs: seq<T>, x: T, tail: Option<(seq<T>, seq<byte>)>)
    ensures Prepend(xs, Prepend([x], tail)) == Prepend(xs + [x], tail)
  {
    if tail.Some? {
      assert xs + ([x] + tail.value.0) == xs + [x] + tail.value.0;
    }
  }

  lemma PrependNothing<T>(tail: Option<(seq<T>, seq<byte>)>)
    ensures Prepend([], tail) == tail
  {
    if tail.Some? {
      assert [] + tail.value.0 == tail.value.0;
    }
  }

  lemma ParseNone<T>(s: seq<byte>, parse: Codec.Parser<T>)
    ensures Codec.ParseMany(s, 0, parse) == Some(([], s))
  {
  }

  lemma ParseManyStep<T>(s: seq<byte>, count: nat, parse: Codec.Parser<T>)
    requires count > 0
    ensures Codec.ParseMany(s, count, parse) ==
      if parse(s).None? then None
      else Prepend([parse(s).value.0], Codec.ParseMany(parse(s).value.1, count - 1, parse))
  {
  }
}
