/**
 The Golomb-Rice coding of BIP 158 ("Golomb-Coded Sets", "Golomb-Rice Coding") with the parameters
 of the zcash-transparent-basic-v1 profile, and the strict decoder that mirrors it.
 Decoders here work on the unread suffix of the stream; FilterValidation walks a bit position.
 */
module GolombRice {
  import opened Results
  import opened BitStream
  import opened Arithmetic
  import opened FilterErrors

  /** Remainder width and range multiplier fixed by the profile. */
  const P: nat := 19
  const M: nat := 784_931
  /** Two to the power `P`. */
  const STEP: nat := 0x8_0000

  function Unary(quotient: nat): (s: seq<bit>)
    ensures |s| == quotient + 1
  {
    if quotient == 0 then [0] else [1] + Unary(quotient - 1)
  }

  function EncodeDelta(delta: nat): (s: seq<bit>)
    ensures |s| == delta / STEP + P + 1
  {
    Unary(delta / STEP) + Binary(delta % STEP, P)
  }

  /** `values` is nondecreasing and starts no lower than `last`. */
  predicate Ascending(last: nat, values: seq<nat>)
    decreases |values|
  {
    values == [] || (last <= values[0] && Ascending(values[0], values[1..]))
  }

  predicate Below(values: seq<nat>, range: nat) {
    forall i :: 0 <= i < |values| ==> values[i] < range
  }

  function EncodeFrom(last: nat, values: seq<nat>): (s: seq<bit>)
    requires Ascending(last, values)
    decreases |values|
  {
    if values == [] then []
    else EncodeDelta(values[0] - last) + EncodeFrom(values[0], values[1..])
  }

  /** Counts set bits up to `max`, then consumes the clear bit that ends the run. */
  function TakeUnary(s: seq<bit>, quotient: nat, max: nat): (r: Result<(nat, seq<bit>), FilterError>)
    ensures r.Ok? ==> |r.value.1| < |s|
  {
    if s == [] then Err(Truncated)
    else if s[0] == 0 then Ok((quotient, s[1..]))
    else if quotient + 1 > max then Err(LimitExceeded)
    else TakeUnary(s[1..], quotient + 1, max)
  }

  function TakeBits(s: seq<bit>, count: nat, value: nat): (r: Result<(nat, seq<bit>), FilterError>)
    ensures r.Ok? ==> |r.value.1| + count == |s|
    decreases count
  {
    if count == 0 then Ok((value, s))
    else if s == [] then Err(Truncated)
    else TakeBits(s[1..], count - 1, 2 * value + s[0])
  }

  function DecodeDelta(s: seq<bit>, range: nat): (r: Result<(nat, seq<bit>), FilterError>)
    ensures r.Ok? ==> |r.value.1| < |s|
  {
    var unary := TakeUnary(s, 0, range / STEP);
    if unary.Err? then Err(unary.error) else
    var remainder := TakeBits(unary.value.1, P, 0);
    if remainder.Err? then Err(remainder.error)
    else Ok((unary.value.0 * STEP + remainder.value.0, remainder.value.1))
  }

  /** Reads `count` cumulative values, each below `range`. */
  function DecodeFrom(s: seq<bit>, count: nat, last: nat, range: nat)
    : (r: Result<(seq<nat>, seq<bit>), FilterError>)
    decreases count
  {
    if count == 0 then Ok(([], s)) else
    var delta := DecodeDelta(s, range);
    if delta.Err? then Err(delta.error) else
    var value := last + delta.value.0;
    if value >= range then Err(Encoding) else
    var tail := DecodeFrom(delta.value.1, count - 1, value, range);
    if tail.Err? then tail else Ok(([value] + tail.value.0, tail.value.1))
  }

  lemma {:induction false} TakeUnaryOfUnary(quotient: nat, from: nat, max: nat, rest: seq<bit>)
    requires from + quotient <= max
    ensures TakeUnary(Unary(quotient) + rest, from, max) == Ok((from + quotient, rest))
    decreases quotient
  {
    var s := Unary(quotient) + rest;
    if quotient == 0 {
      assert s[1..] == rest;
    } else {
      assert s[1..] == Unary(quotient - 1) + rest;
      TakeUnaryOfUnary(quotient - 1, from + 1, max, rest);
    }
  }

  lemma {:induction false} UnaryOfTakeUnary(s: seq<bit>, from: nat, max: nat)
    requires TakeUnary(s, from, max).Ok?
    ensures var (q, rest) := TakeUnary(s, from, max).value;
      from <= q && s == Unary(q - from) + rest
  {
    if s[0] == 0 {
      assert s == [0] + s[1..];
    } else {
      UnaryOfTakeUnary(s[1..], from + 1, max);
      var (q, rest) := TakeUnary(s, from, max).value;
      assert s == [1] + (Unary(q - from - 1) + rest);
    }
  }

  lemma {:induction false} TakeBitsOfBits(b: seq<bit>, value: nat, rest: seq<bit>)
    ensures TakeBits(b + rest, |b|, value) == Ok((value * Pow2(|b|) + BinaryValue(b), rest))
  {
    if b == [] {
      assert b + rest == rest;
    } else {
      var s := b + rest;
      assert s[1..] == b[1..] + rest;
      TakeBitsOfBits(b[1..], 2 * value + b[0], rest);
      Horner(value, b[0], Pow2(|b| - 1));
    }
  }

  lemma Horner(value: nat, b: bit, p: nat)
    ensures (2 * value + b) * p == value * (2 * p) + b * p
  {
  }

  lemma Associate(a: seq<bit>, b: seq<bit>, c: seq<bit>)
    ensures (a + b) + c == a + (b + c)
  {
  }

  lemma {:induction false} TakeBitsOfBinary(value: nat, width: nat, rest: seq<bit>)
    requires value < Pow2(width)
    ensures TakeBits(Binary(value, width) + rest, width, 0) == Ok((value, rest))
  {
    TakeBitsOfBits(Binary(value, width), 0, rest);
    ValueOfBinary(value, width);
    ModUnique(value, Pow2(width), 0, value);
  }

  lemma {:induction false} DecodeDeltaOfEncode(delta: nat, range: nat, rest: seq<bit>)
    requires delta < range
    ensures DecodeDelta(EncodeDelta(delta) + rest, range) == Ok((delta, rest))
  {
    var q, b := delta / STEP, Binary(delta % STEP, P);
    Associate(Unary(q), b, rest);
    TakeUnaryOfUnary(q, 0, range / STEP, b + rest);
    Pow2Nineteen();
    TakeBitsOfBinary(delta % STEP, P, rest);
  }

  lemma {:induction false} EncodeOfDecodeDelta(s: seq<bit>, range: nat)
    requires DecodeDelta(s, range).Ok?
    ensures var (delta, rest) := DecodeDelta(s, range).value;
      s == EncodeDelta(delta) + rest
  {
    hide TakeUnary, Unary, Binary, TakeBits, BinaryValue;
    Pow2Nineteen();
    UnaryOfTakeUnary(s, 0, range / STEP);
    var (q, s1) := TakeUnary(s, 0, range / STEP).value;
    var (r, rest) := TakeBits(s1, P, 0).value;
    TakeBitsShape(s1, P);
    var b := s1[..P];
    assert s1 == b + s1[P..];
    TakeBitsOfBits(b, 0, s1[P..]);
    BinaryOfValue(b);
    ModUnique(q * STEP + r, STEP, q, r);
    assert Unary(q) + (b + rest) == (Unary(q) + b) + rest;
  }

  lemma TakeBitsShape(s: seq<bit>, count: nat)
    requires TakeBits(s, count, 0).Ok?
    ensures count <= |s|
  {
  }

  /** Decoding undoes encoding, whatever follows the values. */
  lemma {:induction false} DecodeOfEncode(last: nat, values: seq<nat>, range: nat, rest: seq<bit>)
    requires Ascending(last, values) && Below(values, range)
    ensures DecodeFrom(EncodeFrom(last, values) + rest, |values|, last, range) == Ok((values, rest))
    decreases |values|
  {
    hide DecodeDelta, EncodeDelta;
    if values == [] {
      assert EncodeFrom(last, values) + rest == rest;
    } else {
      var tail := EncodeFrom(values[0], values[1..]);
      Associate(EncodeDelta(values[0] - last), tail, rest);
      DecodeDeltaOfEncode(values[0] - last, range, tail + rest);
      DecodeOfEncode(values[0], values[1..], range, rest);
      assert [values[0]] + values[1..] == values;
    }
  }

  /** Whatever decodes is the encoding of the values it decodes to. */
  lemma {:induction false} EncodeOfDecode(s: seq<bit>, count: nat, last: nat, range: nat)
    requires DecodeFrom(s, count, last, range).Ok?
    ensures var (values, rest) := DecodeFrom(s, count, last, range).value;
      && |values| == count && Ascending(last, values) && Below(values, range)
      && s == EncodeFrom(last, values) + rest
    decreases count
  {
    hide DecodeDelta, EncodeDelta;
    if count > 0 {
      var (delta, s1) := DecodeDelta(s, range).value;
      EncodeOfDecodeDelta(s, range);
      EncodeOfDecode(s1, count - 1, last + delta, range);
      var (values, rest) := DecodeFrom(s, count, last, range).value;
      assert values[1..] == DecodeFrom(s1, count - 1, last + delta, range).value.0;
      Associate(EncodeDelta(delta), EncodeFrom(last + delta, values[1..]), rest);
    }
  }

  /** Between twenty bits a value and the quotients the range can pay for. */
  lemma {:induction false} EncodedLength(last: nat, values: seq<nat>, range: nat)
    requires Ascending(last, values) && Below(values, range) && last < range
    ensures (P + 1) * |values| <= |EncodeFrom(last, values)|
    ensures |EncodeFrom(last, values)| <= (P + 1) * |values| + (range - 1 - last) / STEP
    decreases |values|
  {
    if values != [] {
      EncodedLength(values[0], values[1..], range);
      FloorsAdd(values[0] - last, range - 1 - values[0]);
    }
  }

  lemma FloorsAdd(a: nat, b: nat)
    ensures a / STEP + b / STEP <= (a + b) / STEP
  {
  }

  // ---- repeated values ----

  /** The next field is a zero delta: a clear bit and a zero remainder. */
  predicate ZeroField(s: seq<bit>) {
    ZeroBits(P + 1) <= s
  }

  /** One of the next `count` fields is a zero delta. */
  predicate AnyZeroField(s: seq<bit>, count: nat, range: nat)
    decreases count
  {
    && count > 0
    && (ZeroField(s) || (DecodeDelta(s, range).Ok? && AnyZeroField(DecodeDelta(s, range).value.1, count - 1, range)))
  }

  predicate Strict(last: nat, values: seq<nat>)
    decreases |values|
  {
    values == [] || (last < values[0] && Strict(values[0], values[1..]))
  }

  lemma ZeroEncoding()
    ensures EncodeDelta(0) == ZeroBits(P + 1)
  {
    hide Binary, BinaryValue;
    ValueOfBinary(0, P);
    ZeroValue(Binary(0, P));
    assert Unary(0) == [0];
    assert [0] + ZeroBits(P) == ZeroBits(P + 1);
  }

  lemma ZeroFieldExactly(s: seq<bit>, range: nat)
    requires DecodeDelta(s, range).Ok? && range > 0
    ensures DecodeDelta(s, range).value.0 == 0 <==> ZeroField(s)
  {
    hide DecodeDelta, EncodeDelta;
    ZeroEncoding();
    EncodeOfDecodeDelta(s, range);
    if ZeroField(s) {
      assert s == ZeroBits(P + 1) + s[P + 1..];
      DecodeDeltaOfEncode(0, range, s[P + 1..]);
    }
  }

  /** Values decode to a strict sequence exactly when no field is a zero delta. */
  lemma {:induction false} StrictDecoding(s: seq<bit>, count: nat, last: nat, range: nat)
    requires DecodeFrom(s, count, last, range).Ok?
    ensures Strict(last, DecodeFrom(s, count, last, range).value.0) <==> !AnyZeroField(s, count, range)
    decreases count
  {
    hide DecodeDelta, ZeroField;
    if count > 0 {
      var (delta, rest) := DecodeDelta(s, range).value;
      ZeroFieldExactly(s, range);
      StrictDecoding(rest, count - 1, last + delta, range);
      var values, tail := DecodeFrom(s, count, last, range).value.0, DecodeFrom(rest, count - 1, last + delta, range).value.0;
      assert values[1..] == tail;
    }
  }

  lemma {:induction false} StrictPairs(last: nat, values: seq<nat>)
    ensures Strict(last, values)
      <==> (forall i :: 0 <= i < |values| ==> last < values[i]) && forall a, b :: 0 <= a < b < |values| ==> values[a] < values[b]
    decreases |values|
  {
    if values != [] {
      StrictPairs(values[0], values[1..]);
      var tail := values[1..];
      assert forall i :: 0 <= i < |tail| ==> tail[i] == values[i + 1];
      if (forall i :: 0 <= i < |values| ==> last < values[i]) && forall a, b :: 0 <= a < b < |values| ==> values[a] < values[b] {
        assert forall i :: 0 <= i < |tail| ==> values[0] < tail[i];
      }
      if Strict(last, values) {
        forall a, b | 0 <= a < b < |values|
          ensures values[a] < values[b]
        {
          assert values[b] == tail[b - 1];
          if a > 0 {
            assert values[a] == tail[a - 1];
          }
        }
        forall i | 0 <= i < |values|
          ensures last < values[i]
        {
          if i > 0 {
            assert values[i] == tail[i - 1];
          }
        }
      }
    }
  }

  // ---- the code in plain terms ----

  lemma {:induction false} UnaryBits(quotient: nat, i: nat)
    requires i <= quotient
    ensures Unary(quotient)[i] == if i < quotient then 1 else 0
    decreases quotient
  {
    if i > 0 {
      UnaryBits(quotient - 1, i - 1);
    }
  }

  /** A delta is its quotient by 524288 in ones, a zero, and the remainder in nineteen bits, most significant first. */
  lemma DeltaBits(delta: nat, i: nat)
    requires i < |EncodeDelta(delta)|
    ensures var q := delta / 524_288;
      && |EncodeDelta(delta)| == q + 20
      && EncodeDelta(delta)[i] == if i < q then 1 else if i == q then 0 else delta % 524_288 / Pow2(q + 19 - i) % 2
  {
    hide Unary, Binary, Pow2;
    var q := delta / 524_288;
    if i <= q {
      UnaryBits(q, i);
    } else {
      BinaryIndex(delta % 524_288, 19, i - q - 1);
    }
  }

  lemma {:induction false} AscendingPrefix(last: nat, values: seq<nat>, k: nat)
    requires Ascending(last, values) && k <= |values|
    ensures Ascending(last, values[..k])
    ensures k < |values| ==> (if k == 0 then last else values[k - 1]) <= values[k]
    decreases k
  {
    if k > 0 {
      AscendingPrefix(values[0], values[1..], k - 1);
      assert values[..k][1..] == values[1..][..k - 1] && values[..k][0] == values[0];
      if 1 < k < |values| {
        assert values[1..][k - 2] == values[k - 1];
      }
      if k < |values| {
        assert values[1..][k - 1] == values[k];
      }
    }
  }

  lemma EncodeStep(last: nat, values: seq<nat>)
    requires values != [] && Ascending(last, values)
    ensures last <= values[0] && Ascending(values[0], values[1..])
    ensures EncodeFrom(last, values) == EncodeDelta(values[0] - last) + EncodeFrom(values[0], values[1..])
  {
  }

  /** One more value adds the code of its distance from the one before. */
  lemma {:induction false} DeltasJoin(last: nat, values: seq<nat>, k: nat)
    requires Ascending(last, values) && k < |values|
    requires Ascending(last, values[..k]) && Ascending(last, values[..k + 1]) && (if k == 0 then last else values[k - 1]) <= values[k]
    ensures EncodeFrom(last, values[..k + 1]) == EncodeFrom(last, values[..k]) + EncodeDelta(values[k] - if k == 0 then last else values[k - 1])
    decreases k
  {
    hide EncodeDelta, EncodeFrom, Ascending;
    EncodeStep(last, values[..k + 1]);
    if k == 0 {
      assert values[..1][1..] == [] && values[..0] == [];
      NothingEncoded(last);
      NothingEncoded(values[0]);
    } else {
      var tail := values[1..];
      assert values[..k + 1][1..] == tail[..k] && values[..k][1..] == tail[..k - 1];
      assert tail[k - 1] == values[k] && (k > 1 ==> tail[k - 2] == values[k - 1]);
      EncodeStep(last, values);
      EncodeStep(last, values[..k]);
      DeltasJoin(values[0], tail, k - 1);
    }
  }

  lemma NothingEncoded(last: nat)
    ensures Ascending(last, []) && EncodeFrom(last, []) == []
  {
  }
}
