/** Strict validation of one serialized filter. */
module FilterValidation {
  import opened Results
  import opened Bytes
  import opened BitStream
  import opened FilterErrors
  import opened GolombRice
  import CompactSize

  datatype FilterLimits = FilterLimits(maxBytes: nat, maxElements: nat)

  /** What a filter may hold: nondecreasing values below `n * M`, a range that fits 64 bits. */
  predicate EncodableValues(values: seq<nat>) {
    && |values| * M < U64_LIMIT
    && Ascending(0, values)
    && Below(values, |values| * M)
  }

  /** The serialized filter of BIP 158: count, coded deltas, zero padding to a byte. */
  function EncodeFilter(values: seq<nat>): (bytes: seq<byte>)
    requires EncodableValues(values)
  {
    CompactSize.Encode(|values|) + Pack(EncodeFrom(0, values))
  }

  predicate WithinLimits(bytes: seq<byte>, values: seq<nat>, limits: FilterLimits) {
    |bytes| <= limits.maxBytes && |values| <= limits.maxElements
  }

  /** The decoded values, or why the bytes are refused. */
  function Validate(bytes: seq<byte>, limits: FilterLimits): (r: Result<seq<nat>, FilterError>) {
    if |bytes| > limits.maxBytes then Err(LimitExceeded) else
    var header := CompactSize.Parse(bytes);
    if header.Err? then Err(header.error) else
    var (count, headerLength) := header.value;
    if count > limits.maxElements then Err(LimitExceeded) else
    var body := bytes[headerLength..];
    if count * (P + 1) >= U64_LIMIT then Err(LimitExceeded)
    else if count * (P + 1) > 8 * |body| then Err(Truncated)
    else if count == 0 then
      if body != [] then Err(TrailingBytes) else Ok([])
    else if count * M >= U64_LIMIT then Err(LimitExceeded)
    else ValidateBody(body, count)
  }

  function ValidateBody(body: seq<byte>, count: nat): (r: Result<seq<nat>, FilterError>) {
    var decoded := DecodeFrom(Bits(body), count, 0, count * M);
    if decoded.Err? then Err(decoded.error) else
    var (values, rest) := decoded.value;
    if PaddingOf(rest) != ZeroBits(|rest| % 8) then Err(NonZeroPadding)
    else if |rest| >= 8 then Err(TrailingBytes)
    else Ok(values)
  }

  /** The unread bits of the byte the reader stopped in. */
  function PaddingOf(rest: seq<bit>): (s: seq<bit>)
    ensures |s| == |rest| % 8
  {
    rest[..|rest| % 8]
  }

  /**
   Every encodable value sequence within the limits is accepted and comes back unchanged;
   in particular the early count checks refuse no real filter.
   */
  lemma ValidateOfEncode(values: seq<nat>, limits: FilterLimits)
    requires EncodableValues(values) && WithinLimits(EncodeFilter(values), values, limits)
    ensures Validate(EncodeFilter(values), limits) == Ok(values)
  {
    hide DecodeFrom, EncodeFrom, Bits, Pack, CompactSize.Parse, CompactSize.Encode, Ascending;
    var bytes, stream := EncodeFilter(values), EncodeFrom(0, values);
    CompactSize.ParseEncode(|values|, Pack(stream));
    var body := Pack(stream);
    assert bytes[|CompactSize.Encode(|values|)|..] == body;
    if values == [] {
      EmptyStream(values);
    } else {
      EncodedLength(0, values, |values| * M);
      BitsOfPack(stream);
      DecodeOfEncode(0, values, |values| * M, ZeroBits(8 * |body| - |stream|));
      assert ValidateBody(body, |values|) == Ok(values);
    }
  }

  lemma EmptyStream(values: seq<nat>)
    requires values == []
    ensures Ascending(0, values) && EncodeFrom(0, values) == [] && Pack(EncodeFrom(0, values)) == []
  {
  }

  /** Accepted bytes are exactly the encoding of the values they decode to. */
  lemma EncodeOfValidate(bytes: seq<byte>, limits: FilterLimits, values: seq<nat>)
    requires Validate(bytes, limits) == Ok(values)
    ensures EncodableValues(values)
    ensures WithinLimits(bytes, values, limits)
    ensures EncodeFilter(values) == bytes
  {
    hide DecodeFrom, EncodeFrom, Bits, Pack, CompactSize.Parse, CompactSize.Encode, Ascending;
    CompactSize.EncodeParse(bytes);
    var (count, headerLength) := CompactSize.Parse(bytes).value;
    var body := bytes[headerLength..];
    assert bytes == bytes[..headerLength] + body;
    if count == 0 {
      EmptyStream([]);
    } else {
      BodyIsPacked(body, count);
    }
  }

  lemma BodyIsPacked(body: seq<byte>, count: nat)
    requires ValidateBody(body, count).Ok?
    ensures var values := ValidateBody(body, count).value;
      && |values| == count && Ascending(0, values) && Below(values, count * M)
      && Pack(EncodeFrom(0, values)) == body
  {
    hide DecodeFrom, EncodeFrom, Bits, Pack, Ascending;
    EncodeOfDecode(Bits(body), count, 0, count * M);
    var (values, rest) := DecodeFrom(Bits(body), count, 0, count * M).value;
    var stream := EncodeFrom(0, values);
    assert PaddingOf(rest) == rest;
    PackOfBits(body);
    PackIgnoresPadding(stream, |rest|);
  }

  /**
   An accepted filter of `n > 0` elements consumes between 20n and
   20n + (n * M - 1) / 2^19 bits, and its body is that many bits rounded up to bytes.
   */
  lemma AcceptedLength(bytes: seq<byte>, limits: FilterLimits, values: seq<nat>)
    requires Validate(bytes, limits) == Ok(values) && values != []
    ensures EncodableValues(values)
    ensures var n, used := |values|, |EncodeFrom(0, values)|;
      && 20 * n <= used <= 20 * n + (n * M - 1) / STEP
      && |bytes| == |CompactSize.Encode(n)| + (used + 7) / 8
  {
    hide EncodeFrom, Pack, CompactSize.Parse, CompactSize.Encode, Ascending, Validate;
    EncodeOfValidate(bytes, limits, values);
    EncodedLength(0, values, |values| * M);
  }

  /** A filter is the compact count of its values, their code packed into the fewest bytes, and zero bits. */
  lemma FilterLayout(values: seq<nat>)
    requires EncodableValues(values)
    ensures var bytes, head, code := EncodeFilter(values), CompactSize.Encode(|values|), EncodeFrom(0, values);
      && head <= bytes && |bytes| - |head| == (|code| + 7) / 8
      && var stream := Bits(bytes[|head|..]);
      code <= stream && forall j :: |code| <= j < |stream| ==> stream[j] == 0
  {
    hide EncodeFrom, CompactSize.Encode, Bits, Pack;
    var head, code := CompactSize.Encode(|values|), EncodeFrom(0, values);
    assert EncodeFilter(values)[|head|..] == Pack(code);
    PackPadded(code);
  }

  lemma PackPadded(code: seq<BitStream.bit>)
    ensures code <= Bits(Pack(code)) && forall j :: |code| <= j < |Bits(Pack(code))| ==> Bits(Pack(code))[j] == 0
  {
    hide Bits, Pack;
    BitsOfPack(code);
    var stream := Bits(Pack(code));
    assert stream[..|code|] == code && stream[|code|..] == BitStream.ZeroBits(|stream| - |code|);
  }

  /** Bytes and element counts over the limits are refused as such, before anything is decoded. */
  lemma LimitsFirst(bytes: seq<byte>, limits: FilterLimits)
    ensures |bytes| > limits.maxBytes ==> Validate(bytes, limits) == Err(LimitExceeded)
    ensures Validate(bytes, limits).Ok? ==> |bytes| <= limits.maxBytes && |Validate(bytes, limits).value| <= limits.maxElements
    ensures |bytes| <= limits.maxBytes && CompactSize.Parse(bytes).Ok? && CompactSize.Parse(bytes).value.0 > limits.maxElements
      ==> Validate(bytes, limits) == Err(LimitExceeded)
  {
    hide CompactSize.Parse;
    if Validate(bytes, limits).Ok? {
      EncodeOfValidate(bytes, limits, Validate(bytes, limits).value);
    }
  }

  predicate StrictlyAscending(values: seq<nat>) {
    forall a, b :: 0 <= a < b < |values| ==> values[a] < values[b]
  }

  /** Some element after the first is stored as a zero delta. */
  predicate RepeatsValue(bytes: seq<byte>) {
    var header := CompactSize.Parse(bytes);
    && header.Ok? && header.value.0 > 0
    && var count := header.value.0;
    var first := DecodeDelta(Bits(bytes[header.value.1..]), count * M);
    first.Ok? && AnyZeroField(first.value.1, count - 1, count * M)
  }

  /**
   For every accepted byte string: the decoded values are strictly ascending if and only if no element
   after the first is stored as a zero delta.
   */
  lemma StrictExactly(bytes: seq<byte>, limits: FilterLimits, values: seq<nat>)
    requires Validate(bytes, limits) == Ok(values)
    ensures StrictlyAscending(values) <==> !RepeatsValue(bytes)
  {
    hide DecodeDelta, Bits, PaddingOf, AnyZeroField;
    var (count, headerLength) := CompactSize.Parse(bytes).value;
    if count > 0 {
      var stream, range := Bits(bytes[headerLength..]), count * M;
      var (delta, rest) := DecodeDelta(stream, range).value;
      var tail := DecodeFrom(rest, count - 1, delta, range).value.0;
      assert values == [delta] + tail;
      StrictDecoding(rest, count - 1, delta, range);
      StrictPairs(delta, tail);
      HeadAndTail(delta, tail);
    }
  }

  lemma HeadAndTail(first: nat, tail: seq<nat>)
    ensures StrictlyAscending([first] + tail) <==> (forall i :: 0 <= i < |tail| ==> first < tail[i]) && StrictlyAscending(tail)
  {
    var all := [first] + tail;
    assert forall i :: 0 <= i < |tail| ==> all[i + 1] == tail[i];
    if StrictlyAscending(all) {
      forall i | 0 <= i < |tail|
        ensures first < tail[i]
      {
        assert all[0] < all[i + 1];
      }
      forall a, b | 0 <= a < b < |tail|
        ensures tail[a] < tail[b]
      {
        assert all[a + 1] < all[b + 1];
      }
    }
  }

  lemma SplitBit(k: nat, offset: nat)
    requires offset < 8
    ensures (8 * k + offset) / 8 == k && (8 * k + offset) % 8 == offset
  {
  }

  /** The stream around one byte. */
  lemma {:induction false} BitsAround(bytes: seq<byte>, k: nat)
    requires k < |bytes|
    ensures Bits(bytes) == Bits(bytes[..k]) + (Binary(bytes[k], 8) + Bits(bytes[k + 1..]))
  {
    hide Binary;
    if k == 0 {
      assert bytes[..0] == [] && bytes[0 + 1..] == bytes[1..];
    } else {
      BitsAround(bytes[1..], k - 1);
      assert bytes[1..][..k - 1] == bytes[..k][1..] && bytes[1..][k..] == bytes[k + 1..];
      Regroup(Binary(bytes[0], 8), Bits(bytes[..k][1..]), Binary(bytes[k], 8) + Bits(bytes[k + 1..]));
    }
  }

  lemma Regroup(a: seq<bit>, b: seq<bit>, c: seq<bit>)
    ensures a + (b + c) == (a + b) + c
  {
  }

  lemma RestAround(head: seq<bit>, low: seq<bit>, tail: seq<bit>, used: nat)
    requires used <= |low|
    ensures (head + (low + tail))[|head| + used..] == low[used..] + tail
  {
  }

  /** The unread bits are the rest of the current byte, then whole bytes. */
  lemma RestBits(bytes: seq<byte>, k: nat, used: nat)
    requires k < |bytes| && used <= 8
    ensures Bits(bytes)[8 * k + used..] == Binary(bytes[k], 8)[used..] + Bits(bytes[k + 1..])
  {
    hide Bits, Binary;
    BitsAround(bytes, k);
    RestAround(Bits(bytes[..k]), Binary(bytes[k], 8), Bits(bytes[k + 1..]), used);
  }

  lemma PaddingIsPart(part: seq<bit>, tail: seq<bit>, whole: nat)
    requires |part| < 8 && |tail| == 8 * whole
    ensures PaddingOf(part + tail) == part && |part + tail| % 8 == |part|
  {
    SplitBit(whole, |part|);
  }

  /** The padding check on a byte is the padding check on the stream. */
  lemma PaddingExactly(bytes: seq<byte>, k: nat, used: nat, rest: seq<bit>)
    requires k < |bytes| && 0 < used < 8 && rest == Bits(bytes)[8 * k + used..]
    ensures bytes[k] % Pow2(8 - used) == 0 <==> PaddingOf(rest) == ZeroBits(|rest| % 8)
  {
    hide Bits, Binary, PaddingOf, ZeroBits, Pow2;
    RestBits(bytes, k, used);
    LowBitsZero(bytes[k], used);
    PaddingIsPart(Binary(bytes[k], 8)[used..], Bits(bytes[k + 1..]), |bytes| - k - 1);
  }

  /** A big-endian bit cursor. */
  class BitReader {
    const bytes: seq<byte>
    var bit: nat

    ghost predicate Valid()
      reads this
    {
      bit <= 8 * |bytes|
    }

    ghost function Rest(): (s: seq<BitStream.bit>)
      requires Valid()
      reads this
    {
      Bits(bytes)[bit..]
    }

    constructor (bytes: seq<byte>)
      ensures Valid() && this.bytes == bytes && Rest() == Bits(bytes)
    {
      this.bytes := bytes;
      bit := 0;
    }

    method ReadBit() returns (r: Result<BitStream.bit, FilterError>)
      requires Valid()
      modifies this
      ensures Valid()
      ensures r == if old(Rest()) == [] then Err(Truncated) else Ok(old(Rest())[0])
      ensures Rest() == if r.Ok? then old(Rest())[1..] else old(Rest())
    {
      hide Bits, Pow2;
      if bit / 8 >= |bytes| {
        return Err(Truncated);
      }
      BitsIndex(bytes, bit);
      r := Ok(bytes[bit / 8] / Pow2(7 - bit % 8) % 2);
      bit := bit + 1;
    }

    method ReadBits(count: nat) returns (r: Result<nat, FilterError>)
      requires Valid()
      modifies this
      ensures Valid()
      ensures TakeBits(old(Rest()), count, 0).Err? ==> r == Err(TakeBits(old(Rest()), count, 0).error)
      ensures TakeBits(old(Rest()), count, 0).Ok? ==>
        r == Ok(TakeBits(old(Rest()), count, 0).value.0) && Rest() == TakeBits(old(Rest()), count, 0).value.1
    {
      hide Bits;
      var value: nat := 0;
      for i := 0 to count
        invariant Valid()
        invariant TakeBits(old(Rest()), count, 0) == TakeBits(Rest(), count - i, value)
      {
        var next := ReadBit();
        if next.Err? {
          return next;
        }
        value := 2 * value + next.value;
      }
      return Ok(value);
    }

    method PaddingIsZero() returns (ok: bool)
      requires Valid()
      ensures ok <==> PaddingOf(Rest()) == ZeroBits(|Rest()| % 8)
    {
      hide Bits, Binary, Pow2, PaddingOf, ZeroBits;
      var k, remainder := bit / 8, bit % 8;
      assert bit == 8 * k + remainder;
      if remainder == 0 {
        WholeBytesLeft(Rest(), |bytes| - k);
        return true;
      }
      ok := bytes[k] % Pow2(8 - remainder) == 0;
      PaddingExactly(bytes, k, remainder, Rest());
    }
  }

  lemma WholeBytesLeft(rest: seq<bit>, whole: nat)
    requires |rest| == 8 * whole
    ensures PaddingOf(rest) == ZeroBits(|rest| % 8)
  {
    SplitBit(whole, 0);
  }

  /**
   The decoder as the wallet runs it: one pass over the bits, every arithmetic step within u64.
   `quotient << P` cannot overflow because the unary run is cut at `range >> P`.
   */
  method ValidateFilter(bytes: seq<byte>, limits: FilterLimits) returns (r: Result<seq<nat>, FilterError>)
    ensures r == Validate(bytes, limits)
  {
    if |bytes| > limits.maxBytes {
      return Err(LimitExceeded);
    }
    var header := CompactSize.Parse(bytes);
    if header.Err? {
      return Err(header.error);
    }
    var (count, headerLength) := header.value;
    if count > limits.maxElements {
      return Err(LimitExceeded);
    }
    var body := bytes[headerLength..];
    var minimumBits := count * (P + 1);
    if minimumBits >= U64_LIMIT {
      return Err(LimitExceeded);
    }
    if minimumBits > 8 * |body| {
      return Err(Truncated);
    }
    if count == 0 {
      if body != [] {
        return Err(TrailingBytes);
      }
      return Ok([]);
    }
    if count * M >= U64_LIMIT {
      return Err(LimitExceeded);
    }
    r := DecodeBody(body, count);
  }

  method DecodeBody(body: seq<byte>, count: nat) returns (r: Result<seq<nat>, FilterError>)
    requires 0 < count && count * M < U64_LIMIT
    ensures r == ValidateBody(body, count)
  {
    hide DecodeFrom, Bits;
    var reader := new BitReader(body);
    var values := ReadValues(reader, count, count * M);
    if values.Err? {
      return values;
    }
    r := FinishBody(reader, values.value);
  }

  method ReadValues(reader: BitReader, count: nat, range: u64) returns (r: Result<seq<nat>, FilterError>)
    requires reader.Valid()
    modifies reader
    ensures reader.Valid()
    ensures var decoded := DecodeFrom(old(reader.Rest()), count, 0, range);
      if decoded.Err? then r == Err(decoded.error)
      else r == Ok(decoded.value.0) && reader.Rest() == decoded.value.1
  {
    hide DecodeFrom, DecodeDelta, Bits;
    var values: seq<nat> := [];
    var last: u64 := 0;
    ghost var whole := DecodeFrom(reader.Rest(), count, 0, range);
    PrependNothing(whole);
    for index := 0 to count
      invariant reader.Valid()
      invariant whole == Prepend(values, DecodeFrom(reader.Rest(), count - index, last, range))
    {
      DecodeStep(reader.Rest(), count - index, last, range);
      var delta := ReadDelta(reader, range);
      if delta.Err? {
        return Err(delta.error);
      }
      if last + delta.value >= U64_LIMIT {
        return Err(Encoding);
      }
      last := last + delta.value;
      if last >= range {
        return Err(Encoding);
      }
      PrependStep(values, last, DecodeFrom(reader.Rest(), count - index - 1, last, range));
      values := values + [last];
    }
    DecodeNothing(reader.Rest(), last, range);
    assert values + [] == values;
    return Ok(values);
  }

  /** The tail checks: zero padding in the last byte read, and no byte after it. */
  method FinishBody(reader: BitReader, values: seq<nat>) returns (r: Result<seq<nat>, FilterError>)
    requires reader.Valid()
    ensures r ==
      if PaddingOf(reader.Rest()) != ZeroBits(|reader.Rest()| % 8) then Err(NonZeroPadding)
      else if |reader.Rest()| >= 8 then Err(TrailingBytes)
      else Ok(values)
  {
    var padded := reader.PaddingIsZero();
    if !padded {
      return Err(NonZeroPadding);
    }
    var consumed := (reader.bit + 7) / 8;
    if consumed < |reader.bytes| {
      return Err(TrailingBytes);
    }
    return Ok(values);
  }

  /** One value's unary quotient and binary remainder, as `checked_add` sees them. */
  method ReadDelta(reader: BitReader, range: u64) returns (r: Result<u64, FilterError>)
    requires reader.Valid()
    modifies reader
    ensures reader.Valid()
    ensures var d := DecodeDelta(old(reader.Rest()), range);
      if d.Err? then r == Err(d.error)
      else if d.value.0 >= U64_LIMIT then r == Err(Encoding)
      else r == Ok(d.value.0) && reader.Rest() == d.value.1
  {
    hide Bits, TakeBits, TakeUnary;
    var quotient := ReadUnary(reader, range / STEP);
    if quotient.Err? {
      return quotient;
    }
    var remainder := reader.ReadBits(P);
    if remainder.Err? {
      return Err(remainder.error);
    }
    var shifted: u64 := quotient.value * STEP;
    if shifted + remainder.value >= U64_LIMIT {
      return Err(Encoding);
    }
    return Ok(shifted + remainder.value);
  }

  /** The unary run, cut as soon as it exceeds what the range can encode. */
  lemma UnaryStep(rest: seq<BitStream.bit>, quotient: nat, max: nat)
    ensures TakeUnary([1] + rest, quotient, max) == if quotient + 1 > max then Err(LimitExceeded) else TakeUnary(rest, quotient + 1, max)
    ensures rest == [] ==> TakeUnary(rest, quotient + 1, max) == Err(Truncated)
    ensures rest != [] && rest[0] == 0 ==> TakeUnary(rest, quotient + 1, max) == Ok((quotient + 1, rest[1..]))
  {
    assert ([1] + rest)[1..] == rest;
  }

  method ReadUnary(reader: BitReader, maxQuotient: u64) returns (r: Result<u64, FilterError>)
    requires reader.Valid() && maxQuotient * STEP < U64_LIMIT
    modifies reader
    ensures reader.Valid()
    ensures r.Ok? ==> r.value <= maxQuotient
    ensures var u := TakeUnary(old(reader.Rest()), 0, maxQuotient);
      if u.Err? then r == Err(u.error) else r == Ok(u.value.0) && reader.Rest() == u.value.1
  {
    hide Bits;
    var quotient: u64 := 0;
    ghost var start := reader.Rest();
    var next := reader.ReadBit();
    while next.Ok? && next.value == 1
      invariant reader.Valid() && quotient <= maxQuotient
      invariant next.Err? ==> TakeUnary(start, 0, maxQuotient) == Err(next.error)
      invariant next.Ok? && next.value == 0 ==> TakeUnary(start, 0, maxQuotient) == Ok((quotient, reader.Rest()))
      invariant next.Ok? && next.value == 1 ==>
        TakeUnary(start, 0, maxQuotient) == TakeUnary([1] + reader.Rest(), quotient, maxQuotient)
      decreases next.Ok? && next.value == 1, |reader.Rest()|
    {
      ghost var before := reader.Rest();
      UnaryStep(before, quotient, maxQuotient);
      quotient := quotient + 1;
      if quotient > maxQuotient {
        return Err(LimitExceeded);
      }
      next := reader.ReadBit();
      assert next.Ok? ==> before == [next.value] + reader.Rest();
    }
    if next.Err? {
      return Err(next.error);
    }
    return Ok(quotient);
  }

  ghost function Prepend(values: seq<nat>, tail: Result<(seq<nat>, seq<BitStream.bit>), FilterError>)
    : Result<(seq<nat>, seq<BitStream.bit>), FilterError>
  {
    if tail.Err? then tail else Ok((values + tail.value.0, tail.value.1))
  }

  lemma PrependNothing(tail: Result<(seq<nat>, seq<BitStream.bit>), FilterError>)
    ensures Prepend([], tail) == tail
  {
    if tail.Ok? {
      assert [] + tail.value.0 == tail.value.0;
    }
  }

  lemma PrependStep(values: seq<nat>, v: nat, tail: Result<(seq<nat>, seq<BitStream.bit>), FilterError>)
    ensures Prepend(values, Prepend([v], tail)) == Prepend(values + [v], tail)
  {
    if tail.Ok? {
      assert values + ([v] + tail.value.0) == values + [v] + tail.value.0;
    }
  }

  lemma DecodeStep(s: seq<BitStream.bit>, count: nat, last: nat, range: nat)
    requires count > 0
    ensures var d := DecodeDelta(s, range);
      DecodeFrom(s, count, last, range) ==
      if d.Err? then Err(d.error)
      else if last + d.value.0 >= range then Err(Encoding)
      else Prepend([last + d.value.0], DecodeFrom(d.value.1, count - 1, last + d.value.0, range))
  {
    hide DecodeDelta;
  }

  lemma DecodeNothing(s: seq<BitStream.bit>, last: nat, range: nat)
    ensures DecodeFrom(s, 0, last, range) == Ok(([], s))
  {
  }
}
