/** Errors of the transparent-filter crate, by kind; message texts are not modelled. */
module FilterErrors {
  datatype FilterError =
    | Truncated
    | NotCanonical
    | LimitExceeded
    | TrailingBytes
    | NonZeroPadding
    | Encoding
    | Envelope
    | Response
}

/** Bitcoin CompactSize integers, canonical form only. */
module CompactSize {
  import opened Bytes
  import opened Results
  import opened FilterErrors

  function Encode(value: u64): (s: seq<byte>)
    ensures 1 <= |s| <= 9
  {
    if value <= 0xfc then [value]
    else if value <= 0xffff then [0xfd] + ToLE(value, 2)
    else if value <= 0xffff_ffff then [0xfe] + ToLE(value, 4)
    else [0xff] + ToLE(value, 8)
  }

  /** The integer at the head of `s` and the number of bytes it occupies. */
  function Parse(s: seq<byte>): (r: Result<(u64, nat), FilterError>)
    ensures r.Ok? ==> 1 <= r.value.1 <= |s|
  {
    if s == [] then Err(Truncated)
    else if s[0] == 0xfd then ParseWide(s, 2, 0xfd)
    else if s[0] == 0xfe then ParseWide(s, 4, 0x1_0000)
    else if s[0] == 0xff then ParseWide(s, 8, 0x1_0000_0000)
    else Ok((s[0], 1))
  }

  function ParseWide(s: seq<byte>, width: nat, minimum: nat): (r: Result<(u64, nat), FilterError>)
    requires s != [] && width in {2, 4, 8}
    ensures r.Ok? ==> r.value.1 == 1 + width <= |s|
  {
    if |s| < 1 + width then Err(Truncated)
    else
      Pow256Values();
      var value := FromLE(s[1..1 + width]);
      if value < minimum then Err(NotCanonical) else Ok((value, 1 + width))
  }

  /** Every integer is read back, whatever follows it. */
  lemma ParseEncode(value: u64, rest: seq<byte>)
    ensures Parse(Encode(value) + rest) == Ok((value, |Encode(value)|))
  {
    Pow256Values();
    var s := Encode(value) + rest;
    if 0xfc < value {
      var width := if value <= 0xffff then 2 else if value <= 0xffff_ffff then 4 else 8;
      assert s[1..1 + width] == ToLE(value, width);
      FromToLE(value, width);
    }
  }

  /** An accepted encoding is the only encoding of its value. */
  lemma EncodeParse(s: seq<byte>)
    requires Parse(s).Ok?
    ensures Encode(Parse(s).value.0) == s[..Parse(s).value.1]
  {
    Pow256Values();
    var width := Parse(s).value.1 - 1;
    if width > 0 {
      ToFromLE(s[1..1 + width]);
      assert |s[1..1 + width]| == width;
    }
  }

  /** One byte up to 252, otherwise a marker and the least of two, four or eight bytes that fits, least significant first. */
  lemma EncodedShape(value: u64, i: nat)
    ensures var s := Encode(value);
      && (value <= 252 ==> s == [value])
      && (252 < value < 0x1_0000 ==> |s| == 3 && s[0] == 253)
      && (0x1_0000 <= value < 0x1_0000_0000 ==> |s| == 5 && s[0] == 254)
      && (0x1_0000_0000 <= value ==> |s| == 9 && s[0] == 255)
      && (252 < value && 1 + i < |s| ==> s[1 + i] == value / Pow256(i) % 256)
  {
    var s := Encode(value);
    if 252 < value && 1 + i < |s| {
      DigitOfLE(value, |s| - 1, i);
    }
  }
}
