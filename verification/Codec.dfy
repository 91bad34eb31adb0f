/**
 Serialization laws. A format is a writer `put(x, rest)`, the bytes of `x` in front of `rest`, and a
 parser that returns the value at the head of its input and what follows it.
 */
module Codec {
  import opened Bytes
  import opened Results

  type Writer<!T> = (T, seq<byte>) -> seq<byte>
  type Parser<!T> = seq<byte> -> Option<(T, seq<byte>)>

  /** Valid values are read back whatever follows, and accepted bytes are what the writer writes. */
  ghost predicate Lawful<T(!new)>(put: Writer<T>, parse: Parser<T>, valid: T -> bool) {
    && (forall x, rest | valid(x) :: parse(put(x, rest)) == Some((x, rest)))
    && (forall s | parse(s).Some? ::
          valid(parse(s).value.0) && s == put(parse(s).value.0, parse(s).value.1))
  }

  function PutMany<T>(xs: seq<T>, put: Writer<T>, rest: seq<byte>): (s: seq<byte>) {
    if xs == [] then rest else put(xs[0], PutMany(xs[1..], put, rest))
  }

  function ParseMany<T>(s: seq<byte>, count: nat, parse: Parser<T>): (r: Option<(seq<T>, seq<byte>)>)
    ensures r.Some? ==> |r.value.0| == count
    decreases count
  {
    if count == 0 then Some(([], s))
    else
      var (x, rest) :- parse(s);
      var (xs, tail) :- ParseMany(rest, count - 1, parse);
      Some(([x] + xs, tail))
  }

  predicate AllValid<T>(xs: seq<T>, valid: T -> bool) {
    forall i :: 0 <= i < |xs| ==> valid(xs[i])
  }

  lemma {:induction false} ParseOfPutMany<T(!new)>(xs: seq<T>, rest: seq<byte>, put: Writer<T>, parse: Parser<T>,
                                                   valid: T -> bool)
    requires Lawful(put, parse, valid) && AllValid(xs, valid)
    ensures ParseMany(PutMany(xs, put, rest), |xs|, parse) == Some((xs, rest))
  {
    if xs != [] {
      ParseOfPutMany(xs[1..], rest, put, parse, valid);
      assert valid(xs[0]);
      assert [xs[0]] + xs[1..] == xs;
    }
  }

  lemma {:induction false} PutOfParseMany<T(!new)>(s: seq<byte>, count: nat, put: Writer<T>, parse: Parser<T>,
                                                   valid: T -> bool)
    requires Lawful(put, parse, valid) && ParseMany(s, count, parse).Some?
    ensures var (xs, rest) := ParseMany(s, count, parse).value;
      AllValid(xs, valid) && s == PutMany(xs, put, rest)
    decreases count
  {
    if count > 0 {
      var (x, tail) := parse(s).value;
      PutOfParseMany(tail, count - 1, put, parse, valid);
      var (xs, rest) := ParseMany(tail, count - 1, parse).value;
      assert ([x] + xs)[1..] == xs;
    }
  }

  /** A whole message: nothing may follow it. */
  function Decode<T>(bytes: seq<byte>, parse: Parser<T>): (r: Option<T>) {
    var (x, rest) :- parse(bytes);
    if rest == [] then Some(x) else None
  }

  lemma DecodeOfPut<T(!new)>(x: T, put: Writer<T>, parse: Parser<T>, valid: T -> bool)
    requires Lawful(put, parse, valid) && valid(x)
    ensures Decode(put(x, []), parse) == Some(x)
  {
    assert parse(put(x, [])) == Some((x, []));
  }

  lemma PutOfDecode<T(!new)>(bytes: seq<byte>, put: Writer<T>, parse: Parser<T>, valid: T -> bool)
    requires Lawful(put, parse, valid) && Decode(bytes, parse).Some?
    ensures valid(Decode(bytes, parse).value) && bytes == put(Decode(bytes, parse).value, [])
  {
    assert parse(bytes).Some?;
  }

  /** Writing in front of `rest` is writing alone, then `rest`. */
  ghost predicate Appends<T(!new)>(put: Writer<T>) {
    forall x, rest :: put(x, rest) == put(x, []) + rest
  }

  /** No proper prefix of an accepted message is accepted. */
  lemma PrefixFree<T(!new)>(head: seq<byte>, tail: seq<byte>, put: Writer<T>, parse: Parser<T>, valid: T -> bool)
    requires Lawful(put, parse, valid) && Appends(put)
    requires Decode(head, parse).Some? && Decode(head + tail, parse).Some?
    ensures tail == []
  {
    PutOfDecode(head, put, parse, valid);
    var x := Decode(head, parse).value;
    assert head + tail == put(x, tail);
    assert parse(put(x, tail)) == Some((x, tail));
  }

  function Take(s: seq<byte>, count: nat): (r: Option<(seq<byte>, seq<byte>)>)
    ensures r.Some? ==> |r.value.0| == count
  {
    if |s| < count then None else Some((s[..count], s[count..]))
  }

  lemma TakeOfPut(head: seq<byte>, rest: seq<byte>)
    ensures Take(head + rest, |head|) == Some((head, rest))
  {
    assert (head + rest)[..|head|] == head && (head + rest)[|head|..] == rest;
  }

  lemma PutOfTake(s: seq<byte>, count: nat)
    requires Take(s, count).Some?
    ensures var (head, rest) := Take(s, count).value; |head| == count && s == head + rest
  {
  }

  function ParseInt(s: seq<byte>, width: nat): (r: Option<(nat, seq<byte>)>)
    ensures r.Some? ==> r.value.0 < Pow256(width)
  {
    var (head, rest) :- Take(s, width);
    Some((FromLE(head), rest))
  }

  lemma ParseOfPutInt(value: nat, width: nat, rest: seq<byte>)
    requires value < Pow256(width)
    ensures ParseInt(ToLE(value, width) + rest, width) == Some((value, rest))
  {
    TakeOfPut(ToLE(value, width), rest);
    FromToLE(value, width);
  }

  lemma PutOfParseInt(s: seq<byte>, width: nat)
    requires ParseInt(s, width).Some?
    ensures var (value, rest) := ParseInt(s, width).value; s == ToLE(value, width) + rest
  {
    PutOfTake(s, width);
    ToFromLE(Take(s, width).value.0);
  }

  /** Eight-byte coefficients. */
  function PutU64(value: u64, rest: seq<byte>): (s: seq<byte>) {
    ToLE(value, 8) + rest
  }

  function ParseU64(s: seq<byte>): (r: Option<(u64, seq<byte>)>) {
    Pow256Values();
    var (value, rest) :- ParseInt(s, 8);
    Some((value, rest))
  }

  lemma U64Lawful()
    ensures Lawful(PutU64, ParseU64, (x: u64) => true)
    ensures Appends(PutU64)
  {
    forall x: u64, rest
      ensures ParseU64(PutU64(x, rest)) == Some((x, rest))
    {
      Pow256Values();
      ParseOfPutInt(x, 8, rest);
    }
    forall s | ParseU64(s).Some?
      ensures s == PutU64(ParseU64(s).value.0, ParseU64(s).value.1)
    {
      PutOfParseInt(s, 8);
    }
    forall x: u64, rest
      ensures PutU64(x, rest) == PutU64(x, []) + rest
    {
      assert ToLE(x, 8) + [] == ToLE(x, 8);
    }
  }

  lemma {:induction false} PutManyAppends<T(!new)>(xs: seq<T>, put: Writer<T>, rest: seq<byte>)
    requires Appends(put)
    ensures PutMany(xs, put, rest) == PutMany(xs, put, []) + rest
  {
    if xs != [] {
      PutManyAppends(xs[1..], put, rest);
      var tail := PutMany(xs[1..], put, []);
      calc {
        PutMany(xs, put, rest);
        put(xs[0], tail + rest);
        put(xs[0], []) + (tail + rest);
        (put(xs[0], []) + tail) + rest;
        PutMany(xs, put, []) + rest;
      }
    }
  }

  /** Extending a buffer by one element at a time writes the list. */
  lemma PutManyStep<T(!new)>(out: seq<byte>, xs: seq<T>, i: nat, put: Writer<T>)
    requires Appends(put) && i < |xs|
    ensures out + PutMany(xs[i..], put, []) == (out + put(xs[i], [])) + PutMany(xs[i + 1..], put, [])
  {
    assert xs[i..][1..] == xs[i + 1..];
    var tail := PutMany(xs[i + 1..], put, []);
    assert put(xs[i], tail) == put(xs[i], []) + tail;
    assert out + (put(xs[i], []) + tail) == (out + put(xs[i], [])) + tail;
  }
}
