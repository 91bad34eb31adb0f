/** The binary messages between coordinator and workers. */
module WorkerWire {
  import opened Bytes
  import opened Results
  import opened Cursor
  import opened Codec

  /** "MPQ1", "MPR1", "MPH1". */
  const REQUEST_MAGIC: seq<byte> := [0x4d, 0x50, 0x51, 0x31]
  const RESPONSE_MAGIC: seq<byte> := [0x4d, 0x50, 0x52, 0x31]
  const HINT_MAGIC: seq<byte> := [0x4d, 0x50, 0x48, 0x31]

  const MAX_SHARDS_PER_WORKER: nat := 4_096

  datatype WireQuery = WireQuery(shardId: u64, coefficients: seq<u64>)

  datatype EvaluateRequest = EvaluateRequest(generation: u64, shards: seq<WireQuery>)

  datatype EvaluateResponse = EvaluateResponse(generation: u64, coefficients: seq<u64>)

  datatype CrsBlock = CrsBlock(rows: seq<seq<u64>>)

  /** A vector of coefficients behind its length, truncated to 32 bits as `len() as u32` is. */
  function PutVector(values: seq<u64>, rest: seq<byte>): (s: seq<byte>) {
    ToLE(|values|, 4) + PutMany(values, PutU64, rest)
  }

  function ParseVector(s: seq<byte>): (r: Option<(seq<u64>, seq<byte>)>) {
    var (count, s1) :- ParseInt(s, 4);
    ParseMany(s1, count, ParseU64)
  }

  predicate ValidVector(values: seq<u64>) {
    |values| < U32_LIMIT
  }

  lemma VectorLawful()
    ensures Lawful(PutVector, ParseVector, ValidVector)
    ensures Appends(PutVector)
  {
    hide PutMany, ParseMany, ParseInt, ToLE, PutU64, ParseU64;
    Pow256Values();
    U64Lawful();
    var any := (x: u64) => true;
    forall values: seq<u64>, rest | ValidVector(values)
      ensures ParseVector(PutVector(values, rest)) == Some((values, rest))
    {
      ParseOfPutInt(|values|, 4, PutMany(values, PutU64, rest));
      ParseOfPutMany(values, rest, PutU64, ParseU64, any);
    }
    forall s | ParseVector(s).Some?
      ensures ValidVector(ParseVector(s).value.0)
      ensures s == PutVector(ParseVector(s).value.0, ParseVector(s).value.1)
    {
      var (count, s1) := ParseInt(s, 4).value;
      PutOfParseInt(s, 4);
      PutOfParseMany(s1, count, PutU64, ParseU64, any);
    }
    forall values: seq<u64>, rest
      ensures PutVector(values, rest) == PutVector(values, []) + rest
    {
      PutManyAppends(values, PutU64, rest);
    }
  }

  function PutShard(q: WireQuery, rest: seq<byte>): (s: seq<byte>) {
    PutU64(q.shardId, PutVector(q.coefficients, rest))
  }

  function ParseShard(s: seq<byte>): (r: Option<(WireQuery, seq<byte>)>) {
    var (shardId, s1) :- ParseU64(s);
    var (coefficients, rest) :- ParseVector(s1);
    Some((WireQuery(shardId, coefficients), rest))
  }

  predicate ValidShard(q: WireQuery) {
    ValidVector(q.coefficients)
  }

  lemma ShardLawful()
    ensures Lawful(PutShard, ParseShard, ValidShard)
    ensures Appends(PutShard)
  {
    hide PutU64, ParseU64, PutVector, ParseVector;
    U64Lawful();
    VectorLawful();
    forall q: WireQuery, rest
      ensures PutShard(q, rest) == PutShard(q, []) + rest
    {
      var v := PutVector(q.coefficients, []);
      calc {
        PutShard(q, rest);
        PutU64(q.shardId, v + rest);
        PutU64(q.shardId, []) + (v + rest);
        (PutU64(q.shardId, []) + v) + rest;
        PutShard(q, []) + rest;
      }
    }
  }

  function PutRequest(m: EvaluateRequest, rest: seq<byte>): (s: seq<byte>) {
    REQUEST_MAGIC + PutU64(m.generation, ToLE(|m.shards|, 4) + PutMany(m.shards, PutShard, rest))
  }

  function ParseRequest(s: seq<byte>): (r: Option<(EvaluateRequest, seq<byte>)>) {
    var (magic, s1) :- Take(s, 4);
    if magic != REQUEST_MAGIC then None else
    var (generation, s2) :- ParseU64(s1);
    var (count, s3) :- ParseInt(s2, 4);
    if count == 0 || count > MAX_SHARDS_PER_WORKER then None else
    var (shards, rest) :- ParseMany(s3, count, ParseShard);
    Some((EvaluateRequest(generation, shards), rest))
  }

  predicate ValidRequest(m: EvaluateRequest) {
    0 < |m.shards| <= MAX_SHARDS_PER_WORKER && AllValid(m.shards, ValidShard)
  }

  /** Evaluate requests: canonical and self-delimiting. */
  lemma RequestLawful()
    ensures Lawful(PutRequest, ParseRequest, ValidRequest)
    ensures Appends(PutRequest)
  {
    hide PutU64, ParseU64, PutMany, ParseMany, ParseInt, ToLE, Take, PutShard, ParseShard;
    Pow256Values();
    U64Lawful();
    ShardLawful();
    forall m: EvaluateRequest, rest | ValidRequest(m)
      ensures ParseRequest(PutRequest(m, rest)) == Some((m, rest))
    {
      var s3 := PutMany(m.shards, PutShard, rest);
      TakeOfPut(REQUEST_MAGIC, PutU64(m.generation, ToLE(|m.shards|, 4) + s3));
      ParseOfPutInt(|m.shards|, 4, s3);
      ParseOfPutMany(m.shards, rest, PutShard, ParseShard, ValidShard);
    }
    forall s | ParseRequest(s).Some?
      ensures ValidRequest(ParseRequest(s).value.0)
      ensures s == PutRequest(ParseRequest(s).value.0, ParseRequest(s).value.1)
    {
      var (magic, s1) := Take(s, 4).value;
      var (generation, s2) := ParseU64(s1).value;
      var (count, s3) := ParseInt(s2, 4).value;
      PutOfTake(s, 4);
      PutOfParseInt(s2, 4);
      PutOfParseMany(s3, count, PutShard, ParseShard, ValidShard);
    }
    forall m: EvaluateRequest, rest
      ensures PutRequest(m, rest) == PutRequest(m, []) + rest
    {
      RequestAppends(m, rest);
    }
  }

  lemma RequestAppends(m: EvaluateRequest, rest: seq<byte>)
    ensures PutRequest(m, rest) == PutRequest(m, []) + rest
  {
    hide PutMany, ToLE, PutShard;
    ShardLawful();
    PutManyAppends(m.shards, PutShard, rest);
  }

  function PutResponse(m: EvaluateResponse, rest: seq<byte>): (s: seq<byte>) {
    RESPONSE_MAGIC + PutU64(m.generation, PutVector(m.coefficients, rest))
  }

  function ParseResponse(s: seq<byte>): (r: Option<(EvaluateResponse, seq<byte>)>) {
    var (magic, s1) :- Take(s, 4);
    if magic != RESPONSE_MAGIC then None else
    var (generation, s2) :- ParseU64(s1);
    var (coefficients, rest) :- ParseVector(s2);
    Some((EvaluateResponse(generation, coefficients), rest))
  }

  predicate ValidResponse(m: EvaluateResponse) {
    ValidVector(m.coefficients)
  }

  /** Evaluate responses: canonical and self-delimiting. */
  lemma ResponseLawful()
    ensures Lawful(PutResponse, ParseResponse, ValidResponse)
    ensures Appends(PutResponse)
  {
    hide PutU64, ParseU64, PutVector, ParseVector, Take;
    U64Lawful();
    VectorLawful();
    forall m: EvaluateResponse, rest | ValidResponse(m)
      ensures ParseResponse(PutResponse(m, rest)) == Some((m, rest))
    {
      TakeOfPut(RESPONSE_MAGIC, PutU64(m.generation, PutVector(m.coefficients, rest)));
    }
    forall s | ParseResponse(s).Some?
      ensures ValidResponse(ParseResponse(s).value.0)
      ensures s == PutResponse(ParseResponse(s).value.0, ParseResponse(s).value.1)
    {
      PutOfTake(s, 4);
    }
    forall m: EvaluateResponse, rest
      ensures PutResponse(m, rest) == PutResponse(m, []) + rest
    {
      var v := PutVector(m.coefficients, []);
      calc {
        PutResponse(m, rest);
        RESPONSE_MAGIC + PutU64(m.generation, v + rest);
        RESPONSE_MAGIC + ((PutU64(m.generation, []) + v) + rest);
        RESPONSE_MAGIC + (PutU64(m.generation, v) + rest);
        PutResponse(m, []) + rest;
      }
    }
  }

  function PutBlock(b: CrsBlock, rest: seq<byte>): (s: seq<byte>) {
    ToLE(|b.rows|, 4) + PutMany(b.rows, PutVector, rest)
  }

  function PutHint(blocks: seq<CrsBlock>, rest: seq<byte>): (s: seq<byte>) {
    HINT_MAGIC + (ToLE(|blocks|, 4) + PutMany(blocks, PutBlock, rest))
  }

  /** A row must have exactly `degree` coefficients. */
  function ParseRow(s: seq<byte>, degree: nat): (r: Option<(seq<u64>, seq<byte>)>) {
    var (count, s1) :- ParseInt(s, 4);
    if count != degree then None else ParseMany(s1, degree, ParseU64)
  }

  function ParseBlock(s: seq<byte>, degree: nat): (r: Option<(CrsBlock, seq<byte>)>) {
    var (count, s1) :- ParseInt(s, 4);
    if count != degree then None else
    var (rows, rest) :- ParseMany(s1, degree, (t: seq<byte>) => ParseRow(t, degree));
    Some((CrsBlock(rows), rest))
  }

  function ParseHint(s: seq<byte>, expected: nat, degree: nat): (r: Option<(seq<CrsBlock>, seq<byte>)>) {
    var (magic, s1) :- Take(s, 4);
    if magic != HINT_MAGIC then None else
    var (count, s2) :- ParseInt(s1, 4);
    if count != expected then None else
    ParseMany(s2, expected, (t: seq<byte>) => ParseBlock(t, degree))
  }

  /** The shape a coordinator expects of a hint: square blocks of the ring degree. */
  predicate Square(b: CrsBlock, degree: nat) {
    |b.rows| == degree && forall i :: 0 <= i < degree ==> |b.rows[i]| == degree
  }

  predicate ValidHint(blocks: seq<CrsBlock>, expected: nat, degree: nat) {
    |blocks| == expected && AllValid(blocks, (b: CrsBlock) => Square(b, degree))
  }

  lemma RowLawful(degree: nat)
    requires degree < U32_LIMIT
    ensures Lawful(PutVector, (s: seq<byte>) => ParseRow(s, degree), (v: seq<u64>) => |v| == degree)
  {
    hide PutMany, ParseMany, ParseInt, ToLE, PutU64, ParseU64;
    var parse := (s: seq<byte>) => ParseRow(s, degree);
    VectorLawful();
    Pow256Values();
    U64Lawful();
    forall v: seq<u64>, rest | |v| == degree
      ensures parse(PutVector(v, rest)) == Some((v, rest))
    {
      assert ParseVector(PutVector(v, rest)) == Some((v, rest));
      ParseOfPutInt(|v|, 4, PutMany(v, PutU64, rest));
    }
    forall s | parse(s).Some?
      ensures |parse(s).value.0| == degree && s == PutVector(parse(s).value.0, parse(s).value.1)
    {
      assert ParseVector(s) == ParseRow(s, degree);
    }
  }

  lemma BlockLawful(degree: nat)
    requires degree < U32_LIMIT
    ensures Lawful(PutBlock, (s: seq<byte>) => ParseBlock(s, degree), (b: CrsBlock) => Square(b, degree))
    ensures Appends(PutBlock)
  {
    hide PutMany, ParseMany, ParseInt, ToLE, PutVector, ParseRow;
    RowLawful(degree);
    VectorLawful();
    Pow256Values();
    var row := (s: seq<byte>) => ParseRow(s, degree);
    var exact := (v: seq<u64>) => |v| == degree;
    var parse := (s: seq<byte>) => ParseBlock(s, degree);
    forall b: CrsBlock, rest | Square(b, degree)
      ensures parse(PutBlock(b, rest)) == Some((b, rest))
    {
      ParseOfPutInt(|b.rows|, 4, PutMany(b.rows, PutVector, rest));
      ParseOfPutMany(b.rows, rest, PutVector, row, exact);
    }
    forall s | parse(s).Some?
      ensures Square(parse(s).value.0, degree) && s == PutBlock(parse(s).value.0, parse(s).value.1)
    {
      var (count, s1) := ParseInt(s, 4).value;
      PutOfParseInt(s, 4);
      PutOfParseMany(s1, degree, PutVector, row, exact);
    }
    forall b: CrsBlock, rest
      ensures PutBlock(b, rest) == PutBlock(b, []) + rest
    {
      PutManyAppends(b.rows, PutVector, rest);
    }
  }

  /** CRS hints: canonical and self-delimiting for every block count and ring degree below 2^32. */
  lemma HintLawful(expected: nat, degree: nat)
    requires expected < U32_LIMIT && degree < U32_LIMIT
    ensures Lawful(PutHint, (s: seq<byte>) => ParseHint(s, expected, degree),
                   (blocks: seq<CrsBlock>) => ValidHint(blocks, expected, degree))
    ensures Appends(PutHint)
  {
    hide PutMany, ParseMany, ParseInt, ToLE, PutBlock, ParseBlock, Take;
    BlockLawful(degree);
    Pow256Values();
    var block := (s: seq<byte>) => ParseBlock(s, degree);
    var square := (b: CrsBlock) => Square(b, degree);
    var parse := (s: seq<byte>) => ParseHint(s, expected, degree);
    forall blocks: seq<CrsBlock>, rest | ValidHint(blocks, expected, degree)
      ensures parse(PutHint(blocks, rest)) == Some((blocks, rest))
    {
      var s2 := PutMany(blocks, PutBlock, rest);
      TakeOfPut(HINT_MAGIC, ToLE(|blocks|, 4) + s2);
      ParseOfPutInt(|blocks|, 4, s2);
      ParseOfPutMany(blocks, rest, PutBlock, block, square);
    }
    forall s | parse(s).Some?
      ensures ValidHint(parse(s).value.0, expected, degree) && s == PutHint(parse(s).value.0, parse(s).value.1)
    {
      var (magic, s1) := Take(s, 4).value;
      var (count, s2) := ParseInt(s1, 4).value;
      PutOfTake(s, 4);
      PutOfParseInt(s1, 4);
      PutOfParseMany(s2, expected, PutBlock, block, square);
    }
    forall blocks: seq<CrsBlock>, rest
      ensures PutHint(blocks, rest) == PutHint(blocks, []) + rest
    {
      PutManyAppends(blocks, PutBlock, rest);
    }
  }

  /** Each worker message survives the trip, has one encoding, and no proper prefix of it is accepted. */
  lemma RequestRoundTrip(m: EvaluateRequest)
    requires ValidRequest(m)
    ensures Decode(PutRequest(m, []), ParseRequest) == Some(m)
  {
    RequestLawful();
    DecodeOfPut(m, PutRequest, ParseRequest, ValidRequest);
  }

  lemma RequestCanonical(head: seq<byte>, tail: seq<byte>)
    requires Decode(head + tail, ParseRequest).Some?
    ensures PutRequest(Decode(head + tail, ParseRequest).value, []) == head + tail
    ensures tail != [] ==> Decode(head, ParseRequest).None?
  {
    RequestLawful();
    PutOfDecode(head + tail, PutRequest, ParseRequest, ValidRequest);
    if Decode(head, ParseRequest).Some? {
      PrefixFree(head, tail, PutRequest, ParseRequest, ValidRequest);
    }
  }

  lemma ResponseRoundTrip(m: EvaluateResponse)
    requires ValidResponse(m)
    ensures Decode(PutResponse(m, []), ParseResponse) == Some(m)
  {
    ResponseLawful();
    DecodeOfPut(m, PutResponse, ParseResponse, ValidResponse);
  }

  lemma ResponseCanonical(head: seq<byte>, tail: seq<byte>)
    requires Decode(head + tail, ParseResponse).Some?
    ensures PutResponse(Decode(head + tail, ParseResponse).value, []) == head + tail
    ensures tail != [] ==> Decode(head, ParseResponse).None?
  {
    ResponseLawful();
    PutOfDecode(head + tail, PutResponse, ParseResponse, ValidResponse);
    if Decode(head, ParseResponse).Some? {
      PrefixFree(head, tail, PutResponse, ParseResponse, ValidResponse);
    }
  }

  lemma HintCanonical(head: seq<byte>, tail: seq<byte>, expected: nat, degree: nat)
    requires expected < U32_LIMIT && degree < U32_LIMIT
    requires Decode(head + tail, (s: seq<byte>) => ParseHint(s, expected, degree)).Some?
    ensures PutHint(Decode(head + tail, (s: seq<byte>) => ParseHint(s, expected, degree)).value, []) == head + tail
    ensures tail != [] ==> Decode(head, (s: seq<byte>) => ParseHint(s, expected, degree)).None?
  {
    HintLawful(expected, degree);
    var parse := (s: seq<byte>) => ParseHint(s, expected, degree);
    var valid := (b: seq<CrsBlock>) => ValidHint(b, expected, degree);
    PutOfDecode(head + tail, PutHint, parse, valid);
    if Decode(head, parse).Some? {
      PrefixFree(head, tail, PutHint, parse, valid);
    }
  }

  lemma HintRoundTrip(blocks: seq<CrsBlock>, expected: nat, degree: nat)
    requires expected < U32_LIMIT && degree < U32_LIMIT && ValidHint(blocks, expected, degree)
    ensures Decode(PutHint(blocks, []), (s: seq<byte>) => ParseHint(s, expected, degree)) == Some(blocks)
  {
    HintLawful(expected, degree);
    DecodeOfPut(blocks, PutHint, (s: seq<byte>) => ParseHint(s, expected, degree),
                (b: seq<CrsBlock>) => ValidHint(b, expected, degree));
  }

  method EncodeRequest(m: EvaluateRequest) returns (out: seq<byte>)
    ensures out == PutRequest(m, [])
  {
    hide PutMany, ToLE, PutShard;
    ShardLawful();
    out := REQUEST_MAGIC + ToLE(m.generation, 8);
    out := out + ToLE(|m.shards|, 4);
    assert m.shards[0..] == m.shards;
    for i := 0 to |m.shards|
      invariant out + PutMany(m.shards[i..], PutShard, []) == PutRequest(m, [])
    {
      PutManyStep(out, m.shards, i, PutShard);
      var shard := EncodeShard(m.shards[i]);
      out := out + shard;
    }
    assert PutMany(m.shards[|m.shards|..], PutShard, []) == [] by {
      NothingToPut(m.shards[|m.shards|..], PutShard);
    }
  }

  lemma NothingToPut<T>(xs: seq<T>, put: Writer<T>)
    requires xs == []
    ensures PutMany(xs, put, []) == []
  {
  }

  method EncodeShard(q: WireQuery) returns (out: seq<byte>)
    ensures out == PutShard(q, [])
  {
    hide PutMany, ToLE;
    U64Lawful();
    out := ToLE(q.shardId, 8);
    out := out + ToLE(|q.coefficients|, 4);
    assert q.coefficients[0..] == q.coefficients;
    for i := 0 to |q.coefficients|
      invariant out + PutMany(q.coefficients[i..], PutU64, []) == PutShard(q, [])
    {
      PutManyStep(out, q.coefficients, i, PutU64);
      out := out + ToLE(q.coefficients[i], 8);
    }
    NothingToPut(q.coefficients[|q.coefficients|..], PutU64);
  }

  method DecodeRequest(bytes: seq<byte>) returns (r: Option<EvaluateRequest>)
    ensures r == Decode(bytes, ParseRequest)
  {
    hide ParseU64, ParseMany, ParseInt, Take, ParseShard;
    var input := new ByteCursor(bytes);
    var magic := input.Take(4);
    if magic.None? || magic.value != REQUEST_MAGIC {
      return None;
    }
    var generation := input.TakeU64();
    if generation.None? {
      return None;
    }
    var count := input.TakeInt(4);
    if count.None? || count.value == 0 || count.value > MAX_SHARDS_PER_WORKER {
      return None;
    }
    var shards := DecodeShards(input, count.value);
    if shards.None? || input.offset != |input.bytes| {
      return None;
    }
    return Some(EvaluateRequest(generation.value, shards.value));
  }

  method DecodeShards(input: ByteCursor, count: nat) returns (r: Option<seq<WireQuery>>)
    requires input.Valid()
    modifies input
    ensures input.Valid()
    ensures r.None? <==> ParseMany(old(input.Rest()), count, ParseShard).None?
    ensures r.Some? ==> ParseMany(old(input.Rest()), count, ParseShard) == Some((r.value, input.Rest()))
  {
    hide ParseMany, ParseU64, ParseInt;
    ghost var whole := ParseMany(input.Rest(), count, ParseShard);
    PrependNothing(whole);
    var shards: seq<WireQuery> := [];
    for i := 0 to count
      invariant input.Valid()
      invariant whole == Prepend(shards, ParseMany(input.Rest(), count - i, ParseShard))
    {
      ParseManyStep(input.Rest(), count - i, ParseShard);
      var shardId := input.TakeU64();
      if shardId.None? {
        return None;
      }
      var length := input.TakeInt(4);
      if length.None? {
        return None;
      }
      var coefficients := input.TakeCoefficients(length.value);
      if coefficients.None? {
        return None;
      }
      var shard := WireQuery(shardId.value, coefficients.value);
      PrependStep(shards, shard, ParseMany(input.Rest(), count - i - 1, ParseShard));
      shards := shards + [shard];
    }
    ParseNone(input.Rest(), ParseShard);
    assert shards + [] == shards;
    return Some(shards);
  }

  method DecodeResponse(bytes: seq<byte>) returns (r: Option<EvaluateResponse>)
    ensures r == Decode(bytes, ParseResponse)
  {
    hide ParseU64, ParseMany, ParseInt, Take;
    var input := new ByteCursor(bytes);
    var magic := input.Take(4);
    if magic.None? || magic.value != RESPONSE_MAGIC {
      return None;
    }
    var generation := input.TakeU64();
    if generation.None? {
      return None;
    }
    var count := input.TakeInt(4);
    if count.None? {
      return None;
    }
    var coefficients := input.TakeCoefficients(count.value);
    if coefficients.None? || input.offset != |input.bytes| {
      return None;
    }
    return Some(EvaluateResponse(generation.value, coefficients.value));
  }

  /** Square blocks of the expected count and degree; any other shape is refused before it is read. */
  method DecodeHint(bytes: seq<byte>, expected: nat, degree: nat) returns (r: Option<seq<CrsBlock>>)
    ensures r == Decode(bytes, (s: seq<byte>) => ParseHint(s, expected, degree))
  {
    hide ParseMany, ParseInt, Take, ParseBlock;
    var input := new ByteCursor(bytes);
    var magic := input.Take(4);
    if magic.None? || magic.value != HINT_MAGIC {
      return None;
    }
    var count := input.TakeInt(4);
    if count.None? || count.value != expected {
      return None;
    }
    var blocks := DecodeBlocks(input, expected, degree);
    if blocks.None? || input.offset != |input.bytes| {
      return None;
    }
    return Some(blocks.value);
  }

  method DecodeBlocks(input: ByteCursor, count: nat, degree: nat) returns (r: Option<seq<CrsBlock>>)
    requires input.Valid()
    modifies input
    ensures input.Valid()
    ensures var parse := (s: seq<byte>) => ParseBlock(s, degree);
      && (r.None? <==> ParseMany(old(input.Rest()), count, parse).None?)
      && (r.Some? ==> ParseMany(old(input.Rest()), count, parse) == Some((r.value, input.Rest())))
  {
    hide ParseMany, ParseInt;
    ghost var parse := (s: seq<byte>) => ParseBlock(s, degree);
    ghost var whole := ParseMany(input.Rest(), count, parse);
    PrependNothing(whole);
    var blocks: seq<CrsBlock> := [];
    for i := 0 to count
      invariant input.Valid()
      invariant whole == Prepend(blocks, ParseMany(input.Rest(), count - i, parse))
    {
      ParseManyStep(input.Rest(), count - i, parse);
      var length := input.TakeInt(4);
      if length.None? || length.value != degree {
        return None;
      }
      var rows := DecodeRows(input, degree, degree);
      if rows.None? {
        return None;
      }
      PrependStep(blocks, CrsBlock(rows.value), ParseMany(input.Rest(), count - i - 1, parse));
      blocks := blocks + [CrsBlock(rows.value)];
    }
    ParseNone(input.Rest(), parse);
    assert blocks + [] == blocks;
    return Some(blocks);
  }

  method DecodeRows(input: ByteCursor, count: nat, degree: nat) returns (r: Option<seq<seq<u64>>>)
    requires input.Valid()
    modifies input
    ensures input.Valid()
    ensures var parse := (s: seq<byte>) => ParseRow(s, degree);
      && (r.None? <==> ParseMany(old(input.Rest()), count, parse).None?)
      && (r.Some? ==> ParseMany(old(input.Rest()), count, parse) == Some((r.value, input.Rest())))
  {
    hide ParseMany, ParseInt, ParseU64;
    ghost var parse := (s: seq<byte>) => ParseRow(s, degree);
    ghost var whole := ParseMany(input.Rest(), count, parse);
    PrependNothing(whole);
    var rows: seq<seq<u64>> := [];
    for i := 0 to count
      invariant input.Valid()
      invariant whole == Prepend(rows, ParseMany(input.Rest(), count - i, parse))
    {
      ParseManyStep(input.Rest(), count - i, parse);
      var length := input.TakeInt(4);
      if length.None? || length.value != degree {
        return None;
      }
      var row := input.TakeCoefficients(degree);
      if row.None? {
        return None;
      }
      PrependStep(rows, row.value, ParseMany(input.Rest(), count - i - 1, parse));
      rows := rows + [row.value];
    }
    ParseNone(input.Rest(), parse);
    assert rows + [] == rows;
    return Some(rows);
  }

  // ---- exactly which bytes are accepted ----

  lemma RequestExactly(bytes: seq<byte>, m: EvaluateRequest)
    ensures Decode(bytes, ParseRequest) == Some(m)
      <==> bytes == PutRequest(m, []) && 1 <= |m.shards| <= 4096 && forall q | q in m.shards :: |q.coefficients| < 0x1_0000_0000
  {
    hide PutRequest, ParseRequest;
    if Decode(bytes, ParseRequest) == Some(m) {
      assert bytes + [] == bytes;
      RequestCanonical(bytes, []);
      RequestIsValid(bytes);
    }
    if bytes == PutRequest(m, []) && 1 <= |m.shards| <= 4096 && forall q | q in m.shards :: |q.coefficients| < 0x1_0000_0000 {
      assert forall i :: 0 <= i < |m.shards| ==> m.shards[i] in m.shards;
      RequestRoundTrip(m);
    }
  }

  lemma RequestIsValid(bytes: seq<byte>)
    requires Decode(bytes, ParseRequest).Some?
    ensures ValidRequest(Decode(bytes, ParseRequest).value)
  {
    RequestLawful();
    PutOfDecode(bytes, PutRequest, ParseRequest, ValidRequest);
  }

  lemma ResponseExactly(bytes: seq<byte>, m: EvaluateResponse)
    ensures Decode(bytes, ParseResponse) == Some(m) <==> bytes == PutResponse(m, []) && |m.coefficients| < 0x1_0000_0000
  {
    hide PutResponse, ParseResponse;
    if Decode(bytes, ParseResponse) == Some(m) {
      assert bytes + [] == bytes;
      ResponseCanonical(bytes, []);
      ResponseIsValid(bytes);
    }
    if bytes == PutResponse(m, []) && |m.coefficients| < 0x1_0000_0000 {
      ResponseRoundTrip(m);
    }
  }

  lemma ResponseIsValid(bytes: seq<byte>)
    requires Decode(bytes, ParseResponse).Some?
    ensures ValidResponse(Decode(bytes, ParseResponse).value)
  {
    ResponseLawful();
    PutOfDecode(bytes, PutResponse, ParseResponse, ValidResponse);
  }

  /** As many blocks as expected, each as many rows of as many words as the degree. */
  ghost predicate OfShape(blocks: seq<CrsBlock>, expected: nat, degree: nat) {
    |blocks| == expected && forall b | b in blocks :: |b.rows| == degree && forall row | row in b.rows :: |row| == degree
  }

  lemma ShapeExactly(blocks: seq<CrsBlock>, expected: nat, degree: nat)
    ensures ValidHint(blocks, expected, degree) <==> OfShape(blocks, expected, degree)
  {
    forall b: CrsBlock
      ensures Square(b, degree) <==> |b.rows| == degree && forall row | row in b.rows :: |row| == degree
    {
      assert forall i :: 0 <= i < |b.rows| ==> b.rows[i] in b.rows;
    }
    assert forall i :: 0 <= i < |blocks| ==> blocks[i] in blocks;
  }

  lemma HintExactly(bytes: seq<byte>, blocks: seq<CrsBlock>, expected: nat, degree: nat)
    requires expected < U32_LIMIT && degree < U32_LIMIT
    ensures Decode(bytes, (s: seq<byte>) => ParseHint(s, expected, degree)) == Some(blocks)
      <==> bytes == PutHint(blocks, []) && OfShape(blocks, expected, degree)
  {
    hide PutHint, ParseHint, OfShape, ValidHint;
    ShapeExactly(blocks, expected, degree);
    if Decode(bytes, (s: seq<byte>) => ParseHint(s, expected, degree)) == Some(blocks) {
      assert bytes + [] == bytes;
      HintCanonical(bytes, [], expected, degree);
      HintLawful(expected, degree);
      PutOfDecode(bytes, PutHint, (s: seq<byte>) => ParseHint(s, expected, degree), (b: seq<CrsBlock>) => ValidHint(b, expected, degree));
    }
    if bytes == PutHint(blocks, []) && OfShape(blocks, expected, degree) {
      HintRoundTrip(blocks, expected, degree);
    }
  }

  // ---- the messages byte by byte ----

  /** The words in eight bytes each, least significant first. */
  ghost function WordBytes(values: seq<u64>): (s: seq<nat>)
    ensures |s| == 8 * |values|
  {
    seq(8 * |values|, j requires 0 <= j < 8 * |values| => values[j / 8] / Pow256(j % 8) % 256)
  }

  lemma EightMore(j: nat)
    ensures (8 + j) / 8 == 1 + j / 8 && (8 + j) % 8 == j % 8
  {
  }

  /** The first word, then the others. */
  lemma WordBytesMore(values: seq<u64>)
    requires values != []
    ensures WordBytes(values)[..8] == ToLE(values[0], 8) && WordBytes(values)[8..] == WordBytes(values[1..])
  {
    hide ToLE, Pow256;
    var s, tail := WordBytes(values), values[1..];
    forall j | 0 <= j < 8
      ensures s[j] == ToLE(values[0], 8)[j]
    {
      DigitOfLE(values[0], 8, j);
    }
    forall j | 0 <= j < 8 * |tail|
      ensures s[8..][j] == WordBytes(tail)[j]
    {
      EightMore(j);
      assert s[8..][j] == s[8 + j] && values[1 + j / 8] == tail[j / 8];
    }
  }

  lemma {:induction false} WordsLayout(values: seq<u64>, rest: seq<byte>)
    ensures PutMany(values, PutU64, rest) == WordBytes(values) + rest
    decreases |values|
  {
    hide ToLE, WordBytes;
    if values == [] {
      assert WordBytes(values) + rest == rest;
    } else {
      WordsLayout(values[1..], rest);
      WordBytesMore(values);
      var s := WordBytes(values);
      assert s == s[..8] + s[8..];
      assert ToLE(values[0], 8) + (s[8..] + rest) == s + rest;
    }
  }

  /** A shard query: number in eight bytes, count in four, then its words. */
  lemma ShardLayout(q: WireQuery, rest: seq<byte>)
    ensures var s := PutShard(q, rest);
      && |s| == 12 + 8 * |q.coefficients| + |rest|
      && s[0..8] == ToLE(q.shardId, 8) && s[8..12] == ToLE(|q.coefficients|, 4)
      && s[12..12 + 8 * |q.coefficients|] == WordBytes(q.coefficients) && s[12 + 8 * |q.coefficients|..] == rest
  {
    hide ToLE, WordBytes;
    WordsLayout(q.coefficients, rest);
  }

  /** A request: "MPQ1", generation in eight bytes, shard count in four, then the shards one after the other. */
  lemma RequestLayout(m: EvaluateRequest)
    ensures var s := PutRequest(m, []);
      && |s| >= 16 && s[0..4] == [0x4d, 0x50, 0x51, 0x31] && s[4..12] == ToLE(m.generation, 8) && s[12..16] == ToLE(|m.shards|, 4)
      && s[16..] == PutMany(m.shards, PutShard, [])
    ensures m.shards != [] ==> PutMany(m.shards, PutShard, []) == PutShard(m.shards[0], PutMany(m.shards[1..], PutShard, []))
  {
    hide ToLE;
  }

  /** A response: "MPR1", generation in eight bytes, count in four, then the words. */
  lemma ResponseLayout(m: EvaluateResponse)
    ensures var s := PutResponse(m, []);
      && |s| == 16 + 8 * |m.coefficients| && s[0..4] == [0x4d, 0x50, 0x52, 0x31]
      && s[4..12] == ToLE(m.generation, 8) && s[12..16] == ToLE(|m.coefficients|, 4) && s[16..] == WordBytes(m.coefficients)
  {
    hide ToLE, WordBytes;
    WordsLayout(m.coefficients, []);
  }

  /** A hint: "MPH1", block count in four bytes; a block: row count in four bytes, and rows as counted words. */
  lemma HintLayout(blocks: seq<CrsBlock>)
    ensures var s := PutHint(blocks, []);
      |s| >= 8 && s[0..4] == [0x4d, 0x50, 0x48, 0x31] && s[4..8] == ToLE(|blocks|, 4) && s[8..] == PutMany(blocks, PutBlock, [])
  {
    hide ToLE, PutMany;
  }

  lemma BlockLayout(b: CrsBlock, rest: seq<byte>)
    ensures var s := PutBlock(b, rest);
      |s| >= 4 && s[0..4] == ToLE(|b.rows|, 4) && s[4..] == PutMany(b.rows, PutVector, rest)
    ensures b.rows != [] ==>
      var row := b.rows[0];
      var s := PutVector(row, rest);
      |s| == 4 + 8 * |row| + |rest| && s[0..4] == ToLE(|row|, 4) && s[4..4 + 8 * |row|] == WordBytes(row) && s[4 + 8 * |row|..] == rest
  {
    hide ToLE, WordBytes;
    if b.rows != [] {
      WordsLayout(b.rows[0], rest);
    }
  }
}
