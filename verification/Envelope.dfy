/** The range-delivery envelope. */
module Envelope {
  import opened Bytes
  import opened Results
  import opened Chain
  import opened Cursor
  import opened Codec

  const ENVELOPE_VERSION: u16 := 1
  const MAX_RECORDS_PER_BATCH: nat := 1_000
  const MAX_BATCH_BYTES: nat := 64 * 1024 * 1024
  const MAX_PROFILE_BYTES: nat := 64
  /** Height, hash and the shortest length field. */
  const MIN_RECORD_BYTES: nat := 41

  /** "ZTFB". */
  const MAGIC: seq<byte> := [0x5a, 0x54, 0x46, 0x42]

  datatype FilterRecord = FilterRecord(height: u64, blockHash: BlockHash, filter: seq<byte>)

  datatype FilterBatch = FilterBatch(
    version: u16,
    genesis: BlockHash,
    profile: seq<byte>,
    startHeight: u64,
    stopBlockHash: BlockHash,
    records: seq<FilterRecord>)

  predicate Continuation(b: byte) {
    0x80 <= b <= 0xbf
  }

  /** Well-formed UTF-8, by the byte ranges of the Unicode standard's table 3-7. */
  predicate ValidUtf8(s: seq<byte>) {
    if s == [] then true
    else if s[0] <= 0x7f then ValidUtf8(s[1..])
    else if 0xc2 <= s[0] <= 0xdf then |s| >= 2 && Continuation(s[1]) && ValidUtf8(s[2..])
    else if 0xe0 <= s[0] <= 0xef then
      && |s| >= 3 && Continuation(s[1]) && Continuation(s[2])
      && (s[0] == 0xe0 ==> s[1] >= 0xa0) && (s[0] == 0xed ==> s[1] <= 0x9f)
      && ValidUtf8(s[3..])
    else if 0xf0 <= s[0] <= 0xf4 then
      && |s| >= 4 && Continuation(s[1]) && Continuation(s[2]) && Continuation(s[3])
      && (s[0] == 0xf0 ==> s[1] >= 0x90) && (s[0] == 0xf4 ==> s[1] <= 0x8f)
      && ValidUtf8(s[4..])
    else false
  }

  function PutRecord(r: FilterRecord, rest: seq<byte>): (s: seq<byte>) {
    PutU64(r.height, r.blockHash + (Length(|r.filter|) + (r.filter + rest)))
  }

  function ParseRecord(s: seq<byte>): (r: Option<(FilterRecord, seq<byte>)>) {
    var (height, s1) :- ParseU64(s);
    var (blockHash, s2) :- Take(s1, HASH_BYTES);
    var (length, s3) :- ParseCompact(s2);
    if length > |s3| then None
    else
      var (filter, rest) :- Take(s3, length);
      Some((FilterRecord(height, blockHash, filter), rest))
  }

  predicate ValidRecord(r: FilterRecord) {
    |r.filter| < U64_LIMIT
  }

  function PutBatch(b: FilterBatch, rest: seq<byte>): (s: seq<byte>) {
    MAGIC + (ToLE(b.version, 2) + (b.genesis + (Length(|b.profile|) + (b.profile + PutRange(b, rest)))))
  }

  function PutRange(b: FilterBatch, rest: seq<byte>): (s: seq<byte>) {
    PutU64(b.startHeight, b.stopBlockHash + (Length(|b.records|) + PutMany(b.records, PutRecord, rest)))
  }

  function ParseBatch(s: seq<byte>): (r: Option<(FilterBatch, seq<byte>)>) {
    var (magic, s1) :- Take(s, 4);
    if magic != MAGIC then None else
    var (version, s2) :- ParseInt(s1, 2);
    if version != ENVELOPE_VERSION then None else
    var (genesis, s3) :- Take(s2, HASH_BYTES);
    var (profileLength, s4) :- ParseCompact(s3);
    if profileLength > MAX_PROFILE_BYTES then None else
    var (profile, s5) :- Take(s4, profileLength);
    if !ValidUtf8(profile) then None else
    ParseRange(FilterBatch(version, genesis, profile, 0, genesis, []), s5)
  }

  /** The range fields and the records of a batch whose header has been read. */
  function ParseRange(header: FilterBatch, s5: seq<byte>): (r: Option<(FilterBatch, seq<byte>)>) {
    var (startHeight, s6) :- ParseU64(s5);
    var (stop, s7) :- Take(s6, HASH_BYTES);
    var (count, s8) :- ParseCompact(s7);
    if count > MAX_RECORDS_PER_BATCH || count * MIN_RECORD_BYTES > |s8| then None else
    var (records, rest) :- ParseMany(s8, count, ParseRecord);
    Some((header.(startHeight := startHeight, stopBlockHash := stop, records := records), rest))
  }

  predicate ValidBatch(b: FilterBatch) {
    && b.version == ENVELOPE_VERSION
    && |b.profile| <= MAX_PROFILE_BYTES && ValidUtf8(b.profile)
    && |b.records| <= MAX_RECORDS_PER_BATCH && AllValid(b.records, ValidRecord)
  }

  lemma RecordLawful()
    ensures Lawful(PutRecord, ParseRecord, ValidRecord)
    ensures Appends(PutRecord)
  {
    hide ParseU64, PutU64, ParseCompact, Length, Take;
    U64Lawful();
    forall r: FilterRecord, rest | ValidRecord(r)
      ensures ParseRecord(PutRecord(r, rest)) == Some((r, rest))
    {
      TakeOfPut(r.blockHash, Length(|r.filter|) + (r.filter + rest));
      ParseOfLength(|r.filter|, r.filter + rest);
      TakeOfPut(r.filter, rest);
    }
    forall s | ParseRecord(s).Some?
      ensures ValidRecord(ParseRecord(s).value.0)
      ensures s == PutRecord(ParseRecord(s).value.0, ParseRecord(s).value.1)
    {
      var (height, s1) := ParseU64(s).value;
      var (hash, s2) := Take(s1, HASH_BYTES).value;
      var (length, s3) := ParseCompact(s2).value;
      PutOfTake(s1, HASH_BYTES);
      LengthOfParse(s2);
      PutOfTake(s3, length);
    }
    forall r: FilterRecord, rest
      ensures PutRecord(r, rest) == PutRecord(r, []) + rest
    {
      RecordAppends(r, rest);
    }
  }

  lemma RecordAppends(r: FilterRecord, rest: seq<byte>)
    ensures PutRecord(r, rest) == PutRecord(r, []) + rest
  {
    hide Length, ToLE;
    assert r.filter + [] == r.filter;
  }

  lemma {:induction false} RecordsLength(records: seq<FilterRecord>, rest: seq<byte>)
    ensures |PutMany(records, PutRecord, rest)| >= MIN_RECORD_BYTES * |records| + |rest|
  {
    if records != [] {
      RecordsLength(records[1..], rest);
    }
  }

  /** The envelope format is lawful: every valid batch is read back, every accepted one rewritten. */
  lemma BatchLawful()
    ensures Lawful(PutBatch, ParseBatch, ValidBatch)
    ensures Appends(PutBatch)
  {
    forall b: FilterBatch, rest | ValidBatch(b)
      ensures ParseBatch(PutBatch(b, rest)) == Some((b, rest))
    {
      ParsePutBatch(b, rest);
    }
    forall s | ParseBatch(s).Some?
      ensures ValidBatch(ParseBatch(s).value.0)
      ensures s == PutBatch(ParseBatch(s).value.0, ParseBatch(s).value.1)
    {
      PutParseBatch(s);
    }
    forall b: FilterBatch, rest
      ensures PutBatch(b, rest) == PutBatch(b, []) + rest
    {
      BatchAppends(b, rest);
    }
  }

  lemma ParsePutBatch(b: FilterBatch, rest: seq<byte>)
    requires ValidBatch(b)
    ensures ParseBatch(PutBatch(b, rest)) == Some((b, rest))
  {
    hide ParseU64, PutU64, ParseCompact, Length, Take, ParseInt, ToLE, ValidUtf8, PutRange, ParseRange;
    Pow256Values();
    var s5 := PutRange(b, rest);
    var s4 := b.profile + s5;
    var s3 := Length(|b.profile|) + s4;
    var s2 := b.genesis + s3;
    TakeOfPut(MAGIC, ToLE(b.version, 2) + s2);
    ParseOfPutInt(b.version, 2, s2);
    TakeOfPut(b.genesis, s3);
    ParseOfLength(|b.profile|, s4);
    TakeOfPut(b.profile, s5);
    ParsePutRange(b, FilterBatch(b.version, b.genesis, b.profile, 0, b.genesis, []), rest);
  }

  lemma ParsePutRange(b: FilterBatch, header: FilterBatch, rest: seq<byte>)
    requires ValidBatch(b)
    ensures ParseRange(header, PutRange(b, rest)) ==
      Some((header.(startHeight := b.startHeight, stopBlockHash := b.stopBlockHash, records := b.records), rest))
  {
    hide ParseU64, PutU64, ParseCompact, Length, Take, PutMany, ParseMany, ValidUtf8;
    U64Lawful();
    var s8 := PutMany(b.records, PutRecord, rest);
    TakeOfPut(b.stopBlockHash, Length(|b.records|) + s8);
    ParseOfLength(|b.records|, s8);
    RecordsLength(b.records, rest);
    RecordLawful();
    ParseOfPutMany(b.records, rest, PutRecord, ParseRecord, ValidRecord);
  }

  lemma PutParseBatch(s: seq<byte>)
    requires ParseBatch(s).Some?
    ensures ValidBatch(ParseBatch(s).value.0)
    ensures s == PutBatch(ParseBatch(s).value.0, ParseBatch(s).value.1)
  {
    hide ParseU64, PutU64, ParseCompact, Length, Take, ParseInt, ToLE, ValidUtf8, PutRange, ParseRange;
    Pow256Values();
    var (magic, s1) := Take(s, 4).value;
    var (version, s2) := ParseInt(s1, 2).value;
    var (genesis, s3) := Take(s2, HASH_BYTES).value;
    var (profileLength, s4) := ParseCompact(s3).value;
    var (profile, s5) := Take(s4, profileLength).value;
    PutOfTake(s, 4);
    PutOfParseInt(s1, 2);
    PutOfTake(s2, HASH_BYTES);
    LengthOfParse(s3);
    PutOfTake(s4, profileLength);
    PutParseRange(FilterBatch(version, genesis, profile, 0, genesis, []), s5);
  }

  lemma PutParseRange(header: FilterBatch, s: seq<byte>)
    requires ParseRange(header, s).Some?
    ensures var (b, rest) := ParseRange(header, s).value;
      && b == header.(startHeight := b.startHeight, stopBlockHash := b.stopBlockHash, records := b.records)
      && |b.records| <= MAX_RECORDS_PER_BATCH && AllValid(b.records, ValidRecord)
      && s == PutRange(b, rest)
  {
    hide ParseU64, PutU64, ParseCompact, Length, Take, PutMany, ParseMany;
    U64Lawful();
    var (startHeight, s6) := ParseU64(s).value;
    var (stop, s7) := Take(s6, HASH_BYTES).value;
    var (count, s8) := ParseCompact(s7).value;
    PutOfTake(s6, HASH_BYTES);
    LengthOfParse(s7);
    RecordLawful();
    PutOfParseMany(s8, count, PutRecord, ParseRecord, ValidRecord);
  }

  lemma BatchAppends(b: FilterBatch, rest: seq<byte>)
    ensures PutBatch(b, rest) == PutBatch(b, []) + rest
  {
    hide Length, ToLE, PutMany;
    RecordLawful();
    PutManyAppends(b.records, PutRecord, rest);
  }

  /** Decoding applies the size limit first. */
  function DecodeBatch(bytes: seq<byte>): (r: Option<FilterBatch>) {
    if |bytes| > MAX_BATCH_BYTES then None else Decode(bytes, ParseBatch)
  }

  /** Every batch within the limits survives the trip. */
  lemma BatchRoundTrip(b: FilterBatch)
    requires ValidBatch(b) && |PutBatch(b, [])| <= MAX_BATCH_BYTES
    ensures DecodeBatch(PutBatch(b, [])) == Some(b)
  {
    BatchLawful();
    DecodeOfPut(b, PutBatch, ParseBatch, ValidBatch);
  }

  /** An accepted envelope is the one encoding of its batch, and no proper prefix of it is accepted. */
  lemma BatchCanonical(head: seq<byte>, tail: seq<byte>)
    requires DecodeBatch(head + tail).Some?
    ensures ValidBatch(DecodeBatch(head + tail).value)
    ensures PutBatch(DecodeBatch(head + tail).value, []) == head + tail
    ensures tail != [] ==> DecodeBatch(head).None?
  {
    BatchLawful();
    PutOfDecode(head + tail, PutBatch, ParseBatch, ValidBatch);
    if DecodeBatch(head).Some? {
      PrefixFree(head, tail, PutBatch, ParseBatch, ValidBatch);
    }
  }

  /** The encoder: one growing buffer. */
  method Encode(b: FilterBatch) returns (out: seq<byte>)
    ensures out == PutBatch(b, [])
  {
    hide Length, ToLE, PutMany, PutRecord;
    out := MAGIC;
    out := out + ToLE(b.version, 2);
    out := out + b.genesis;
    out := out + Length(|b.profile|);
    out := out + b.profile;
    out := out + ToLE(b.startHeight, 8);
    out := out + b.stopBlockHash;
    out := out + Length(|b.records|);
    assert out + PutMany(b.records, PutRecord, []) == PutBatch(b, []);
    var records := EncodeRecords(b.records);
    out := out + records;
  }

  method EncodeRecords(records: seq<FilterRecord>) returns (out: seq<byte>)
    ensures out == PutMany(records, PutRecord, [])
  {
    hide Length, ToLE, PutMany, PutRecord;
    RecordLawful();
    out := [];
    assert records[0..] == records;
    for i := 0 to |records|
      invariant out + PutMany(records[i..], PutRecord, []) == PutMany(records, PutRecord, [])
    {
      PutManyStep(out, records, i, PutRecord);
      ExtendByRecord(out, records[i]);
      out := out + ToLE(records[i].height, 8);
      out := out + records[i].blockHash;
      out := out + Length(|records[i].filter|);
      out := out + records[i].filter;
    }
    PutNone(records[|records|..]);
  }

  lemma ExtendByRecord(out: seq<byte>, r: FilterRecord)
    ensures out + ToLE(r.height, 8) + r.blockHash + Length(|r.filter|) + r.filter == out + PutRecord(r, [])
  {
    hide Length, ToLE;
  }

  lemma PutNone(records: seq<FilterRecord>)
    requires records == []
    ensures PutMany(records, PutRecord, []) == []
  {
  }

  /** The decoder, field by field. */
  method DecodeEnvelope(bytes: seq<byte>) returns (r: Option<FilterBatch>)
    ensures r == DecodeBatch(bytes)
    ensures forall b :: r == Some(b) <==> Sendable(b, bytes)
  {
    hide Sendable, DecodeBatch;
    r := ReadEnvelope(bytes);
    forall b
      ensures r == Some(b) <==> Sendable(b, bytes)
    {
      DecodedExactly(bytes, b);
    }
  }

  method ReadEnvelope(bytes: seq<byte>) returns (r: Option<FilterBatch>)
    ensures r == DecodeBatch(bytes)
  {
    hide ParseU64, ParseCompact, Take, ParseInt, ValidUtf8, ParseRange;
    if |bytes| > MAX_BATCH_BYTES {
      return None;
    }
    var reader := new ByteCursor(bytes);
    var magic := reader.Take(4);
    if magic.None? || magic.value != MAGIC {
      return None;
    }
    var version := reader.TakeInt(2);
    if version.None? || version.value != ENVELOPE_VERSION {
      return None;
    }
    var genesis := reader.Take(HASH_BYTES);
    if genesis.None? {
      return None;
    }
    var profileLength := reader.TakeCompact();
    if profileLength.None? || profileLength.value > MAX_PROFILE_BYTES {
      return None;
    }
    var profile := reader.Take(profileLength.value);
    if profile.None? || !ValidUtf8(profile.value) {
      return None;
    }
    r := DecodeRange(reader, FilterBatch(version.value, genesis.value, profile.value, 0, genesis.value, []));
  }

  method DecodeRange(reader: ByteCursor, header: FilterBatch) returns (r: Option<FilterBatch>)
    requires reader.Valid()
    modifies reader
    ensures var parsed := ParseRange(header, old(reader.Rest()));
      r == if parsed.Some? && parsed.value.1 == [] then Some(parsed.value.0) else None
  {
    hide ParseU64, ParseCompact, Take, ParseMany, ParseRecord;
    var startHeight := reader.TakeU64();
    if startHeight.None? {
      return None;
    }
    var stop := reader.Take(HASH_BYTES);
    if stop.None? {
      return None;
    }
    var count := reader.TakeCompact();
    if count.None? || count.value > MAX_RECORDS_PER_BATCH {
      return None;
    }
    if count.value * MIN_RECORD_BYTES > |reader.bytes| - reader.offset {
      return None;
    }
    var records := DecodeRecords(reader, count.value);
    if records.None? {
      return None;
    }
    if |reader.bytes| - reader.offset != 0 {
      return None;
    }
    return Some(header.(startHeight := startHeight.value, stopBlockHash := stop.value, records := records.value));
  }

  method DecodeRecords(reader: ByteCursor, count: nat) returns (r: Option<seq<FilterRecord>>)
    requires reader.Valid()
    modifies reader
    ensures reader.Valid()
    ensures r.None? <==> ParseMany(old(reader.Rest()), count, ParseRecord).None?
    ensures r.Some? ==> ParseMany(old(reader.Rest()), count, ParseRecord) == Some((r.value, reader.Rest()))
  {
    hide ParseMany, ParseRecord;
    ghost var whole := ParseMany(reader.Rest(), count, ParseRecord);
    PrependNothing(whole);
    var records: seq<FilterRecord> := [];
    for i := 0 to count
      invariant reader.Valid()
      invariant whole == Prepend(records, ParseMany(reader.Rest(), count - i, ParseRecord))
    {
      ParseManyStep(reader.Rest(), count - i, ParseRecord);
      var record := DecodeRecord(reader);
      if record.None? {
        return None;
      }
      PrependStep(records, record.value, ParseMany(reader.Rest(), count - i - 1, ParseRecord));
      records := records + [record.value];
    }
    ParseNone(reader.Rest(), ParseRecord);
    assert records + [] == records;
    return Some(records);
  }

  method DecodeRecord(reader: ByteCursor) returns (r: Option<FilterRecord>)
    requires reader.Valid()
    modifies reader
    ensures reader.Valid()
    ensures r.None? <==> ParseRecord(old(reader.Rest())).None?
    ensures r.Some? ==> ParseRecord(old(reader.Rest())) == Some((r.value, reader.Rest()))
  {
    hide ParseU64, ParseCompact, Take;
    var height := reader.TakeU64();
    if height.None? {
      return None;
    }
    var blockHash := reader.Take(HASH_BYTES);
    if blockHash.None? {
      return None;
    }
    var length := reader.TakeCompact();
    if length.None? || length.value > |reader.bytes| - reader.offset {
      return None;
    }
    var filter := reader.Take(length.value);
    if filter.None? {
      return None;
    }
    return Some(FilterRecord(height.value, blockHash.value, filter.value));
  }

  // ---- exactly which bytes are accepted ----

  /** The limits of the format: version one, 64 bytes of profile text, 1000 records, 64 MiB. */
  ghost predicate Sendable(b: FilterBatch, bytes: seq<byte>) {
    && bytes == PutBatch(b, []) && |bytes| <= 67_108_864 && b.version == 1
    && |b.profile| <= 64 && ValidUtf8(b.profile)
    && |b.records| <= 1000 && forall r | r in b.records :: |r.filter| < 0x1_0000_0000_0000_0000
  }

  /** Bytes decode to a batch exactly when they are its encoding and it keeps the limits. */
  lemma DecodedExactly(bytes: seq<byte>, b: FilterBatch)
    ensures DecodeBatch(bytes) == Some(b) <==> Sendable(b, bytes)
  {
    hide PutBatch, ParseBatch, ValidUtf8;
    if DecodeBatch(bytes) == Some(b) {
      assert bytes + [] == bytes;
      BatchCanonical(bytes, []);
    }
    if Sendable(b, bytes) {
      assert forall i :: 0 <= i < |b.records| ==> b.records[i] in b.records;
      BatchRoundTrip(b);
    }
  }

  // ---- the envelope byte by byte ----

  /** A record: height in eight bytes, block hash, compact length, filter. */
  lemma RecordLayout(r: FilterRecord, rest: seq<byte>)
    requires |r.filter| < U64_LIMIT
    ensures var s, l := PutRecord(r, rest), |CompactSize.Encode(|r.filter|)|;
      && |s| == 40 + l + |r.filter| + |rest| && s[0..8] == ToLE(r.height, 8) && s[8..40] == r.blockHash
      && s[40..40 + l] == CompactSize.Encode(|r.filter|) && s[40 + l..40 + l + |r.filter|] == r.filter
      && s[40 + l + |r.filter|..] == rest
  {
    hide ToLE, CompactSize.Encode;
  }

  /** An envelope: "ZTFB", version, genesis, counted profile, start height, stop hash, counted records. */
  lemma BatchLayout(b: FilterBatch)
    requires |b.profile| < U64_LIMIT && |b.records| < U64_LIMIT
    ensures var s, l, n := PutBatch(b, []), |CompactSize.Encode(|b.profile|)|, |CompactSize.Encode(|b.records|)|;
      var at := 38 + l + |b.profile|;
      && |s| >= at + 40 + n && s[0..4] == [0x5a, 0x54, 0x46, 0x42] && s[4..6] == ToLE(b.version, 2) && s[6..38] == b.genesis
      && s[38..38 + l] == CompactSize.Encode(|b.profile|) && s[38 + l..at] == b.profile
      && s[at..at + 8] == ToLE(b.startHeight, 8) && s[at + 8..at + 40] == b.stopBlockHash
      && s[at + 40..at + 40 + n] == CompactSize.Encode(|b.records|) && s[at + 40 + n..] == PutMany(b.records, PutRecord, [])
  {
    hide ToLE, CompactSize.Encode, PutMany, PutRange;
    var l := |CompactSize.Encode(|b.profile|)|;
    var s := PutBatch(b, []);
    assert s[38 + l + |b.profile|..] == PutRange(b, []);
    RangeLayout(b, s, 38 + l + |b.profile|);
  }

  lemma RangeLayout(b: FilterBatch, s: seq<byte>, at: nat)
    requires |b.records| < U64_LIMIT && at <= |s| && s[at..] == PutRange(b, [])
    ensures var n := |CompactSize.Encode(|b.records|)|;
      && |s| >= at + 40 + n && s[at..at + 8] == ToLE(b.startHeight, 8) && s[at + 8..at + 40] == b.stopBlockHash
      && s[at + 40..at + 40 + n] == CompactSize.Encode(|b.records|) && s[at + 40 + n..] == PutMany(b.records, PutRecord, [])
  {
    hide ToLE, CompactSize.Encode, PutMany;
    var tail, n := s[at..], |CompactSize.Encode(|b.records|)|;
    assert tail == ToLE(b.startHeight, 8) + (b.stopBlockHash + (CompactSize.Encode(|b.records|) + PutMany(b.records, PutRecord, [])));
    FourParts(ToLE(b.startHeight, 8), b.stopBlockHash, CompactSize.Encode(|b.records|), PutMany(b.records, PutRecord, []));
    SliceOfTail(s, at, 0, 8);
    SliceOfTail(s, at, 8, 40);
    SliceOfTail(s, at, 40, 40 + n);
    assert s[at + 40 + n..] == tail[40 + n..];
  }

  lemma FourParts(a: seq<byte>, b: seq<byte>, c: seq<byte>, d: seq<byte>)
    ensures var s := a + (b + (c + d));
      && s[0..|a|] == a && s[|a|..|a| + |b|] == b && s[|a| + |b|..|a| + |b| + |c|] == c && s[|a| + |b| + |c|..] == d
  {
  }

  lemma SliceOfTail(s: seq<byte>, at: nat, from: nat, to: nat)
    requires at <= |s| && from <= to <= |s| - at
    ensures s[at + from..at + to] == s[at..][from..to]
  {
  }

  // ---- what UTF-8 is ----

  /** A Unicode scalar value in its one to four bytes (section 3 of RFC 3629). */
  ghost function ScalarBytes(c: nat): (s: seq<byte>)
    requires c < 0x11_0000
    ensures s != []
  {
    if c < 0x80 then [c]
    else if c < 0x800 then [0xc0 + c / 0x40, 0x80 + c % 0x40]
    else if c < 0x1_0000 then [0xe0 + c / 0x1000, 0x80 + c / 0x40 % 0x40, 0x80 + c % 0x40]
    else [0xf0 + c / 0x4_0000, 0x80 + c / 0x1000 % 0x40, 0x80 + c / 0x40 % 0x40, 0x80 + c % 0x40]
  }

  ghost predicate Scalar(c: nat) {
    c < 0xd800 || 0xe000 <= c < 0x11_0000
  }

  ghost predicate Scalars(text: seq<nat>) {
    forall i :: 0 <= i < |text| ==> Scalar(text[i])
  }

  ghost function TextBytes(text: seq<nat>): (s: seq<byte>)
    requires Scalars(text)
  {
    if text == [] then [] else ScalarBytes(text[0]) + TextBytes(text[1..])
  }

  lemma {:induction false} TextIsValid(text: seq<nat>)
    requires Scalars(text)
    ensures ValidUtf8(TextBytes(text))
  {
    hide ScalarBytes;
    if text != [] {
      TextIsValid(text[1..]);
      OneMoreScalar(text[0], TextBytes(text[1..]));
    }
  }

  lemma OneMoreScalar(c: nat, rest: seq<byte>)
    requires Scalar(c)
    ensures ValidUtf8(ScalarBytes(c) + rest) <==> ValidUtf8(rest)
  {
    var s, n := ScalarBytes(c) + rest, |ScalarBytes(c)|;
    assert s[n..] == rest;
  }

  lemma TwoDigits(x: nat, b: nat)
    requires b < 0x40
    ensures (x * 0x40 + b) / 0x40 == x && (x * 0x40 + b) % 0x40 == b
  {
  }

  lemma ThreeDigits(x: nat, b: nat, d: nat)
    requires b < 0x40 && d < 0x40
    ensures var c := x * 0x1000 + b * 0x40 + d; c / 0x1000 == x && c / 0x40 % 0x40 == b && c % 0x40 == d
  {
    TwoDigits(x * 0x40 + b, d);
    TwoDigits(x, b);
  }

  lemma FourDigits(x: nat, b: nat, d: nat, e: nat)
    requires b < 0x40 && d < 0x40 && e < 0x40
    ensures var c := x * 0x4_0000 + b * 0x1000 + d * 0x40 + e;
      c / 0x4_0000 == x && c / 0x1000 % 0x40 == b && c / 0x40 % 0x40 == d && c % 0x40 == e
  {
    ThreeDigits(x * 0x40 + b, d, e);
    TwoDigits(x, b);
  }

  lemma FirstOfTwo(s: seq<byte>) returns (c: nat)
    requires |s| >= 2 && 0xc2 <= s[0] <= 0xdf && Continuation(s[1])
    ensures Scalar(c) && ScalarBytes(c) == s[..2]
  {
    var a: int, b: int := s[0] - 0xc0, s[1] - 0x80;
    TwoDigits(a, b);
    c := a * 0x40 + b;
  }

  lemma FirstOfThree(s: seq<byte>) returns (c: nat)
    requires |s| >= 3 && 0xe0 <= s[0] <= 0xef && Continuation(s[1]) && Continuation(s[2])
    requires (s[0] == 0xe0 ==> s[1] >= 0xa0) && (s[0] == 0xed ==> s[1] <= 0x9f)
    ensures Scalar(c) && ScalarBytes(c) == s[..3]
  {
    var a: int, b: int, d: int := s[0] - 0xe0, s[1] - 0x80, s[2] - 0x80;
    ThreeDigits(a, b, d);
    c := a * 0x1000 + b * 0x40 + d;
  }

  lemma FirstOfFour(s: seq<byte>) returns (c: nat)
    requires |s| >= 4 && 0xf0 <= s[0] <= 0xf4 && Continuation(s[1]) && Continuation(s[2]) && Continuation(s[3])
    requires (s[0] == 0xf0 ==> s[1] >= 0x90) && (s[0] == 0xf4 ==> s[1] <= 0x8f)
    ensures Scalar(c) && ScalarBytes(c) == s[..4]
  {
    var a: int, b: int, d: int, e: int := s[0] - 0xf0, s[1] - 0x80, s[2] - 0x80, s[3] - 0x80;
    FourDigits(a, b, d, e);
    c := a * 0x4_0000 + b * 0x1000 + d * 0x40 + e;
  }

  /** The scalar at the head of valid bytes. */
  lemma FirstScalar(s: seq<byte>) returns (c: nat)
    requires s != [] && ValidUtf8(s)
    ensures Scalar(c) && ScalarBytes(c) <= s
  {
    if s[0] <= 0x7f {
      c := s[0];
    } else if s[0] <= 0xdf {
      c := FirstOfTwo(s);
    } else if s[0] <= 0xef {
      c := FirstOfThree(s);
    } else {
      c := FirstOfFour(s);
    }
  }

  lemma {:induction false} ValidIsText(s: seq<byte>) returns (text: seq<nat>)
    requires ValidUtf8(s)
    ensures Scalars(text) && TextBytes(text) == s
    decreases |s|
  {
    hide ScalarBytes;
    if s == [] {
      text := [];
    } else {
      var c := FirstScalar(s);
      var n := |ScalarBytes(c)|;
      assert s == ScalarBytes(c) + s[n..];
      OneMoreScalar(c, s[n..]);
      var tail := ValidIsText(s[n..]);
      text := [c] + tail;
      assert text[1..] == tail;
    }
  }

  /** Bytes pass the check exactly when they are the encoding of some text. */
  lemma Utf8Exactly(s: seq<byte>)
    ensures ValidUtf8(s) <==> exists text :: Scalars(text) && TextBytes(text) == s
  {
    hide ValidUtf8, TextBytes, Scalars;
    if ValidUtf8(s) {
      var text := ValidIsText(s);
    }
    forall text | Scalars(text) && TextBytes(text) == s
      ensures ValidUtf8(s)
    {
      TextIsValid(text);
    }
  }
}
