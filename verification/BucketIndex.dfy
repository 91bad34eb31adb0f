/** The transparent-spend bucket index: entry encoding, table construction, scanning and tiered lookup. */
module BucketIndex {
  import opened Bytes
  import opened Results
  import opened Arithmetic
  import opened Chain
  import opened Sorting
  import opened Journal
  import Positions

  const ENTRY_BYTES: nat := 80
  const BUCKET_CAPACITY: nat := 88
  const ROW_BYTES: nat := 7040
  const SHARD_ROWS: nat := 8192
  const WARM_BLOCKS: nat := 100_000
  const RESERVED_BYTES: nat := 5

  type Txid = BlockHash

  datatype Entry = Entry(txid: Txid, index: u32, spender: Txid, height: u32, transactionIndex: u16)

  datatype LookupError = TooShort | Malformed | Duplicate | BothTiers

  /** First eight bytes of the domain-separated SHA-256 of an outpoint: left uninterpreted. */
  type OutpointHash = (Txid, u32) -> u64

  // ---- entries ----

  function ToBytes(e: Entry): (s: seq<byte>)
    ensures |s| == ENTRY_BYTES && s[0] == 1
  {
    [1] + (e.txid + (ToLE(e.index, 4) + (e.spender + (ToLE(e.height, 4) + (ToLE(e.transactionIndex, 2) + Zeros(RESERVED_BYTES))))))
  }

  function U32(s: seq<byte>): (x: u32)
    requires |s| == 4
  {
    Pow256Values();
    FromLE(s)
  }

  function U16(s: seq<byte>): (x: u16)
    requires |s| == 2
  {
    Pow256Values();
    FromLE(s)
  }

  function FromBytes(s: seq<byte>): (r: Option<Entry>) {
    if |s| != ENTRY_BYTES || s[0] != 1 || s[75..] != Zeros(RESERVED_BYTES) then None
    else Some(Entry(s[1..33], U32(s[33..37]), s[37..69], U32(s[69..73]), U16(s[73..75])))
  }

  lemma ToBytesFields(e: Entry, s: seq<byte>)
    requires s == ToBytes(e)
    ensures s[1..33] == e.txid && s[33..37] == ToLE(e.index, 4) && s[37..69] == e.spender
    ensures s[69..73] == ToLE(e.height, 4) && s[73..75] == ToLE(e.transactionIndex, 2) && s[75..] == Zeros(RESERVED_BYTES)
  {
    hide ToLE, Zeros;
  }

  lemma EntryRoundTrip(e: Entry)
    ensures FromBytes(ToBytes(e)) == Some(e)
  {
    hide ToLE, FromLE, Zeros, ToBytes;
    ToBytesFields(e, ToBytes(e));
    Pow256Values();
    FromToLE(e.index, 4);
    FromToLE(e.height, 4);
    FromToLE(e.transactionIndex, 2);
  }

  /** An accepted slot is the one encoding of its entry. */
  lemma EntryCanonical(s: seq<byte>)
    requires FromBytes(s).Some?
    ensures ToBytes(FromBytes(s).value) == s
  {
    hide ToLE, FromLE, Zeros;
    ToFromLE(s[33..37]);
    ToFromLE(s[69..73]);
    ToFromLE(s[73..75]);
    assert s == [s[0]] + (s[1..33] + (s[33..37] + (s[37..69] + (s[69..73] + (s[73..75] + s[75..])))));
  }

  // ---- buckets ----

  function BucketOf(hash: OutpointHash, txid: Txid, index: u32, buckets: nat): (b: nat)
    requires buckets > 0
    ensures b < buckets
  {
    hash(txid, index) % buckets
  }

  /** Initial bucket count: 55 percent load, at least one shard, a power of two. */
  function BucketCount(entries: nat): (n: nat)
    ensures n >= SHARD_ROWS
    ensures Positions.PowerOfTwo(n)
  {
    var scaled := if entries * 100 >= U64_LIMIT then U64_LIMIT - 1 else entries * 100;
    var needed := (scaled + BUCKET_CAPACITY * 55 - 1) / (BUCKET_CAPACITY * 55);
    var least := if needed > SHARD_ROWS then needed else SHARD_ROWS;
    Positions.NextFromIsPower(least, 0);
    Positions.NextPowerOfTwo(least)
  }

  function InBucket(hash: OutpointHash, entries: seq<Entry>, buckets: nat, b: nat): (r: seq<Entry>)
    requires buckets > 0
  {
    Filter(entries, (e: Entry) => BucketOf(hash, e.txid, e.index, buckets) == b)
  }

  ghost predicate Fits(hash: OutpointHash, entries: seq<Entry>, buckets: nat)
    requires buckets > 0
  {
    forall b :: 0 <= b < buckets ==> |InBucket(hash, entries, buckets, b)| <= BUCKET_CAPACITY
  }

  /** The first bucket count, doubling from `buckets`, at which no bucket overflows. */
  ghost function FirstFit(hash: OutpointHash, entries: seq<Entry>, buckets: nat): (r: Option<nat>)
    requires buckets > 0
    ensures r.Some? ==> r.value >= buckets && Fits(hash, entries, r.value)
    decreases U64_LIMIT - buckets
  {
    if Fits(hash, entries, buckets) then Some(buckets)
    else if buckets * 2 >= U64_LIMIT then None
    else FirstFit(hash, entries, buckets * 2)
  }

  const EMPTY_SLOT: seq<byte> := Zeros(ENTRY_BYTES)

  type Slots = seq<seq<byte>>

  /** A built table: one row of 88 slots per bucket. */
  datatype Table = Table(rows: seq<Slots>)

  /** The bytes of one row, as a client decodes them. */
  function RowBytes(slots: Slots): (s: seq<byte>) {
    Flat(slots)
  }

  /** Slots hold a bucket's entries in log order, then zeros. */
  ghost predicate Holds(slots: Slots, entries: seq<Entry>) {
    && |entries| <= |slots| == BUCKET_CAPACITY
    && (forall i :: 0 <= i < |entries| ==> slots[i] == ToBytes(entries[i]))
    && (forall i :: |entries| <= i < |slots| ==> slots[i] == EMPTY_SLOT)
  }

  ghost predicate Indexes(hash: OutpointHash, entries: seq<Entry>, t: Table) {
    && |t.rows| > 0
    && forall b :: 0 <= b < |t.rows| ==> Holds(t.rows[b], InBucket(hash, entries, |t.rows|, b))
  }

  lemma InBucketGrows(hash: OutpointHash, entries: seq<Entry>, i: nat, buckets: nat, b: nat)
    requires i < |entries| && buckets > 0
    ensures InBucket(hash, entries[..i + 1], buckets, b)
      == InBucket(hash, entries[..i], buckets, b)
         + if BucketOf(hash, entries[i].txid, entries[i].index, buckets) == b then [entries[i]] else []
  {
    var p := (e: Entry) => BucketOf(hash, e.txid, e.index, buckets) == b;
    assert entries[..i + 1] == entries[..i] + [entries[i]];
    FilterAppend(entries[..i], [entries[i]], p);
    assert [entries[i]][1..] == [];
  }

  lemma {:induction false} InBucketMonotone(hash: OutpointHash, entries: seq<Entry>, i: nat, buckets: nat, b: nat)
    requires i <= |entries| && buckets > 0
    ensures |InBucket(hash, entries[..i], buckets, b)| <= |InBucket(hash, entries, buckets, b)|
  {
    var p := (e: Entry) => BucketOf(hash, e.txid, e.index, buckets) == b;
    assert entries == entries[..i] + entries[i..];
    FilterAppend(entries[..i], entries[i..], p);
  }

  /** One pass over the log; stops at the first bucket that is already full. */
  method FillBuckets(hash: OutpointHash, entries: seq<Entry>, buckets: nat) returns (r: Option<Table>)
    requires buckets > 0
    ensures r.Some? <==> Fits(hash, entries, buckets)
    ensures r.Some? ==> |r.value.rows| == buckets && Indexes(hash, entries, r.value)
  {
    hide InBucket, ToBytes, Zeros, BucketOf;
    var empty: Slots := seq(BUCKET_CAPACITY, _ => EMPTY_SLOT);
    var rows := new Slots[buckets](_ => empty);
    var fill := new nat[buckets](_ => 0);
    NoneInBucket(hash, entries, buckets);
    for i := 0 to |entries|
      invariant forall b :: 0 <= b < buckets ==> Holds(rows[b], InBucket(hash, entries[..i], buckets, b))
      invariant forall b :: 0 <= b < buckets ==> fill[b] == |InBucket(hash, entries[..i], buckets, b)|
    {
      var bucket := BucketOf(hash, entries[i].txid, entries[i].index, buckets);
      var slot := fill[bucket];
      forall b | 0 <= b < buckets
        ensures InBucket(hash, entries[..i + 1], buckets, b)
          == InBucket(hash, entries[..i], buckets, b) + if bucket == b then [entries[i]] else []
      {
        InBucketGrows(hash, entries, i, buckets, b);
      }
      if slot == BUCKET_CAPACITY {
        InBucketMonotone(hash, entries, i + 1, buckets, bucket);
        return None;
      }
      rows[bucket] := rows[bucket][slot := ToBytes(entries[i])];
      fill[bucket] := fill[bucket] + 1;
    }
    assert entries[..|entries|] == entries;
    return Some(Table(rows[..]));
  }

  lemma NoneInBucket(hash: OutpointHash, entries: seq<Entry>, buckets: nat)
    requires buckets > 0
    ensures forall b :: 0 <= b < buckets ==> InBucket(hash, entries[..0], buckets, b) == []
  {
    assert entries[..0] == [];
  }

  /** Doubles the table until every bucket fits, or fails when the count no longer fits a machine word. */
  method BuildTable(hash: OutpointHash, entries: seq<Entry>) returns (r: Option<Table>)
    ensures r.Some? <==> FirstFit(hash, entries, BucketCount(|entries|)).Some?
    ensures r.Some? ==> Some(|r.value.rows|) == FirstFit(hash, entries, BucketCount(|entries|))
    ensures r.Some? ==> Indexes(hash, entries, r.value)
  {
    hide Fits, Indexes, BucketCount;
    var buckets := BucketCount(|entries|);
    while true
      invariant buckets > 0
      invariant FirstFit(hash, entries, buckets) == FirstFit(hash, entries, BucketCount(|entries|))
      decreases U64_LIMIT - buckets
    {
      var table := FillBuckets(hash, entries, buckets);
      if table.Some? {
        return table;
      }
      if buckets * 2 >= U64_LIMIT {
        return None;
      }
      buckets := buckets * 2;
    }
  }

  // ---- scanning ----

  predicate AllZero(s: seq<byte>) {
    forall i :: 0 <= i < |s| ==> s[i] == 0
  }

  function Chunk(row: seq<byte>, i: nat): (s: seq<byte>)
    requires i * ENTRY_BYTES + ENTRY_BYTES <= |row|
  {
    row[i * ENTRY_BYTES..i * ENTRY_BYTES + ENTRY_BYTES]
  }

  predicate HasKey(e: Entry, txid: Txid, index: u32) {
    e.txid == txid && e.index == index
  }

  /** The scan from slot `i` on, with what was found before it. */
  function ScanFrom(row: seq<byte>, txid: Txid, index: u32, i: nat, found: Option<Entry>)
    : (r: Result<Option<Entry>, LookupError>)
    requires |row| >= ROW_BYTES && i <= BUCKET_CAPACITY
    decreases BUCKET_CAPACITY - i
  {
    if i == BUCKET_CAPACITY then Ok(found)
    else if AllZero(Chunk(row, i)) then ScanFrom(row, txid, index, i + 1, found)
    else
      var entry := FromBytes(Chunk(row, i));
      if entry.None? then Err(Malformed)
      else if !HasKey(entry.value, txid, index) then ScanFrom(row, txid, index, i + 1, found)
      else if found.Some? then Err(Duplicate)
      else ScanFrom(row, txid, index, i + 1, entry)
  }

  function Scan(row: seq<byte>, txid: Txid, index: u32): (r: Result<Option<Entry>, LookupError>) {
    if |row| < ROW_BYTES then Err(TooShort) else ScanFrom(row, txid, index, 0, None)
  }

  method ScanBucket(row: seq<byte>, txid: Txid, index: u32) returns (r: Result<Option<Entry>, LookupError>)
    ensures r == Scan(row, txid, index)
    ensures r == Err(TooShort) <==> |row| < 7040
    ensures |row| >= 7040 ==> ScanMeans(row, txid, index, 0, None, r)
  {
    hide ScanMeans;
    if |row| >= 7040 {
      ScanFromMeans(row, txid, index, 0, None);
    }
    hide FromBytes, AllZero, Chunk;
    if |row| < ROW_BYTES {
      return Err(TooShort);
    }
    var found: Option<Entry> := None;
    for i := 0 to BUCKET_CAPACITY
      invariant ScanFrom(row, txid, index, i, found) == Scan(row, txid, index)
    {
      var bytes := Chunk(row, i);
      if AllZero(bytes) {
        continue;
      }
      var entry := FromBytes(bytes);
      if entry.None? {
        return Err(Malformed);
      }
      if HasKey(entry.value, txid, index) {
        if found.Some? {
          return Err(Duplicate);
        }
        found := entry;
      }
    }
    return Ok(found);
  }

  // ---- agreement with a linear search ----

  /** What a linear search of a log says: nothing, the entry, or more than one. */
  function Verdict(entries: seq<Entry>, txid: Txid, index: u32): (r: Result<Option<Entry>, LookupError>) {
    var matching := Filter(entries, (e: Entry) => HasKey(e, txid, index));
    if matching == [] then Ok(None)
    else if |matching| == 1 then Ok(Some(matching[0]))
    else Err(Duplicate)
  }

  /** The verdict on the entries from `i` on, given what was found before. */
  ghost function VerdictFrom(entries: seq<Entry>, txid: Txid, index: u32, i: nat, found: Option<Entry>)
    : (r: Result<Option<Entry>, LookupError>)
    requires i <= |entries|
  {
    var earlier := if found.Some? then [found.value] else [];
    var matching := earlier + Filter(entries[i..], (e: Entry) => HasKey(e, txid, index));
    if matching == [] then Ok(None)
    else if |matching| == 1 then Ok(Some(matching[0]))
    else Err(Duplicate)
  }

  lemma SlotChunk(slots: Slots, entries: seq<Entry>, i: nat)
    requires Holds(slots, entries) && i < BUCKET_CAPACITY
    ensures |RowBytes(slots)| == ROW_BYTES && Chunk(RowBytes(slots), i) == slots[i]
  {
    hide Flat, Zeros, ToBytes;
    assert Sized(ENTRY_BYTES, slots);
    FlatLength(ENTRY_BYTES, slots);
    FlatAt(ENTRY_BYTES, slots, i);
  }

  lemma {:induction false} ScanAgrees(slots: Slots, entries: seq<Entry>, txid: Txid, index: u32, i: nat, found: Option<Entry>)
    requires Holds(slots, entries) && i <= BUCKET_CAPACITY && |RowBytes(slots)| == ROW_BYTES
    ensures ScanFrom(RowBytes(slots), txid, index, i, found)
      == VerdictFrom(entries, txid, index, if i < |entries| then i else |entries|, found)
    decreases BUCKET_CAPACITY - i
  {
    hide RowBytes, Chunk, FromBytes, ToBytes, Zeros;
    if i < BUCKET_CAPACITY {
      SlotChunk(slots, entries, i);
      if i < |entries| {
        EntryRoundTrip(entries[i]);
        assert !AllZero(ToBytes(entries[i]));
        assert entries[i..][1..] == entries[i + 1..];
        if HasKey(entries[i], txid, index) {
          if found.None? {
            ScanAgrees(slots, entries, txid, index, i + 1, Some(entries[i]));
          }
        } else {
          ScanAgrees(slots, entries, txid, index, i + 1, found);
        }
      } else {
        ZeroSlot();
        ScanAgrees(slots, entries, txid, index, i + 1, found);
      }
    }
  }

  lemma ZeroSlot()
    ensures AllZero(EMPTY_SLOT)
  {
  }

  lemma {:induction false} KeyInItsBucket(hash: OutpointHash, entries: seq<Entry>, buckets: nat, txid: Txid, index: u32)
    requires buckets > 0
    ensures Filter(InBucket(hash, entries, buckets, BucketOf(hash, txid, index, buckets)), (e: Entry) => HasKey(e, txid, index))
      == Filter(entries, (e: Entry) => HasKey(e, txid, index))
  {
    if entries != [] {
      KeyInItsBucket(hash, entries[1..], buckets, txid, index);
      var b := BucketOf(hash, txid, index, buckets);
      var all, rest := InBucket(hash, entries, buckets, b), InBucket(hash, entries[1..], buckets, b);
      if BucketOf(hash, entries[0].txid, entries[0].index, buckets) == b {
        assert all == [entries[0]] + rest;
        assert all[1..] == rest;
      } else {
        assert all == rest;
      }
    }
  }

  /**
   The index agrees with linear search: scanning the bucket of any outpoint finds nothing, the entry,
   or the duplicate error exactly as none, one or more log entries have that key.
   */
  lemma BucketLookupExact(hash: OutpointHash, entries: seq<Entry>, t: Table, txid: Txid, index: u32)
    requires Indexes(hash, entries, t)
    ensures Scan(RowBytes(t.rows[BucketOf(hash, txid, index, |t.rows|)]), txid, index) == Verdict(entries, txid, index)
  {
    hide RowBytes, InBucket, Filter, BucketOf;
    var b := BucketOf(hash, txid, index, |t.rows|);
    var bucket := InBucket(hash, entries, |t.rows|, b);
    SlotChunk(t.rows[b], bucket, 0);
    ScanAgrees(t.rows[b], bucket, txid, index, 0, None);
    assert bucket[0..] == bucket;
    KeyInItsBucket(hash, entries, |t.rows|, txid, index);
  }

  // ---- cold and warm tiers ----

  /** Log blocks sit one after another and cover the entries. */
  ghost predicate Contiguous(blocks: seq<BlockEntry>, total: nat) {
    && (forall i :: 0 <= i < |blocks| - 1 ==>
          blocks[i].firstPosition + blocks[i].actionCount == blocks[i + 1].firstPosition)
    && (blocks != [] ==> blocks[0].firstPosition == 0)
    && total == KeptSize(blocks, |blocks|)
  }

  function ColdEnd(tip: nat): (h: nat) {
    if tip >= WARM_BLOCKS then tip - WARM_BLOCKS else 0
  }

  /** Number of log entries in blocks at or below the cold end. */
  function ColdCount(blocks: seq<BlockEntry>, tip: nat): (n: nat) {
    KeptSize(blocks, Keep(blocks, ColdEnd(tip)))
  }

  lemma {:induction false} PositionsAscend(blocks: seq<BlockEntry>, total: nat, i: nat, j: nat)
    requires Contiguous(blocks, total) && i <= j < |blocks|
    ensures blocks[i].firstPosition <= blocks[j].firstPosition
    decreases j
  {
    if i < j {
      PositionsAscend(blocks, total, i, j - 1);
    }
  }

  lemma ColdWithinLog(blocks: seq<BlockEntry>, total: nat, tip: nat)
    requires Contiguous(blocks, total)
    ensures ColdCount(blocks, tip) <= total
  {
    var keep := Keep(blocks, ColdEnd(tip));
    if keep < |blocks| {
      PositionsAscend(blocks, total, keep, |blocks| - 1);
    }
  }

  /** Where the log of `total` entries is cut into the two tiers. */
  function ColdSplit(blocks: seq<BlockEntry>, total: nat, tip: nat): (n: nat)
    requires Contiguous(blocks, total)
    ensures n <= total
  {
    ColdWithinLog(blocks, total, tip);
    ColdCount(blocks, tip)
  }

  /** An entry of block `i` is cold exactly when its block is a hundred thousand or more below the tip, or the block at height zero under a lower tip. */
  lemma ColdExactly(blocks: seq<BlockEntry>, total: nat, tip: nat, i: nat, p: nat)
    requires Contiguous(blocks, total) && i < |blocks|
    requires forall a, b :: 0 <= a < b < |blocks| ==> blocks[a].height < blocks[b].height
    requires blocks[i].firstPosition <= p < blocks[i].firstPosition + blocks[i].actionCount
    ensures p < ColdCount(blocks, tip)
      <==> blocks[i].height + 100_000 <= tip || (tip < 100_000 && blocks[i].height == 0)
  {
    var keep := Keep(blocks, ColdEnd(tip));
    if i < keep {
      if keep < |blocks| {
        PositionsAscend(blocks, total, i + 1, keep);
      } else {
        PositionsAscend(blocks, total, i, |blocks| - 1);
        if i + 1 < |blocks| {
          PositionsAscend(blocks, total, i + 1, |blocks| - 1);
        }
      }
    } else {
      PositionsAscend(blocks, total, keep, i);
    }
  }

  /** The client's answer from both tiers. */
  function TieredLookup(cold: Result<Option<Entry>, LookupError>, warm: Result<Option<Entry>, LookupError>)
    : (r: Result<Option<Entry>, LookupError>)
  {
    if cold.Err? then cold
    else if warm.Err? then warm
    else if cold.value.Some? && warm.value.Some? then Err(BothTiers)
    else if cold.value.Some? then cold else warm
  }

  /**
   Splitting the log at any point and asking both tables is asking the whole log: unspent, the one
   spend, or an error exactly as the log holds none, one or several entries for the outpoint.
   */
  lemma TiersEqualLog(log: seq<Entry>, split: nat, txid: Txid, index: u32)
    requires split <= |log|
    ensures var r := TieredLookup(Verdict(log[..split], txid, index), Verdict(log[split..], txid, index));
      var whole := Verdict(log, txid, index);
      (r.Ok? <==> whole.Ok?) && (r.Ok? ==> r == whole)
  {
    var p := (e: Entry) => HasKey(e, txid, index);
    assert log == log[..split] + log[split..];
    FilterAppend(log[..split], log[split..], p);
  }

  predicate DistinctOutpoints(log: seq<Entry>) {
    forall i, j :: 0 <= i < j < |log| ==> !(log[i].txid == log[j].txid && log[i].index == log[j].index)
  }

  /** With unique outpoints the whole log never reports a duplicate, so the tiered lookup never fails. */
  lemma {:induction false} UniqueNeverFails(log: seq<Entry>, txid: Txid, index: u32)
    requires DistinctOutpoints(log)
    ensures Verdict(log, txid, index).Ok?
    ensures Verdict(log, txid, index).value.None? <==> forall i :: 0 <= i < |log| ==> !HasKey(log[i], txid, index)
    ensures Verdict(log, txid, index).value.Some?
            ==> Verdict(log, txid, index).value.value in log && HasKey(Verdict(log, txid, index).value.value, txid, index)
  {
    var p := (e: Entry) => HasKey(e, txid, index);
    if log != [] {
      UniqueNeverFails(log[1..], txid, index);
      assert log == [log[0]] + log[1..];
      if p(log[0]) {
        forall i | 0 <= i < |log[1..]|
          ensures !HasKey(log[1..][i], txid, index)
        {
          assert log[1..][i] == log[i + 1];
        }
        assert Filter(log[1..], p) == [];
      }
    }
  }

  /** The whole path: both tables built from a log split at the cold end, both buckets scanned, against the log itself. */
  lemma TieredIndexExact(hash: OutpointHash, log: seq<Entry>, blocks: seq<BlockEntry>, tip: nat, cold: Table, warm: Table,
                         txid: Txid, index: u32)
    requires Contiguous(blocks, |log|)
    requires var split := ColdSplit(blocks, |log|, tip);
      Indexes(hash, log[..split], cold) && Indexes(hash, log[split..], warm)
    ensures var r := TieredLookup(Scan(RowBytes(cold.rows[BucketOf(hash, txid, index, |cold.rows|)]), txid, index),
                                  Scan(RowBytes(warm.rows[BucketOf(hash, txid, index, |warm.rows|)]), txid, index));
      && (r.Ok? <==> Verdict(log, txid, index).Ok?) && (r.Ok? ==> r == Verdict(log, txid, index))
      && (DistinctOutpoints(log) ==> r.Ok?)
  {
    hide Scan, RowBytes, Verdict, BucketOf, Indexes, TieredLookup;
    var split := ColdSplit(blocks, |log|, tip);
    BucketLookupExact(hash, log[..split], cold, txid, index);
    BucketLookupExact(hash, log[split..], warm, txid, index);
    TiersEqualLog(log, split, txid, index);
    if DistinctOutpoints(log) {
      UniqueNeverFails(log, txid, index);
    }
  }

  // ---- geometry seen by the client ----

  lemma {:induction false} FirstFitPower(hash: OutpointHash, entries: seq<Entry>, buckets: nat)
    requires buckets > 0 && Positions.PowerOfTwo(buckets) && FirstFit(hash, entries, buckets).Some?
    ensures Positions.PowerOfTwo(FirstFit(hash, entries, buckets).value)
    decreases U64_LIMIT - buckets
  {
    if !Fits(hash, entries, buckets) {
      var e: nat :| buckets == Positions.Exp2(e);
      assert buckets * 2 == Positions.Exp2(e + 1);
      FirstFitPower(hash, entries, buckets * 2);
    }
  }

  /** The client hashes with the table's row count, which is the bucket count the server built with. */
  lemma ClientUsesBuiltCount(hash: OutpointHash, entries: seq<Entry>)
    requires FirstFit(hash, entries, BucketCount(|entries|)).Some?
    ensures var buckets := FirstFit(hash, entries, BucketCount(|entries|)).value;
      Positions.LogicalRows(Positions.Layout(ROW_BYTES, 1, SHARD_ROWS), buckets) == buckets
  {
    hide FirstFit, BucketCount, Positions.LogicalRows;
    var buckets, layout := FirstFit(hash, entries, BucketCount(|entries|)).value, Positions.Layout(ROW_BYTES, 1, SHARD_ROWS);
    FirstFitPower(hash, entries, BucketCount(|entries|));
    Positions.LogicalRowsLeast(layout, buckets, buckets);
    Positions.LogicalRowsLeast(layout, buckets, Positions.LogicalRows(layout, buckets));
  }

  const EMPTY_ROW: Slots := seq(BUCKET_CAPACITY, _ => EMPTY_SLOT)

  /** One shard of the table: its rows, then empty ones. */
  function ShardView(t: Table, shard: nat): (r: Option<seq<Slots>>) {
    var start := shard * SHARD_ROWS;
    if start >= |t.rows| then None
    else
      var end := if start + SHARD_ROWS < |t.rows| then start + SHARD_ROWS else |t.rows|;
      Some(t.rows[start..end] + seq(SHARD_ROWS - (end - start), _ => EMPTY_ROW))
  }

  /** Shards tile the table: bucket b is row b mod 8192 of shard b div 8192, and no shard reaches past the last. */
  lemma ShardViewExact(t: Table, b: nat)
    requires b < |t.rows|
    ensures ShardView(t, b / SHARD_ROWS).Some?
    ensures |ShardView(t, b / SHARD_ROWS).value| == SHARD_ROWS
    ensures ShardView(t, b / SHARD_ROWS).value[b % SHARD_ROWS] == t.rows[b]
    ensures forall s: nat | s > (|t.rows| - 1) / SHARD_ROWS :: ShardView(t, s).None?
  {
  }

  /** Rows of a shard past the table's end are empty. */
  lemma ShardPadding(t: Table, shard: nat, r: nat)
    requires ShardView(t, shard).Some? && r < 8192 && shard * 8192 + r >= |t.rows|
    ensures forall i :: 0 <= i < 88 ==> i < |ShardView(t, shard).value[r]| && AllZero(ShardView(t, shard).value[r][i])
  {
  }

  // ---- the geometry and the scan in plain terms ----

  /** A bucket is the remainder of the outpoint's hash. */
  lemma BucketIsRemainder(hash: OutpointHash, txid: Txid, index: u32, buckets: nat, b: nat, q: nat)
    requires buckets > 0 && b < buckets
    ensures hash(txid, index) == q * buckets + b ==> BucketOf(hash, txid, index, buckets) == b
  {
    if hash(txid, index) == q * buckets + b {
      ModUnique(hash(txid, index), buckets, q, b);
    }
  }

  /** The bucket count starts at the least power of two, 8192 or more, at which the load is at most 55 in 100 of 88 slots. */
  lemma BucketCountLeast(entries: nat, n: nat)
    requires entries * 100 < 0x1_0000_0000_0000_0000 && Positions.PowerOfTwo(n)
    ensures n >= 8192 && entries * 100 <= n * 88 * 55 <==> BucketCount(entries) <= n
  {
    var needed := (entries * 100 + 4840 - 1) / 4840;
    var least := if needed > 8192 then needed else 8192;
    Positions.NextFromIsPower(least, 0);
    var f: nat :| n == Positions.Exp2(f);
    if n >= least {
      Positions.NextFromLeast(least, 0, f);
    }
  }

  /** `m` comes from `start` by doubling. */
  ghost predicate DoubledTo(start: nat, m: nat)
    requires start > 0
  {
    m == start || (m > start && m % 2 == 0 && DoubledTo(start, m / 2))
  }

  lemma {:induction false} DoubledOnce(start: nat, m: nat)
    requires start > 0
    ensures DoubledTo(start, m) <==> m == start || DoubledTo(start * 2, m)
    ensures DoubledTo(start, m) ==> m >= start
    decreases m
  {
    if m > start && m % 2 == 0 {
      DoubledOnce(start, m / 2);
    }
    if m > start * 2 && m % 2 == 0 {
      DoubledOnce(start * 2, m / 2);
    }
  }

  /** Doubling stops at the first count at which every bucket fits, and fails only when no count below 2^64 does. */
  lemma {:induction false} FirstFitExactly(hash: OutpointHash, entries: seq<Entry>, buckets: nat, m: nat)
    requires buckets > 0 && DoubledTo(buckets, m)
    ensures var r := FirstFit(hash, entries, buckets);
      && (r.Some? ==> DoubledTo(buckets, r.value) && Fits(hash, entries, r.value) && (m < r.value ==> !Fits(hash, entries, m)))
      && (r.None? && (m == buckets || m < 0x1_0000_0000_0000_0000) ==> !Fits(hash, entries, m))
    decreases U64_LIMIT - buckets
  {
    hide Fits;
    DoubledOnce(buckets, m);
    if !Fits(hash, entries, buckets) && buckets * 2 < U64_LIMIT {
      if m == buckets {
        DoubledOnce(buckets * 2, buckets * 2);
        FirstFitExactly(hash, entries, buckets * 2, buckets * 2);
      } else {
        FirstFitExactly(hash, entries, buckets * 2, m);
      }
      var r := FirstFit(hash, entries, buckets);
      if r.Some? {
        DoubledOnce(buckets, r.value);
      }
    } else if m > buckets {
      DoubledOnce(buckets * 2, m);
    }
  }

  // ---- scanning any row ----

  /** The slot is empty, or decodes to an entry. */
  ghost predicate ReadableSlot(row: seq<byte>, i: nat)
    requires 80 * i + 80 <= |row|
  {
    var s := row[80 * i..80 * i + 80];
    (forall j :: 0 <= j < 80 ==> s[j] == 0) || (s[0] == 1 && forall j :: 75 <= j < 80 ==> s[j] == 0)
  }

  /** The slot holds an entry of the outpoint. */
  ghost predicate SlotOfKey(row: seq<byte>, i: nat, txid: Txid, index: u32)
    requires 80 * i + 80 <= |row|
  {
    var s := row[80 * i..80 * i + 80];
    s[0] == 1 && s[1..33] == txid && FromLE(s[33..37]) == index
  }

  lemma SlotExactly(row: seq<byte>, i: nat, txid: Txid, index: u32)
    requires 80 * i + 80 <= |row|
    ensures var entry := FromBytes(Chunk(row, i));
      && (ReadableSlot(row, i) <==> AllZero(Chunk(row, i)) || entry.Some?)
      && (ReadableSlot(row, i) ==>
            (SlotOfKey(row, i, txid, index) <==> !AllZero(Chunk(row, i)) && entry.Some? && HasKey(entry.value, txid, index)))
  {
    var s := Chunk(row, i);
    assert |s| == 80;
    assert s[75..] == Zeros(5) <==> forall j :: 75 <= j < 80 ==> s[j] == 0 by {
      assert forall j :: 75 <= j < 80 ==> s[75..][j - 75] == s[j];
    }
  }

  /** The scan's outcome over the slots from `i` on. */
  ghost predicate ScanMeans(row: seq<byte>, txid: Txid, index: u32, i: nat, found: Option<Entry>, r: Result<Option<Entry>, LookupError>)
    requires |row| >= 7040 && i <= 88
  {
    var clean := forall k :: i <= k < 88 ==> ReadableSlot(row, k);
    var once := forall a, b :: i <= a < b < 88 ==> !(SlotOfKey(row, a, txid, index) && SlotOfKey(row, b, txid, index));
    var none := forall k :: i <= k < 88 ==> !SlotOfKey(row, k, txid, index);
    && (r.Ok? <==> clean && (if found.Some? then none else once))
    && (r.Ok? ==> if none then r.value == found else exists k :: i <= k < 88 && SlotOfKey(row, k, txid, index) && r.value == FromBytes(row[80 * k..80 * k + 80]))
    && (r == Err(Malformed) ==> !clean)
    && (r == Err(Duplicate) ==> if found.Some? then !none else !once)
    && (r.Err? ==> r.error == Malformed || r.error == Duplicate)
  }

  lemma {:induction false} ScanFromMeans(row: seq<byte>, txid: Txid, index: u32, i: nat, found: Option<Entry>)
    requires |row| >= 7040 && i <= 88
    ensures ScanMeans(row, txid, index, i, found, ScanFrom(row, txid, index, i, found))
    decreases 88 - i
  {
    hide ReadableSlot, SlotOfKey, FromBytes, AllZero;
    if i < 88 {
      SlotExactly(row, i, txid, index);
      var entry := FromBytes(Chunk(row, i));
      if AllZero(Chunk(row, i)) || (entry.Some? && !HasKey(entry.value, txid, index)) {
        ScanFromMeans(row, txid, index, i + 1, found);
      } else if entry.Some? && found.None? {
        ScanFromMeans(row, txid, index, i + 1, entry);
        FoundHere(row, txid, index, i, entry.value, ScanFrom(row, txid, index, i + 1, entry));
      }
    }
  }

  lemma FoundHere(row: seq<byte>, txid: Txid, index: u32, i: nat, entry: Entry, r: Result<Option<Entry>, LookupError>)
    requires |row| >= 7040 && i < 88 && ReadableSlot(row, i) && SlotOfKey(row, i, txid, index)
    requires FromBytes(row[80 * i..80 * i + 80]) == Some(entry) && ScanMeans(row, txid, index, i + 1, Some(entry), r)
    ensures ScanMeans(row, txid, index, i, None, r)
  {
    hide ReadableSlot, SlotOfKey, FromBytes;
    if r.Ok? {
      assert SlotOfKey(row, i, txid, index) && r.value == FromBytes(row[80 * i..80 * i + 80]);
    }
    if exists k :: i + 1 <= k < 88 && SlotOfKey(row, k, txid, index) {
      var k :| i + 1 <= k < 88 && SlotOfKey(row, k, txid, index);
      assert SlotOfKey(row, i, txid, index) && SlotOfKey(row, k, txid, index);
    }
  }
}
