/** Wallet-side range validation and matching. */
module RangeClient {
  import opened Bytes
  import opened Results
  import opened Chain
  import opened GolombRice
  import opened FilterValidation
  import opened Matching
  import opened Envelope
  import Sorting

  /** The wallet's own height-to-hash map. */
  type AcceptedChain = map<nat, BlockHash>

  datatype RangeRequest = RangeRequest(genesis: BlockHash, profile: seq<byte>, startHeight: nat, stopBlockHash: BlockHash)

  /** A record whose filter was validated and located on the accepted chain. */
  datatype CheckedRecord = CheckedRecord(height: nat, blockHash: BlockHash, values: seq<nat>)

  datatype BlockMatch = BlockMatch(height: nat, blockHash: BlockHash, indices: seq<nat>)

  datatype SyncOutcome = SyncOutcome(
    matches: seq<BlockMatch>,
    coveredThrough: nat,
    coveredBlockHash: BlockHash,
    filtersChecked: nat)

  /** Whatever arrives on the n-th fetch; `None` is a transport error. */
  type Transport = (nat, RangeRequest) -> Option<FilterBatch>

  /** The lowest height that carries `hash`, as an ordered map finds it. */
  function HeightOf(chain: AcceptedChain, hash: BlockHash): (r: Option<nat>)
    ensures r.Some? ==> r.value in chain && chain[r.value] == hash
    ensures r.Some? ==> forall k | k in chain && chain[k] == hash :: r.value <= k
    ensures r.None? ==> forall k | k in chain :: chain[k] != hash
  {
    var heights := set k | k in chain && chain[k] == hash;
    assert forall k | k in chain && chain[k] == hash :: k in heights;
    if heights == {} then None
    else
      Sorting.LeastExists(heights, var h :| h in heights; h);
      var m :| m in heights && forall k | k in heights :: m <= k;
      Some(m)
  }

  function Wanted(start: nat, stop: nat): (n: nat)
    requires start <= stop
    ensures 0 < n <= stop - start + 1
  {
    if stop - start + 1 <= MAX_RECORDS_PER_BATCH then stop - start + 1 else MAX_RECORDS_PER_BATCH
  }

  /** A record sits at exactly its place on the wallet's chain and its filter validates. */
  predicate InPlace(record: FilterRecord, height: nat, chain: AcceptedChain, limits: FilterLimits) {
    && record.height == height
    && height in chain && chain[height] == record.blockHash
    && Validate(record.filter, limits).Ok?
  }

  predicate Acceptable(batch: FilterBatch, request: RangeRequest, chain: AcceptedChain, limits: FilterLimits) {
    && batch.genesis == request.genesis
    && batch.profile == request.profile
    && batch.startHeight == request.startHeight
    && batch.stopBlockHash == request.stopBlockHash
    && var stop := HeightOf(chain, request.stopBlockHash);
    && stop.Some?
    && request.startHeight <= stop.value
    && |batch.records| == Wanted(request.startHeight, stop.value)
    && forall i :: 0 <= i < |batch.records| ==> InPlace(batch.records[i], request.startHeight + i, chain, limits)
  }

  function Check(record: FilterRecord, limits: FilterLimits): (c: CheckedRecord)
    requires Validate(record.filter, limits).Ok?
  {
    CheckedRecord(record.height, record.blockHash, Validate(record.filter, limits).value)
  }

  function CheckedBatch(batch: FilterBatch, request: RangeRequest, chain: AcceptedChain, limits: FilterLimits)
    : (r: Option<seq<CheckedRecord>>)
    ensures r.Some? ==> 0 < |r.value|
  {
    if Acceptable(batch, request, chain, limits) then
      Some(seq(|batch.records|, i requires 0 <= i < |batch.records| =>
        assert InPlace(batch.records[i], request.startHeight + i, chain, limits);
        Check(batch.records[i], limits)))
    else None
  }

  /** Accepts a batch exactly when it is the one asked for, on the wallet's own chain. */
  // ---- which batches are accepted ----

  /** The branch names the block at this height, and at no lower one. */
  ghost predicate StopsAt(chain: AcceptedChain, hash: BlockHash, stop: nat) {
    stop in chain && chain[stop] == hash && forall h | h in chain && chain[h] == hash :: stop <= h
  }

  /** The records reach the stop height, or they are a full thousand and the stop lies further on. */
  ghost predicate FullBatch(start: nat, stop: nat, count: nat) {
    start <= stop && ((start + count - 1 == stop && 1 <= count <= 1000) || (count == 1000 && start + 999 < stop))
  }

  lemma WantedExactly(start: nat, stop: nat, count: nat)
    requires start <= stop
    ensures count == Wanted(start, stop) <==> FullBatch(start, stop, count)
  {
  }

  /** The right chain, profile and bounds, as many records as there should be, each at its own accepted height and valid. */
  ghost predicate Answers(batch: FilterBatch, request: RangeRequest, chain: AcceptedChain, limits: FilterLimits) {
    && batch.genesis == request.genesis && batch.profile == request.profile
    && batch.startHeight == request.startHeight && batch.stopBlockHash == request.stopBlockHash
    && (exists stop :: StopsAt(chain, request.stopBlockHash, stop) && FullBatch(request.startHeight, stop, |batch.records|))
    && forall i :: 0 <= i < |batch.records| ==> RecordFits(batch.records[i], request.startHeight + i, chain, limits)
  }

  ghost predicate RecordFits(record: FilterRecord, height: nat, chain: AcceptedChain, limits: FilterLimits) {
    record.height == height && height in chain && record.blockHash == chain[height] && Validate(record.filter, limits).Ok?
  }

  lemma AcceptedExactly(batch: FilterBatch, request: RangeRequest, chain: AcceptedChain, limits: FilterLimits)
    ensures Acceptable(batch, request, chain, limits) <==> Answers(batch, request, chain, limits)
  {
    hide Validate, HeightOf;
    var stop := HeightOf(chain, request.stopBlockHash);
    if stop.Some? {
      assert StopsAt(chain, request.stopBlockHash, stop.value);
      if request.startHeight <= stop.value {
        WantedExactly(request.startHeight, stop.value, |batch.records|);
      }
    }
    assert forall i :: 0 <= i < |batch.records| ==>
      (InPlace(batch.records[i], request.startHeight + i, chain, limits) <==> RecordFits(batch.records[i], request.startHeight + i, chain, limits));
  }

  method CheckBatch(batch: FilterBatch, request: RangeRequest, chain: AcceptedChain, limits: FilterLimits)
    returns (r: Option<seq<CheckedRecord>>)
    ensures r == CheckedBatch(batch, request, chain, limits)
    ensures r.Some? <==> Answers(batch, request, chain, limits)
    ensures r.Some? ==> |r.value| == |batch.records|
    ensures r.Some? ==> forall i :: 0 <= i < |r.value| ==>
      r.value[i].height == batch.records[i].height && r.value[i].blockHash == batch.records[i].blockHash
      && Validate(batch.records[i].filter, limits) == Ok(r.value[i].values)
  {
    hide Validate, Answers;
    AcceptedExactly(batch, request, chain, limits);
    if batch.genesis != request.genesis || batch.profile != request.profile {
      return None;
    }
    if batch.startHeight != request.startHeight || batch.stopBlockHash != request.stopBlockHash {
      return None;
    }
    var stop := HeightOf(chain, request.stopBlockHash);
    if stop.None? || stop.value < request.startHeight {
      return None;
    }
    if |batch.records| != Wanted(request.startHeight, stop.value) {
      return None;
    }
    var checked: seq<CheckedRecord> := [];
    for offset := 0 to |batch.records|
      invariant |checked| == offset
      invariant forall i :: 0 <= i < offset ==>
        InPlace(batch.records[i], request.startHeight + i, chain, limits) && checked[i] == Check(batch.records[i], limits)
    {
      var record := batch.records[offset];
      var expected := request.startHeight + offset;
      if record.height != expected || expected !in chain || chain[expected] != record.blockHash {
        assert !InPlace(batch.records[offset], expected, chain, limits);
        return None;
      }
      var filter := ValidateFilter(record.filter, limits);
      if filter.Err? {
        assert !InPlace(batch.records[offset], expected, chain, limits);
        return None;
      }
      checked := checked + [CheckedRecord(record.height, record.blockHash, filter.value)];
    }
    assert Acceptable(batch, request, chain, limits);
    assert checked == CheckedBatch(batch, request, chain, limits).value;
    return Some(checked);
  }

  /** Every record validated from `next` to `stop`, batch after batch, or `None` at the first failure. */
  function SyncFrom(transport: Transport, request: RangeRequest, chain: AcceptedChain, limits: FilterLimits,
                    call: nat, next: nat, stop: nat): (r: Option<seq<CheckedRecord>>)
    decreases stop + 1 - next
  {
    if next > stop then Some([])
    else
      var wanted := request.(startHeight := next);
      var batch :- transport(call, wanted);
      var checked :- CheckedBatch(batch, wanted, chain, limits);
      var tail :- SyncFrom(transport, request, chain, limits, call + 1, next + |checked|, stop);
      Some(checked + tail)
  }

  /** Each record's range fits 64 bits, which validation guarantees. */
  predicate Mappable(records: seq<CheckedRecord>) {
    forall i :: 0 <= i < |records| ==> |records[i].values| * M < U64_LIMIT
  }

  /** The blocks of `records` where at least one wallet script matched. */
  function Scan(hasher: KeyedHash, wallet: seq<Script>, records: seq<CheckedRecord>): (r: seq<BlockMatch>)
    requires Mappable(records)
  {
    if records == [] then []
    else
      var last := records[|records| - 1];
      var head := Scan(hasher, wallet, records[..|records| - 1]);
      var indices := Matches(hasher, last.blockHash, last.values, wallet);
      if indices == [] then head else head + [BlockMatch(last.height, last.blockHash, indices)]
  }

  function Outcome(hasher: KeyedHash, wallet: seq<Script>, request: RangeRequest, records: seq<CheckedRecord>)
    : (r: SyncOutcome)
    requires Mappable(records)
  {
    if records == [] then
      SyncOutcome([], if request.startHeight == 0 then 0 else request.startHeight - 1, request.stopBlockHash, 0)
    else
      var last := records[|records| - 1];
      SyncOutcome(Scan(hasher, wallet, records), last.height, last.blockHash, |records|)
  }

  /** Checked values are always encodable. */
  lemma CheckedEncodable(batch: FilterBatch, request: RangeRequest, chain: AcceptedChain, limits: FilterLimits)
    requires CheckedBatch(batch, request, chain, limits).Some?
    ensures forall c | c in CheckedBatch(batch, request, chain, limits).value :: EncodableValues(c.values)
    ensures Mappable(CheckedBatch(batch, request, chain, limits).value)
  {
    hide Validate, Ascending, Below;
    var checked := CheckedBatch(batch, request, chain, limits).value;
    forall c | c in checked
      ensures EncodableValues(c.values)
    {
      var i :| 0 <= i < |checked| && checked[i] == c;
      assert InPlace(batch.records[i], request.startHeight + i, chain, limits);
      EncodeOfValidate(batch.records[i].filter, limits, c.values);
    }
    forall i | 0 <= i < |checked|
      ensures |checked[i].values| * M < U64_LIMIT
    {
      assert checked[i] in checked;
    }
  }

  lemma CheckedInPlace(batch: FilterBatch, request: RangeRequest, chain: AcceptedChain, limits: FilterLimits,
                       checked: seq<CheckedRecord>, stop: nat)
    requires CheckedBatch(batch, request, chain, limits) == Some(checked)
    requires HeightOf(chain, request.stopBlockHash) == Some(stop)
    ensures |checked| <= stop + 1 - request.startHeight
    ensures forall i :: 0 <= i < |checked| ==> Covers(checked[i], request.startHeight + i, chain)
  {
    hide Validate, EncodableValues;
    CheckedEncodable(batch, request, chain, limits);
    forall i | 0 <= i < |checked|
      ensures Covers(checked[i], request.startHeight + i, chain)
    {
      assert InPlace(batch.records[i], request.startHeight + i, chain, limits);
      assert checked[i] in checked;
    }
  }

  /** The record was validated for this height, under the wallet's own hash. */
  ghost predicate Covers(record: CheckedRecord, height: nat, chain: AcceptedChain) {
    record.height == height && height in chain && chain[height] == record.blockHash && EncodableValues(record.values)
  }

  /**
   Against any transport: whatever batches arrive, an accepted sync has validated every height from
   `next` to `stop` exactly once, in order, under the wallet's own hash for that height.
   */
  lemma {:induction false} SyncCoverage(transport: Transport, request: RangeRequest, chain: AcceptedChain,
                                        limits: FilterLimits, call: nat, next: nat, stop: nat)
    requires HeightOf(chain, request.stopBlockHash) == Some(stop) && next <= stop + 1
    requires SyncFrom(transport, request, chain, limits, call, next, stop).Some?
    ensures var records := SyncFrom(transport, request, chain, limits, call, next, stop).value;
      && |records| == stop + 1 - next
      && (forall i :: 0 <= i < |records| ==> Covers(records[i], next + i, chain))
      && Mappable(records)
    decreases stop + 1 - next
  {
    hide EncodableValues, CheckedBatch, Covers, HeightOf;
    if next <= stop {
      var wanted := request.(startHeight := next);
      var checked := CheckedBatch(transport(call, wanted).value, wanted, chain, limits).value;
      var tail := SyncFrom(transport, request, chain, limits, call + 1, next + |checked|, stop).value;
      CheckedInPlace(transport(call, wanted).value, wanted, chain, limits, checked, stop);
      SyncCoverage(transport, request, chain, limits, call + 1, next + |checked|, stop);
      CoveredJoin(checked, tail, chain, next);
    }
  }

  lemma CoveredJoin(head: seq<CheckedRecord>, tail: seq<CheckedRecord>, chain: AcceptedChain, next: nat)
    requires forall i :: 0 <= i < |head| ==> Covers(head[i], next + i, chain)
    requires forall i :: 0 <= i < |tail| ==> Covers(tail[i], next + |head| + i, chain)
    ensures forall i :: 0 <= i < |head + tail| ==> Covers((head + tail)[i], next + i, chain)
    ensures Mappable(head + tail)
  {
    forall i | 0 <= i < |head + tail|
      ensures Covers((head + tail)[i], next + i, chain)
    {
      if i >= |head| {
        assert Covers(tail[i - |head|], next + |head| + (i - |head|), chain);
      }
    }
    assert forall i :: 0 <= i < |head + tail| ==> EncodableValues((head + tail)[i].values);
  }

  /** The whole synchronization. */
  function Sync(hasher: KeyedHash, transport: Transport, request: RangeRequest, chain: AcceptedChain,
                wallet: seq<Script>, limits: FilterLimits): (r: Option<SyncOutcome>)
  {
    var stop :- HeightOf(chain, request.stopBlockHash);
    var records :- SyncFrom(transport, request, chain, limits, 0, request.startHeight, stop);
    if request.startHeight <= stop then
      SyncCoverage(transport, request, chain, limits, 0, request.startHeight, stop);
      Some(Outcome(hasher, wallet, request, records))
    else Some(Outcome(hasher, wallet, request, []))
  }

  /** A match list names strictly ascending heights: exactly those whose filter matched, with every match. */
  lemma {:induction false} ScanExact(hasher: KeyedHash, wallet: seq<Script>, records: seq<CheckedRecord>, start: nat)
    requires Mappable(records)
    requires forall i :: 0 <= i < |records| ==> records[i].height == start + i
    ensures Listed(hasher, wallet, records, Scan(hasher, wallet, records))
  {
    hide Matches, EncodableValues;
    if records != [] {
      ScanExact(hasher, wallet, records[..|records| - 1], start);
      ScanOneMore(hasher, wallet, records, start);
    }
  }

  lemma ScanOneMore(hasher: KeyedHash, wallet: seq<Script>, records: seq<CheckedRecord>, start: nat)
    requires Mappable(records) && records != []
    requires forall i :: 0 <= i < |records| ==> records[i].height == start + i
    requires Listed(hasher, wallet, records[..|records| - 1], Scan(hasher, wallet, records[..|records| - 1]))
    ensures Listed(hasher, wallet, records, Scan(hasher, wallet, records))
  {
    hide Matches, EncodableValues, OfSome;
    var n := |records| - 1;
    var head, last := Scan(hasher, wallet, records[..n]), MatchAt(hasher, wallet, records[n]);
    forall x | x in head
      ensures OfSome(hasher, wallet, records, x) && x.height < start + n
    {
      OfSomeMore(hasher, wallet, records, start, x);
    }
    OfThis(hasher, wallet, records, n);
    forall i | 0 <= i < n
      ensures MatchAt(hasher, wallet, records[i]) in head <==> MatchAt(hasher, wallet, records[i]).indices != []
    {
      assert records[..n][i] == records[i];
    }
    ListedMore(hasher, wallet, records, start, head, Scan(hasher, wallet, records));
  }

  lemma ListedMore(hasher: KeyedHash, wallet: seq<Script>, records: seq<CheckedRecord>, start: nat, head: seq<BlockMatch>, m: seq<BlockMatch>)
    requires Mappable(records) && records != []
    requires forall i :: 0 <= i < |records| ==> records[i].height == start + i
    requires forall a, b :: 0 <= a < b < |head| ==> head[a].height < head[b].height
    requires forall x | x in head :: OfSome(hasher, wallet, records, x) && x.height < start + |records| - 1
    requires forall i :: 0 <= i < |records| - 1 ==>
      (MatchAt(hasher, wallet, records[i]) in head <==> MatchAt(hasher, wallet, records[i]).indices != [])
    requires var last := MatchAt(hasher, wallet, records[|records| - 1]);
      m == (if last.indices == [] then head else head + [last]) && OfSome(hasher, wallet, records, last)
    ensures Listed(hasher, wallet, records, m)
  {
    hide Matches, EncodableValues, OfSome;
    var n := |records| - 1;
    var last := MatchAt(hasher, wallet, records[n]);
    assert last.height == start + n;
    forall i | 0 <= i < n
      ensures MatchAt(hasher, wallet, records[i]) in m <==> MatchAt(hasher, wallet, records[i]).indices != []
    {
      assert MatchAt(hasher, wallet, records[i]).height == start + i;
    }
  }

  lemma OfThis(hasher: KeyedHash, wallet: seq<Script>, records: seq<CheckedRecord>, i: nat)
    requires Mappable(records) && i < |records|
    ensures OfSome(hasher, wallet, records, MatchAt(hasher, wallet, records[i]))
  {
  }

  lemma OfSomeMore(hasher: KeyedHash, wallet: seq<Script>, records: seq<CheckedRecord>, start: nat, x: BlockMatch)
    requires Mappable(records) && records != [] && forall i :: 0 <= i < |records| ==> records[i].height == start + i
    requires OfSome(hasher, wallet, records[..|records| - 1], x)
    ensures OfSome(hasher, wallet, records, x) && x.height < start + |records| - 1
  {
    hide Matches, EncodableValues;
    var n := |records| - 1;
    var i :| 0 <= i < n && x == MatchAt(hasher, wallet, records[..n][i]);
    assert x == MatchAt(hasher, wallet, records[i]);
  }

  /** The match is the one of some record. */
  ghost predicate OfSome(hasher: KeyedHash, wallet: seq<Script>, records: seq<CheckedRecord>, x: BlockMatch)
    requires Mappable(records)
  {
    exists i :: 0 <= i < |records| && x == MatchAt(hasher, wallet, records[i])
  }

  /** The match list of checked records: ascending heights, only matches, and every match. */
  ghost predicate Listed(hasher: KeyedHash, wallet: seq<Script>, records: seq<CheckedRecord>, m: seq<BlockMatch>)
    requires Mappable(records)
  {
    && (forall a, b :: 0 <= a < b < |m| ==> m[a].height < m[b].height)
    && (forall x | x in m :: OfSome(hasher, wallet, records, x))
    && (forall i :: 0 <= i < |records| ==>
          (MatchAt(hasher, wallet, records[i]) in m <==> MatchAt(hasher, wallet, records[i]).indices != []))
  }

  ghost function MatchAt(hasher: KeyedHash, wallet: seq<Script>, record: CheckedRecord): BlockMatch
    requires |record.values| * M < U64_LIMIT
  {
    BlockMatch(record.height, record.blockHash, Matches(hasher, record.blockHash, record.values, wallet))
  }

  /**
   On success with `start <= stop`, coverage is the stop block itself and one filter per height was
   checked; with `start` above `stop` the call succeeds with nothing checked at all.
   */
  lemma SyncCoversExactly(hasher: KeyedHash, transport: Transport, request: RangeRequest, chain: AcceptedChain,
                          wallet: seq<Script>, limits: FilterLimits)
    requires Sync(hasher, transport, request, chain, wallet, limits).Some?
    ensures HeightOf(chain, request.stopBlockHash).Some?
    ensures var outcome := Sync(hasher, transport, request, chain, wallet, limits).value;
      var stop := HeightOf(chain, request.stopBlockHash).value;
      && (request.startHeight <= stop <==> outcome.filtersChecked > 0)
      && (request.startHeight <= stop ==>
            && outcome.filtersChecked == stop - request.startHeight + 1
            && outcome.coveredThrough == stop
            && outcome.coveredBlockHash == request.stopBlockHash)
      && (request.startHeight > stop ==> outcome.matches == [] && outcome.coveredThrough >= stop)
  {
    hide EncodableValues, Scan, Acceptable, Validate;
    var stop := HeightOf(chain, request.stopBlockHash).value;
    if request.startHeight <= stop {
      SyncCoverage(transport, request, chain, limits, 0, request.startHeight, stop);
      var records := SyncFrom(transport, request, chain, limits, 0, request.startHeight, stop).value;
      assert Covers(records[|records| - 1], request.startHeight + (|records| - 1), chain);
    }
  }

  /** The transport hands out one filter per height, in whatever batches and order of attempts. */
  ghost predicate Serves(transport: Transport, filters: nat -> seq<byte>) {
    forall call, request, r | transport(call, request).Some? && r in transport(call, request).value.records ::
      r.filter == filters(r.height)
  }

  lemma {:induction false} SyncDetermined(transport: Transport, filters: nat -> seq<byte>, request: RangeRequest,
                                          chain: AcceptedChain, limits: FilterLimits, call: nat, next: nat, stop: nat)
    requires Serves(transport, filters)
    requires SyncFrom(transport, request, chain, limits, call, next, stop).Some?
    ensures var records := SyncFrom(transport, request, chain, limits, call, next, stop).value;
      forall i :: 0 <= i < |records| ==> Validate(filters(records[i].height), limits) == Ok(records[i].values)
    decreases stop + 1 - next
  {
    hide Validate;
    if next <= stop {
      var wanted := request.(startHeight := next);
      var batch := transport(call, wanted).value;
      var checked := CheckedBatch(batch, wanted, chain, limits).value;
      SyncDetermined(transport, filters, request, chain, limits, call + 1, next + |checked|, stop);
      forall i | 0 <= i < |checked|
        ensures Validate(filters(checked[i].height), limits) == Ok(checked[i].values)
      {
        assert InPlace(batch.records[i], next + i, chain, limits);
        assert batch.records[i] in batch.records;
      }
    }
  }

  /** Batch boundaries do not matter: two transports with the same filters give the same outcome. */
  lemma BatchingIrrelevant(hasher: KeyedHash, first: Transport, second: Transport, filters: nat -> seq<byte>,
                           request: RangeRequest, chain: AcceptedChain, wallet: seq<Script>, limits: FilterLimits)
    requires Serves(first, filters) && Serves(second, filters)
    requires Sync(hasher, first, request, chain, wallet, limits).Some?
    requires Sync(hasher, second, request, chain, wallet, limits).Some?
    ensures Sync(hasher, first, request, chain, wallet, limits) == Sync(hasher, second, request, chain, wallet, limits)
  {
    hide EncodableValues, Scan, Validate;
    var start, stop := request.startHeight, HeightOf(chain, request.stopBlockHash).value;
    if start <= stop {
      SyncCoverage(first, request, chain, limits, 0, start, stop);
      SyncCoverage(second, request, chain, limits, 0, start, stop);
      SyncDetermined(first, filters, request, chain, limits, 0, start, stop);
      SyncDetermined(second, filters, request, chain, limits, 0, start, stop);
      var a := SyncFrom(first, request, chain, limits, 0, start, stop).value;
      var b := SyncFrom(second, request, chain, limits, 0, start, stop).value;
      forall i | 0 <= i < |a|
        ensures a[i] == b[i]
      {
        assert Covers(a[i], start + i, chain) && Covers(b[i], start + i, chain);
      }
      assert a == b;
    }
  }

  /** Matches one checked batch and extends the outcome record by record. */
  method Absorb(hasher: KeyedHash, wallet: seq<Script>, request: RangeRequest, before: SyncOutcome,
                checked: seq<CheckedRecord>, ghost done: seq<CheckedRecord>) returns (outcome: SyncOutcome)
    requires Mappable(done) && Mappable(checked)
    requires forall c | c in checked :: EncodableValues(c.values)
    requires before == Outcome(hasher, wallet, request, done)
    ensures Mappable(done + checked)
    ensures outcome == Outcome(hasher, wallet, request, done + checked)
  {
    hide EncodableValues, Matches, Scan;
    outcome := before;
    assert done + checked[..0] == done;
    for k := 0 to |checked|
      invariant Mappable(done + checked[..k])
      invariant outcome == Outcome(hasher, wallet, request, done + checked[..k])
    {
      var record := checked[k];
      assert record in checked;
      var indices := MatchScripts(hasher, record.blockHash, record.values, wallet);
      var matches := outcome.matches;
      if indices != [] {
        matches := matches + [BlockMatch(record.height, record.blockHash, indices)];
      }
      AbsorbOne(hasher, wallet, request, done + checked[..k], record);
      assert done + checked[..k + 1] == done + checked[..k] + [record];
      outcome := SyncOutcome(matches, record.height, record.blockHash, outcome.filtersChecked + 1);
    }
    assert checked[..|checked|] == checked;
  }

  lemma AbsorbOne(hasher: KeyedHash, wallet: seq<Script>, request: RangeRequest, done: seq<CheckedRecord>, record: CheckedRecord)
    requires Mappable(done) && |record.values| * M < U64_LIMIT
    ensures Mappable(done + [record])
    ensures var indices := Matches(hasher, record.blockHash, record.values, wallet);
      var before, after := Outcome(hasher, wallet, request, done), Outcome(hasher, wallet, request, done + [record]);
      && after.coveredThrough == record.height && after.coveredBlockHash == record.blockHash
      && after.filtersChecked == before.filtersChecked + 1
      && after.matches == before.matches + if indices == [] then [] else [BlockMatch(record.height, record.blockHash, indices)]
  {
    hide Matches;
    var all := done + [record];
    assert all[..|all| - 1] == done && all[|all| - 1] == record;
  }

  /** The loop the wallet runs; it terminates whatever the transport returns. */
  method SyncRange(hasher: KeyedHash, transport: Transport, request: RangeRequest, chain: AcceptedChain,
                   wallet: seq<Script>, limits: FilterLimits) returns (r: Option<SyncOutcome>)
    ensures r == Sync(hasher, transport, request, chain, wallet, limits)
  {
    hide EncodableValues, Validate, Scan, CheckedBatch, HeightOf, Answers, Acceptable;
    var stopHeight := HeightOf(chain, request.stopBlockHash);
    if stopHeight.None? {
      return None;
    }
    var stop := stopHeight.value;
    var next := request.startHeight;
    var outcome := SyncOutcome([], if next == 0 then 0 else next - 1, request.stopBlockHash, 0);
    var call := 0;
    ghost var done: seq<CheckedRecord> := [];
    ghost var whole := SyncFrom(transport, request, chain, limits, 0, next, stop);
    assert whole.Some? ==> [] + whole.value == whole.value;
    while next <= stop
      invariant Mappable(done) && outcome == Outcome(hasher, wallet, request, done)
      invariant request.startHeight > stop ==> done == []
      invariant whole == Join(done, SyncFrom(transport, request, chain, limits, call, next, stop))
      decreases stop + 1 - next
    {
      var wanted := request.(startHeight := next);
      var batch := transport(call, wanted);
      if batch.None? {
        return None;
      }
      var checked := CheckBatch(batch.value, wanted, chain, limits);
      if checked.None? {
        return None;
      }
      CheckedEncodable(batch.value, wanted, chain, limits);
      JoinStep(done, checked.value, SyncFrom(transport, request, chain, limits, call + 1, next + |checked.value|, stop));
      outcome := Absorb(hasher, wallet, request, outcome, checked.value, done);
      done := done + checked.value;
      next := next + |checked.value|;
      call := call + 1;
    }
    assert done + [] == done;
    return Some(outcome);
  }

  ghost function Join(done: seq<CheckedRecord>, tail: Option<seq<CheckedRecord>>): Option<seq<CheckedRecord>> {
    if tail.None? then None else Some(done + tail.value)
  }

  lemma JoinStep(done: seq<CheckedRecord>, checked: seq<CheckedRecord>, tail: Option<seq<CheckedRecord>>)
    ensures Join(done, Join(checked, tail)) == Join(done + checked, tail)
  {
    if tail.Some? {
      assert done + (checked + tail.value) == (done + checked) + tail.value;
    }
  }
}
