/** The range endpoint, and its agreement with the wallet's checks. */
module RangeService {
  import opened Bytes
  import opened Results
  import opened Chain
  import opened FilterValidation
  import opened Envelope
  import opened RangeClient
  import FilterStore
  import Matching
  import GolombRice

  /** What one service serves: a store, its start height, chain identity and profile. */
  datatype Service = Service(store: FilterStore.Store, start: nat, genesis: BlockHash, profile: seq<byte>)

  function BranchHeight(service: Service, hash: BlockHash): (r: Option<nat>) {
    FilterStore.HeightOf(service.store.memory.chain, service.start, hash)
  }

  function RecordAt(service: Service, height: nat): (r: Option<FilterRecord>) {
    var chain := service.store.memory.chain;
    if height < service.start || height - service.start >= |chain| || height >= U64_LIMIT then None
    else
      var hash := chain[height - service.start];
      var filter :- FilterStore.FilterByHash(service.store, hash);
      Some(FilterRecord(height, hash, filter))
  }

  /** Records for `count` consecutive heights, `None` as soon as one is missing. */
  function RecordsFrom(service: Service, height: nat, count: nat): (r: Option<seq<FilterRecord>>)
    ensures r.Some? ==> |r.value| == count
    ensures r.Some? ==> forall i :: 0 <= i < count ==> RecordAt(service, height + i) == Some(r.value[i])
    decreases count
  {
    if count == 0 then Some([])
    else
      var head :- RecordsFrom(service, height, count - 1);
      var last :- RecordAt(service, height + count - 1);
      Some(head + [last])
  }

  /** The batch assembled for a request, before serialization. */
  function Assemble(service: Service, startHeight: nat, stopHash: BlockHash): (r: Option<FilterBatch>) {
    var stop :- BranchHeight(service, stopHash);
    if startHeight < service.start || startHeight > stop || startHeight >= U64_LIMIT then None
    else
      var records :- RecordsFrom(service, startHeight, Wanted(startHeight, stop));
      Some(FilterBatch(ENVELOPE_VERSION, service.genesis, service.profile, startHeight, stopHash, records))
  }

  /** The response body: the encoded batch, refused when a client could not decode it. */
  function Range(service: Service, startHeight: nat, stopHash: BlockHash): (r: Option<seq<byte>>) {
    var batch :- Assemble(service, startHeight, stopHash);
    var bytes := PutBatch(batch, []);
    if |bytes| > MAX_BATCH_BYTES then None else Some(bytes)
  }

  // ---- which ranges are served, and with what ----

  /** Bodies over 64 MiB are not sent. */
  ghost function ShortEnough(bytes: seq<byte>): (r: Option<seq<byte>>) {
    if |bytes| <= 67_108_864 then Some(bytes) else None
  }

  /** The stop block's first height on the branch. */
  ghost predicate BranchStops(service: Service, hash: BlockHash, stop: nat) {
    var chain := service.store.memory.chain;
    service.start <= stop < service.start + |chain| && chain[stop - service.start] == hash
    && forall i :: 0 <= i < stop - service.start ==> chain[i] != hash
  }

  /** The record is the branch's block at that height with its stored filter. */
  ghost predicate StoredRecord(service: Service, height: nat, record: FilterRecord) {
    var chain := service.store.memory.chain;
    && service.start <= height < service.start + |chain| && height < 0x1_0000_0000_0000_0000
    && record.height == height && record.blockHash == chain[height - service.start]
    && FilterStore.FilterByHash(service.store, record.blockHash) == Some(record.filter)
  }

  /** The batch for the request: consecutive stored records from the start, as many as there should be. */
  ghost predicate BatchFor(service: Service, startHeight: nat, stopHash: BlockHash, batch: FilterBatch) {
    && batch.version == 1 && batch.genesis == service.genesis && batch.profile == service.profile
    && batch.startHeight == startHeight && batch.stopBlockHash == stopHash && service.start <= startHeight
    && (exists stop :: BranchStops(service, stopHash, stop) && FullBatch(startHeight, stop, |batch.records|))
    && forall i :: 0 <= i < |batch.records| ==> StoredRecord(service, startHeight + i, batch.records[i])
  }

  lemma BranchHeightIs(service: Service, hash: BlockHash, stop: nat)
    ensures BranchHeight(service, hash) == Some(stop) <==> BranchStops(service, hash, stop)
  {
    if BranchStops(service, hash, stop) {
      assert hash in service.store.memory.chain;
      var other := BranchHeight(service, hash).value;
      assert other == stop;
    }
  }

  lemma {:induction false} RecordsAre(service: Service, height: nat, records: seq<FilterRecord>)
    ensures RecordsFrom(service, height, |records|) == Some(records)
      <==> (forall i :: 0 <= i < |records| ==> RecordAt(service, height + i) == Some(records[i]))
    decreases |records|
  {
    hide RecordAt;
    if records != [] {
      var n := |records| - 1;
      RecordsAre(service, height, records[..n]);
      assert records == records[..n] + [records[n]];
    }
  }

  lemma RecordIsStored(service: Service, height: nat, record: FilterRecord)
    ensures RecordAt(service, height) == Some(record) <==> StoredRecord(service, height, record)
  {
    hide FilterStore.FilterByHash;
  }

  /** A batch is assembled exactly when there is one for the request, and it is that one. */
  lemma AssembledExactly(service: Service, startHeight: nat, stopHash: BlockHash, batch: FilterBatch)
    ensures Assemble(service, startHeight, stopHash) == Some(batch) <==> BatchFor(service, startHeight, stopHash, batch)
  {
    hide RecordAt, BranchHeight, StoredRecord, BranchStops, Wanted, FullBatch;
    var found := BranchHeight(service, stopHash);
    if found.Some? {
      BranchHeightIs(service, stopHash, found.value);
    }
    forall stop: nat
      ensures BranchStops(service, stopHash, stop) ==> found == Some(stop)
    {
      BranchHeightIs(service, stopHash, stop);
    }
    RecordsAre(service, startHeight, batch.records);
    forall i | 0 <= i < |batch.records|
      ensures RecordAt(service, startHeight + i) == Some(batch.records[i]) <==> StoredRecord(service, startHeight + i, batch.records[i])
    {
      RecordIsStored(service, startHeight + i, batch.records[i]);
    }
    if found.Some? && startHeight <= found.value {
      WantedExactly(startHeight, found.value, |batch.records|);
    }
    if BatchFor(service, startHeight, stopHash, batch) {
      FirstInRange(service, startHeight, stopHash, batch);
    }
  }

  lemma FirstInRange(service: Service, startHeight: nat, stopHash: BlockHash, batch: FilterBatch)
    requires BatchFor(service, startHeight, stopHash, batch)
    ensures startHeight < U64_LIMIT && batch.records != []
    ensures exists stop :: BranchStops(service, stopHash, stop) && startHeight <= stop && FullBatch(startHeight, stop, |batch.records|)
  {
    hide FilterStore.FilterByHash, BranchStops;
    var stop :| BranchStops(service, stopHash, stop) && FullBatch(startHeight, stop, |batch.records|);
    assert StoredRecord(service, startHeight + 0, batch.records[0]);
  }

  method ServeRange(service: Service, startHeight: nat, stopHash: BlockHash) returns (r: Option<seq<byte>>)
    ensures r == Range(service, startHeight, stopHash)
    ensures forall batch | BatchFor(service, startHeight, stopHash, batch) :: r == ShortEnough(PutBatch(batch, []))
    ensures r.Some? ==> exists batch :: BatchFor(service, startHeight, stopHash, batch)
  {
    hide PutBatch, RecordAt, BranchHeight, BatchFor;
    forall batch
      ensures Assemble(service, startHeight, stopHash) == Some(batch) <==> BatchFor(service, startHeight, stopHash, batch)
    {
      AssembledExactly(service, startHeight, stopHash, batch);
    }
    var stop := BranchHeight(service, stopHash);
    if stop.None? || startHeight < service.start || startHeight > stop.value || startHeight >= U64_LIMIT {
      return None;
    }
    var count := Wanted(startHeight, stop.value);
    var records: seq<FilterRecord> := [];
    for i := 0 to count
      invariant RecordsFrom(service, startHeight, i) == Some(records)
    {
      var record := RecordAt(service, startHeight + i);
      if record.None? {
        ShortRange(service, startHeight, i + 1, count);
        return None;
      }
      records := records + [record.value];
    }
    var bytes := Encode(FilterBatch(ENVELOPE_VERSION, service.genesis, service.profile, startHeight, stopHash, records));
    if |bytes| > MAX_BATCH_BYTES {
      return None;
    }
    return Some(bytes);
  }

  lemma {:induction false} ShortRange(service: Service, height: nat, part: nat, count: nat)
    requires part <= count && RecordsFrom(service, height, part).None?
    ensures RecordsFrom(service, height, count).None?
    decreases count
  {
    if part < count {
      ShortRange(service, height, part, count - 1);
    }
  }

  /** The wallet's transport when it talks to this service: fetch, then decode the envelope. */
  function Fetch(service: Service, request: RangeRequest): (r: Option<FilterBatch>) {
    var bytes :- Range(service, request.startHeight, request.stopBlockHash);
    DecodeBatch(bytes)
  }

  predicate Addressed(service: Service, request: RangeRequest) {
    request.genesis == service.genesis && request.profile == service.profile
  }

  /** The wallet holds the service's branch and knows no hash twice. */
  ghost predicate SameChain(service: Service, chain: AcceptedChain) {
    && (forall i :: 0 <= i < |service.store.memory.chain| ==>
          service.start + i in chain && chain[service.start + i] == service.store.memory.chain[i])
    && (forall a, b | a in chain && b in chain :: chain[a] == chain[b] ==> a == b)
  }

  /** Every stored filter of the branch validates, and every batch stays under the byte cap. */
  ghost predicate Servable(service: Service, limits: FilterLimits, stopHash: BlockHash) {
    && service.start + |service.store.memory.chain| <= U64_LIMIT
    && |service.profile| <= MAX_PROFILE_BYTES && ValidUtf8(service.profile)
    && (forall h | h in service.store.memory.chain ::
          && h in service.store.memory.byHash
          && |FilterStore.FilterByHash(service.store, h).value| < U64_LIMIT
          && Validate(FilterStore.FilterByHash(service.store, h).value, limits).Ok?)
    && (forall s | Assemble(service, s, stopHash).Some? ::
          |PutBatch(Assemble(service, s, stopHash).value, [])| <= MAX_BATCH_BYTES)
  }

  lemma {:induction false} RecordsExist(service: Service, limits: FilterLimits, stopHash: BlockHash, height: nat, count: nat)
    requires Servable(service, limits, stopHash)
    requires service.start <= height && height + count <= service.start + |service.store.memory.chain|
    ensures RecordsFrom(service, height, count).Some?
    decreases count
  {
    hide Validate, PutBatch, ValidUtf8;
    if count > 0 {
      RecordsExist(service, limits, stopHash, height, count - 1);
      assert service.store.memory.chain[height + count - 1 - service.start] in service.store.memory.chain;
    }
  }

  lemma BranchHeightAgrees(service: Service, chain: AcceptedChain, hash: BlockHash)
    requires SameChain(service, chain) && hash in service.store.memory.chain
    ensures RangeClient.HeightOf(chain, hash) == BranchHeight(service, hash)
  {
    var height := BranchHeight(service, hash).value;
    assert height in chain && chain[height] == hash;
  }

  lemma RecordAccepted(service: Service, chain: AcceptedChain, limits: FilterLimits, stopHash: BlockHash,
                       height: nat, record: FilterRecord)
    requires SameChain(service, chain) && Servable(service, limits, stopHash)
    requires RecordAt(service, height) == Some(record)
    ensures ValidRecord(record) && InPlace(record, height, chain, limits)
  {
    hide Validate, PutBatch, ValidUtf8, Assemble;
    var hash := service.store.memory.chain[height - service.start];
    assert hash in service.store.memory.chain;
  }

  lemma AssembledAccepted(service: Service, chain: AcceptedChain, request: RangeRequest, limits: FilterLimits,
                          stop: nat, batch: FilterBatch)
    requires SameChain(service, chain) && Addressed(service, request)
    requires Servable(service, limits, request.stopBlockHash)
    requires RangeClient.HeightOf(chain, request.stopBlockHash) == Some(stop)
    requires BranchHeight(service, request.stopBlockHash) == Some(stop) && request.startHeight <= stop
    requires Assemble(service, request.startHeight, request.stopBlockHash) == Some(batch)
    ensures Acceptable(batch, request, chain, limits)
    ensures forall r | r in batch.records :: ValidRecord(r)
  {
    hide Validate, PutBatch, ValidUtf8, Servable, SameChain, RecordAt, BranchHeight, InPlace, ValidRecord;
    forall i | 0 <= i < |batch.records|
      ensures ValidRecord(batch.records[i]) && InPlace(batch.records[i], request.startHeight + i, chain, limits)
    {
      assert RecordAt(service, request.startHeight + i) == Some(batch.records[i]);
      RecordAccepted(service, chain, limits, request.stopBlockHash, request.startHeight + i, batch.records[i]);
    }
  }

  /** Every batch the service sends passes the wallet's check after encoding and decoding. */
  lemma ServedBatchAccepted(service: Service, chain: AcceptedChain, request: RangeRequest, limits: FilterLimits)
    requires SameChain(service, chain) && Addressed(service, request)
    requires Servable(service, limits, request.stopBlockHash)
    requires request.stopBlockHash in service.store.memory.chain
    requires service.start <= request.startHeight
          && request.startHeight <= BranchHeight(service, request.stopBlockHash).value
    ensures RangeClient.HeightOf(chain, request.stopBlockHash) == BranchHeight(service, request.stopBlockHash)
    ensures Fetch(service, request).Some?
    ensures Acceptable(Fetch(service, request).value, request, chain, limits)
  {
    hide Validate, PutBatch, DecodeBatch, ValidUtf8, Acceptable, InPlace, SameChain, RecordAt;
    BranchHeightAgrees(service, chain, request.stopBlockHash);
    var stop := BranchHeight(service, request.stopBlockHash).value;
    RecordsExist(service, limits, request.stopBlockHash, request.startHeight, Wanted(request.startHeight, stop));
    var batch := Assemble(service, request.startHeight, request.stopBlockHash).value;
    AssembledAccepted(service, chain, request, limits, stop, batch);
    BatchRoundTrip(batch);
  }

  function Transporter(service: Service): (t: Transport) {
    (n: nat, r: RangeRequest) => Fetch(service, r)
  }

  /** Repeated range calls always finish: the wallet ends with every height up to the stop block covered. */
  lemma {:induction false} SyncFinishes(service: Service, chain: AcceptedChain, request: RangeRequest,
                                        limits: FilterLimits, call: nat, next: nat, stop: nat)
    requires SameChain(service, chain) && Addressed(service, request) && Servable(service, limits, request.stopBlockHash)
    requires request.stopBlockHash in service.store.memory.chain
    requires BranchHeight(service, request.stopBlockHash) == Some(stop) && service.start <= next
    ensures SyncFrom(Transporter(service), request, chain, limits, call, next, stop).Some?
    decreases stop + 1 - next
  {
    hide Validate, Fetch, Acceptable, Servable;
    if next <= stop {
      var wanted := request.(startHeight := next);
      assert wanted.stopBlockHash == request.stopBlockHash && Addressed(service, wanted);
      ServedBatchAccepted(service, chain, wanted, limits);
      var checked := CheckedBatch(Fetch(service, wanted).value, wanted, chain, limits).value;
      SyncFinishes(service, chain, request, limits, call + 1, next + |checked|, stop);
    }
  }

  /** Server and wallet agree: synchronizing against an unchanging service succeeds with full coverage. */
  lemma ServerAndClientAgree(hasher: KeyedHash, service: Service, chain: AcceptedChain, request: RangeRequest,
                             wallet: seq<Script>, limits: FilterLimits)
    requires SameChain(service, chain) && Addressed(service, request) && Servable(service, limits, request.stopBlockHash)
    requires request.stopBlockHash in service.store.memory.chain
    requires service.start <= request.startHeight
          && request.startHeight <= BranchHeight(service, request.stopBlockHash).value
    ensures
      var outcome := Sync(hasher, Transporter(service), request, chain, wallet, limits);
      && outcome.Some?
      && outcome.value.coveredThrough == BranchHeight(service, request.stopBlockHash).value
      && outcome.value.coveredBlockHash == request.stopBlockHash
      && outcome.value.filtersChecked == BranchHeight(service, request.stopBlockHash).value - request.startHeight + 1
  {
    hide Validate, Fetch, Acceptable, Servable;
    var stop := BranchHeight(service, request.stopBlockHash).value;
    ServedBatchAccepted(service, chain, request, limits);
    SyncFinishes(service, chain, request, limits, 0, request.startHeight, stop);
    SyncCoversExactly(hasher, Transporter(service), request, chain, wallet, limits);
  }

  // ---- nothing is missed ----

  /** The stored filter of a covered height was built from the scripts of its block. */
  ghost predicate BuiltFrom(hasher: KeyedHash, service: Service, limits: FilterLimits, height: nat, elements: seq<Script>) {
    && service.start <= height < service.start + |service.store.memory.chain|
    && var hash := service.store.memory.chain[height - service.start];
    && |Matching.Elements(elements)| * GolombRice.M < U64_LIMIT
    && EncodableValues(Matching.BuiltValues(hasher, hash, elements))
    && WithinLimits(EncodeFilter(Matching.BuiltValues(hasher, hash, elements)), Matching.BuiltValues(hasher, hash, elements), limits)
    && FilterStore.FilterByHash(service.store, hash) == Some(EncodeFilter(Matching.BuiltValues(hasher, hash, elements)))
  }

  /** The transport of this service hands out the stored filter of each height, whatever it is asked. */
  function StoredAt(service: Service): (f: nat -> seq<byte>) {
    (height: nat) =>
      if RecordAt(service, height).Some? then RecordAt(service, height).value.filter else []
  }

  ghost predicate ShortFilters(service: Service) {
    forall h | h in service.store.memory.chain ::
      h in service.store.memory.byHash && |FilterStore.FilterByHash(service.store, h).value| < U64_LIMIT
  }

  lemma FetchedRecords(service: Service, request: RangeRequest, r: FilterRecord)
    requires Fetch(service, request).Some? && r in Fetch(service, request).value.records && |service.profile| <= MAX_PROFILE_BYTES
    requires ValidUtf8(service.profile) && ShortFilters(service)
    ensures RecordAt(service, r.height) == Some(r)
  {
    hide PutBatch, DecodeBatch, ValidUtf8, RecordAt, ValidRecord, BranchHeight;
    var batch := Assemble(service, request.startHeight, request.stopBlockHash).value;
    forall i | 0 <= i < |batch.records|
      ensures ValidRecord(batch.records[i]) && RecordAt(service, batch.records[i].height) == Some(batch.records[i])
    {
      assert RecordAt(service, request.startHeight + i) == Some(batch.records[i]);
      RecordShape(service, request.startHeight + i, batch.records[i]);
    }
    BatchRoundTrip(batch);
    var i :| 0 <= i < |batch.records| && batch.records[i] == r;
  }

  lemma RecordShape(service: Service, height: nat, record: FilterRecord)
    requires RecordAt(service, height) == Some(record)
    requires ShortFilters(service)
    ensures record.height == height && ValidRecord(record)
  {
    assert service.store.memory.chain[height - service.start] in service.store.memory.chain;
  }

  lemma ServesStored(service: Service)
    requires |service.profile| <= MAX_PROFILE_BYTES && ValidUtf8(service.profile)
    requires ShortFilters(service)
    ensures Serves(Transporter(service), StoredAt(service))
  {
    hide Fetch, RecordAt, ValidUtf8;
    forall call: nat, request, r | Transporter(service)(call, request).Some? && r in Transporter(service)(call, request).value.records
      ensures r.filter == StoredAt(service)(r.height)
    {
      FetchedRecords(service, request, r);
    }
  }

  /**
   End to end: against an unchanging service whose filters were built from the blocks' scripts, a
   finished synchronization lists every height from start to stop whose block holds an eligible wallet
   script, with that script among the matches.
   */
  lemma SyncFindsEverything(hasher: KeyedHash, service: Service, chain: AcceptedChain, request: RangeRequest, wallet: seq<Script>,
                            limits: FilterLimits, height: nat, elements: seq<Script>, k: nat)
    requires SameChain(service, chain) && Addressed(service, request)
    requires Servable(service, limits, request.stopBlockHash)
    requires request.stopBlockHash in service.store.memory.chain && service.start <= request.startHeight
    requires request.startHeight <= height <= BranchHeight(service, request.stopBlockHash).value
    requires BuiltFrom(hasher, service, limits, height, elements)
    requires k < |wallet| && wallet[k] in elements && IsFilterElement(wallet[k])
    ensures var outcome := Sync(hasher, Transporter(service), request, chain, wallet, limits);
      && outcome.Some?
      && Lists(outcome.value.matches, height, k)
  {
    hide Validate, Fetch, Servable, Acceptable, SyncFrom, BuiltFrom, Sync, SameChain, Addressed, Transporter;
    ServerAndClientAgree(hasher, service, chain, request, wallet, limits);
    BranchHeightAgrees(service, chain, request.stopBlockHash);
    FindsAt(hasher, service, chain, request, wallet, limits, BranchHeight(service, request.stopBlockHash).value, height, elements, k);
  }

  /** The match list names this height with wallet position `k` among its matches. */
  ghost predicate Lists(matches: seq<BlockMatch>, height: nat, k: nat) {
    exists m :: m in matches && m.height == height && k in m.indices
  }

  lemma FindsAt(hasher: KeyedHash, service: Service, chain: AcceptedChain, request: RangeRequest, wallet: seq<Script>,
                limits: FilterLimits, stop: nat, height: nat, elements: seq<Script>, k: nat)
    requires SameChain(service, chain) && Servable(service, limits, request.stopBlockHash)
    requires RangeClient.HeightOf(chain, request.stopBlockHash) == Some(stop) && request.startHeight <= height <= stop
    requires Sync(hasher, Transporter(service), request, chain, wallet, limits).Some?
    requires BuiltFrom(hasher, service, limits, height, elements)
    requires k < |wallet| && wallet[k] in elements && IsFilterElement(wallet[k])
    ensures Lists(Sync(hasher, Transporter(service), request, chain, wallet, limits).value.matches, height, k)
  {
    hide *;
    SyncScans(hasher, Transporter(service), request, chain, wallet, limits, stop);
    var records := SyncFrom(Transporter(service), request, chain, limits, 0, request.startHeight, stop).value;
    RecordOfHeight(hasher, service, chain, request, limits, stop, records, height, elements, wallet, k);
    MatchListed(hasher, wallet, records, request.startHeight, height - request.startHeight, k);
  }

  lemma SyncScans(hasher: KeyedHash, transport: Transport, request: RangeRequest, chain: AcceptedChain, wallet: seq<Script>,
                  limits: FilterLimits, stop: nat)
    requires Sync(hasher, transport, request, chain, wallet, limits).Some?
    requires RangeClient.HeightOf(chain, request.stopBlockHash) == Some(stop) && request.startHeight <= stop
    ensures var records := SyncFrom(transport, request, chain, limits, 0, request.startHeight, stop);
      && records.Some? && Mappable(records.value) && |records.value| == stop + 1 - request.startHeight
      && (forall i :: 0 <= i < |records.value| ==> Covers(records.value[i], request.startHeight + i, chain))
      && (forall i :: 0 <= i < |records.value| ==> records.value[i].height == request.startHeight + i)
      && Sync(hasher, transport, request, chain, wallet, limits).value.matches == Scan(hasher, wallet, records.value)
  {
    hide SyncFrom, RangeClient.HeightOf, Scan, Covers;
    SyncCoverage(transport, request, chain, limits, 0, request.startHeight, stop);
    HeightsOf(SyncFrom(transport, request, chain, limits, 0, request.startHeight, stop).value, request.startHeight, chain);
  }

  lemma HeightsOf(records: seq<CheckedRecord>, start: nat, chain: AcceptedChain)
    requires forall i :: 0 <= i < |records| ==> Covers(records[i], start + i, chain)
    ensures forall i :: 0 <= i < |records| ==> records[i].height == start + i
  {
  }

  lemma MatchListed(hasher: KeyedHash, wallet: seq<Script>, records: seq<CheckedRecord>, start: nat, i: nat, k: nat)
    requires Mappable(records) && i < |records| && forall j :: 0 <= j < |records| ==> records[j].height == start + j
    requires k in Matching.Matches(hasher, records[i].blockHash, records[i].values, wallet)
    ensures Lists(Scan(hasher, wallet, records), start + i, k)
  {
    hide Scan, Matching.Matches;
    ScanExact(hasher, wallet, records, start);
    var m := MatchAt(hasher, wallet, records[i]);
    assert m in Scan(hasher, wallet, records) && m.height == start + i && k in m.indices;
  }

  /** The record synchronized for a height is the validated filter of its block. */
  lemma RecordOfHeight(hasher: KeyedHash, service: Service, chain: AcceptedChain, request: RangeRequest, limits: FilterLimits, stop: nat,
                       records: seq<CheckedRecord>, height: nat, elements: seq<Script>, wallet: seq<Script>, k: nat)
    requires SameChain(service, chain) && Servable(service, limits, request.stopBlockHash)
    requires SyncFrom(Transporter(service), request, chain, limits, 0, request.startHeight, stop) == Some(records)
    requires request.startHeight <= height && height - request.startHeight < |records| && Mappable(records)
    requires Covers(records[height - request.startHeight], request.startHeight + (height - request.startHeight), chain)
    requires BuiltFrom(hasher, service, limits, height, elements)
    requires k < |wallet| && wallet[k] in elements && IsFilterElement(wallet[k])
    ensures var record := records[height - request.startHeight];
      k in Matching.Matches(hasher, record.blockHash, record.values, wallet)
  {
    hide Validate, Servable, SyncFrom, EncodableValues, EncodeFilter, Matching.BuiltValues, Matching.Matches, RecordAt, SameChain;
    var hash := service.store.memory.chain[height - service.start];
    ServableProfile(service, limits, request.stopBlockHash);
    ServesStored(service);
    SyncDetermined(Transporter(service), StoredAt(service), request, chain, limits, 0, request.startHeight, stop);
    SameHash(service, chain, height);
    ServableHeight(service, limits, request.stopBlockHash, height);
    Matching.NoFalseNegatives(hasher, hash, elements, limits, wallet, k);
  }

  lemma ServableProfile(service: Service, limits: FilterLimits, stopHash: BlockHash)
    requires Servable(service, limits, stopHash)
    ensures |service.profile| <= MAX_PROFILE_BYTES && ValidUtf8(service.profile) && ShortFilters(service)
  {
    hide Validate, PutBatch, ValidUtf8, Assemble;
  }

  lemma ServableHeight(service: Service, limits: FilterLimits, stopHash: BlockHash, height: nat)
    requires Servable(service, limits, stopHash) && service.start <= height < service.start + |service.store.memory.chain|
    ensures var hash := service.store.memory.chain[height - service.start];
      && RecordAt(service, height).Some?
      && FilterStore.FilterByHash(service.store, hash) == Some(RecordAt(service, height).value.filter)
  {
    hide Validate, PutBatch, ValidUtf8, Assemble;
    assert service.store.memory.chain[height - service.start] in service.store.memory.chain;
  }

  lemma SameHash(service: Service, chain: AcceptedChain, height: nat)
    requires SameChain(service, chain) && service.start <= height < service.start + |service.store.memory.chain|
    ensures height in chain && chain[height] == service.store.memory.chain[height - service.start]
  {
    var i := height - service.start;
    var hash := service.store.memory.chain[i];
    assert service.start + i == height;
    assert service.start + i in chain && chain[service.start + i] == hash;
  }
}
