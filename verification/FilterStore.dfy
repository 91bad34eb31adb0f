/** Immutable per-block filter storage: append-only content, a replaceable height map, one atomic checkpoint. */
module FilterStore {
  import opened Bytes
  import opened Results
  import opened Chain

  const INDEX_RECORD_BYTES: nat := 76
  const CHAIN_RECORD_BYTES: nat := 32

  /** SHA-256 double hash of filter bytes: left uninterpreted. */
  type Digest = s: seq<byte> | |s| == 32 witness Zeros(32)
  type Digester = seq<byte> -> Digest

  datatype Located = Located(offset: nat, length: nat, digest: Digest)

  /** Committed lengths of filters.bin, index.bin and chain.bin. */
  datatype Checkpoint = Checkpoint(filters: nat, index: nat, chain: nat)

  datatype Disk = Disk(filters: seq<byte>, index: seq<byte>, chain: seq<byte>, checkpoint: Option<Checkpoint>)

  /** What the process holds besides the files. */
  datatype Memory = Memory(byHash: map<BlockHash, Located>, chain: seq<BlockHash>, filtersLength: nat)

  datatype Store = Store(disk: Disk, memory: Memory)

  /** What the store means: bytes by block hash, and the covered branch from the start height. */
  datatype View = View(content: map<BlockHash, seq<byte>>, chain: seq<BlockHash>)

  const EMPTY_DISK := Disk([], [], [], None)
  const EMPTY_VIEW := View(map[], [])

  // ---- file formats ----

  /** One index record; offset and length are truncated to their field widths. */
  function IndexRecord(hash: BlockHash, at: Located): (s: seq<byte>)
    ensures |s| == INDEX_RECORD_BYTES
  {
    hash + ToLE(at.offset, 8) + ToLE(at.length, 4) + at.digest
  }

  function ReadIndexRecord(s: seq<byte>): (r: (BlockHash, Located))
    requires |s| == INDEX_RECORD_BYTES
  {
    (s[0..32], Located(FromLE(s[32..40]), FromLE(s[40..44]), s[44..76]))
  }

  lemma FourFields(a: seq<byte>, b: seq<byte>, c: seq<byte>, d: seq<byte>)
    ensures var s, i, j, k := a + b + c + d, |a|, |a| + |b|, |a| + |b| + |c|;
      s[0..i] == a && s[i..j] == b && s[j..k] == c && s[k..k + |d|] == d
  {
  }

  lemma ReadOfIndexRecord(hash: BlockHash, at: Located)
    requires at.offset < U64_LIMIT && at.length < U32_LIMIT
    ensures ReadIndexRecord(IndexRecord(hash, at)) == (hash, at)
  {
    hide ToLE, FromLE;
    FourFields(hash, ToLE(at.offset, 8), ToLE(at.length, 4), at.digest);
    Pow256Values();
    FromToLE(at.offset, 8);
    FromToLE(at.length, 4);
  }

  /** The hash map rebuilt from index.bin, later records overriding earlier ones. */
  function ReadIndex(bytes: seq<byte>): (m: map<BlockHash, Located>)
    requires |bytes| % INDEX_RECORD_BYTES == 0
  {
    if bytes == [] then map[]
    else
      var cut := |bytes| - INDEX_RECORD_BYTES;
      var (hash, at) := ReadIndexRecord(bytes[cut..]);
      ReadIndex(bytes[..cut])[hash := at]
  }

  function ReadChain(bytes: seq<byte>): (c: seq<BlockHash>)
    requires |bytes| % CHAIN_RECORD_BYTES == 0
    ensures |c| * CHAIN_RECORD_BYTES == |bytes|
  {
    if bytes == [] then []
    else
      var cut := |bytes| - CHAIN_RECORD_BYTES;
      ReadChain(bytes[..cut]) + [bytes[cut..]]
  }

  // ---- operations ----

  function CheckpointOf(disk: Disk): (c: Checkpoint) {
    if disk.checkpoint.Some? then disk.checkpoint.value else Checkpoint(0, 0, 0)
  }

  /** Files no shorter than the checkpoint, and whole records up to it. */
  predicate Openable(disk: Disk) {
    var c := CheckpointOf(disk);
    && c.filters <= |disk.filters| && c.index <= |disk.index| && c.chain <= |disk.chain|
    && c.index % INDEX_RECORD_BYTES == 0 && c.chain % CHAIN_RECORD_BYTES == 0
  }

  /** Discards every tail written after the checkpoint and rebuilds memory. */
  function Open(disk: Disk): (r: Option<Store>) {
    if !Openable(disk) then None
    else
      var c := CheckpointOf(disk);
      var kept := disk.(filters := disk.filters[..c.filters], index := disk.index[..c.index], chain := disk.chain[..c.chain]);
      Some(Store(kept, Memory(ReadIndex(kept.index), ReadChain(kept.chain), c.filters)))
  }

  function NextHeight(store: Store, start: nat): (h: nat) {
    start + |store.memory.chain|
  }

  /** An append is refused at the wrong height, or for a known block with another digest. */
  predicate Refused(store: Store, start: nat, digester: Digester, height: nat, hash: BlockHash, filter: seq<byte>) {
    || height != NextHeight(store, start)
    || (hash in store.memory.byHash && store.memory.byHash[hash].digest != digester(filter))
  }

  function NewLocation(store: Store, digester: Digester, filter: seq<byte>): (at: Located) {
    Located(store.memory.filtersLength, |filter| % U32_LIMIT, digester(filter))
  }

  /** The writes of one append, in order. */
  function WriteContent(store: Store, digester: Digester, hash: BlockHash, filter: seq<byte>): (s: Store) {
    if hash in store.memory.byHash then store
    else
      var at := NewLocation(store, digester, filter);
      Store(store.disk.(filters := store.disk.filters + filter, index := store.disk.index + IndexRecord(hash, at)),
            store.memory.(byHash := store.memory.byHash[hash := at],
                          filtersLength := store.memory.filtersLength + |filter|))
  }

  function WriteChain(store: Store, hash: BlockHash): (s: Store) {
    Store(store.disk.(chain := store.disk.chain + hash), store.memory.(chain := store.memory.chain + [hash]))
  }

  function Appended(store: Store, start: nat, digester: Digester, height: nat, hash: BlockHash, filter: seq<byte>)
    : (s: Store)
  {
    if Refused(store, start, digester, height, hash, filter) then store
    else WriteChain(WriteContent(store, digester, hash, filter), hash)
  }

  function Committed(store: Store): (s: Store) {
    store.(disk := store.disk.(checkpoint := Some(Checkpoint(
      store.memory.filtersLength,
      |store.memory.byHash| * INDEX_RECORD_BYTES,
      |store.memory.chain| * CHAIN_RECORD_BYTES))))
  }

  function Keep(length: nat, start: nat, height: Option<nat>): (n: nat)
    ensures n <= length
  {
    if height.None? || height.value < start then 0
    else if height.value - start + 1 <= length then height.value - start + 1 else length
  }

  /** Coverage cut in memory and on disk, the checkpoint not yet moved. */
  function TruncatedChain(store: Store, keep: nat): (s: Store)
    requires keep <= |store.memory.chain| && |store.disk.chain| == |store.memory.chain| * CHAIN_RECORD_BYTES
  {
    Store(store.disk.(chain := store.disk.chain[..keep * CHAIN_RECORD_BYTES]),
          store.memory.(chain := store.memory.chain[..keep]))
  }

  /** Where an append is when the process dies, with the bytes of the torn write that reached the disk. */
  datatype CrashPoint = InFilters(bytes: nat) | InIndex(bytes: nat) | InChain(bytes: nat)

  function Torn(s: seq<byte>, n: nat): (t: seq<byte>) {
    if n <= |s| then s[..n] else s
  }

  function CrashedAppend(store: Store, start: nat, digester: Digester, height: nat, hash: BlockHash,
                         filter: seq<byte>, point: CrashPoint): (d: Disk)
  {
    var disk := store.disk;
    if Refused(store, start, digester, height, hash, filter) then disk
    else
      var unseen := hash !in store.memory.byHash;
      match point
      case InFilters(n) => if unseen then disk.(filters := disk.filters + Torn(filter, n)) else disk
      case InIndex(n) =>
        if unseen then
          disk.(filters := disk.filters + filter,
                index := disk.index + Torn(IndexRecord(hash, NewLocation(store, digester, filter)), n))
        else disk
      case InChain(n) =>
        var written := WriteContent(store, digester, hash, filter).disk;
        written.(chain := written.chain + Torn(hash, n))
  }

  // ---- invariant ----

  predicate Located?(at: Located, filters: seq<byte>) {
    at.offset + at.length <= |filters|
  }

  /** Memory says exactly what the files say, and every covered block has content. */
  predicate Good(store: Store, digester: Digester) {
    var d, m := store.disk, store.memory;
    && m.filtersLength == |d.filters|
    && |d.index| == |m.byHash| * INDEX_RECORD_BYTES && ReadIndex(d.index) == m.byHash
    && |d.chain| == |m.chain| * CHAIN_RECORD_BYTES && ReadChain(d.chain) == m.chain
    && (forall h | h in m.byHash :: Located?(m.byHash[h], d.filters))
    && (forall h | h in m.byHash :: m.byHash[h].digest == digester(Slice(d.filters, m.byHash[h])))
    && (forall h | h in m.chain :: h in m.byHash)
  }

  function Slice(filters: seq<byte>, at: Located): (s: seq<byte>) {
    if at.offset + at.length <= |filters| then filters[at.offset..at.offset + at.length] else []
  }

  function ViewOf(store: Store): (v: View) {
    View(map h | h in store.memory.byHash :: Slice(store.disk.filters, store.memory.byHash[h]), store.memory.chain)
  }

  /** Filter bytes for a block hash, whichever branch it is on. */
  function FilterByHash(store: Store, hash: BlockHash): (r: Option<seq<byte>>)
    ensures r.Some? <==> hash in ViewOf(store).content
    ensures r.Some? ==> r.value == ViewOf(store).content[hash]
  {
    if hash in store.memory.byHash then Some(Slice(store.disk.filters, store.memory.byHash[hash])) else None
  }

  /** Reopening this disk succeeds and gives `view`. */
  predicate Recovers(disk: Disk, view: View, digester: Digester) {
    && Open(disk).Some?
    && Good(Open(disk).value, digester)
    && ViewOf(Open(disk).value) == view
  }

  // ---- what each step does to the meaning ----

  predicate Extends(disk: Disk, more: Disk) {
    && disk.filters <= more.filters && disk.index <= more.index && disk.chain <= more.chain
    && disk.checkpoint == more.checkpoint
  }

  /** Whatever was written after the checkpoint is invisible to a reopen. */
  lemma OpenIgnoresTails(disk: Disk, more: Disk)
    requires Openable(disk) && Extends(disk, more)
    ensures Open(more) == Open(disk)
  {
    var c := CheckpointOf(disk);
    assert more.filters[..c.filters] == disk.filters[..c.filters];
    assert more.index[..c.index] == disk.index[..c.index];
    assert more.chain[..c.chain] == disk.chain[..c.chain];
  }

  lemma ReadIndexAppend(bytes: seq<byte>, hash: BlockHash, at: Located)
    requires |bytes| % INDEX_RECORD_BYTES == 0
    requires at.offset < U64_LIMIT && at.length < U32_LIMIT
    ensures ReadIndex(bytes + IndexRecord(hash, at)) == ReadIndex(bytes)[hash := at]
  {
    hide IndexRecord, ReadIndexRecord;
    ReadOfIndexRecord(hash, at);
    var all := bytes + IndexRecord(hash, at);
    assert all[|bytes|..] == IndexRecord(hash, at) && all[..|bytes|] == bytes;
  }

  lemma ReadChainAppend(bytes: seq<byte>, hash: BlockHash)
    requires |bytes| % CHAIN_RECORD_BYTES == 0
    ensures ReadChain(bytes + hash) == ReadChain(bytes) + [hash]
  {
    var all := bytes + hash;
    assert all[|bytes|..] == hash && all[..|bytes|] == bytes;
  }

  lemma {:induction false} ReadChainPrefix(bytes: seq<byte>, count: nat, keep: nat)
    requires |bytes| == 32 * count && keep <= count
    ensures ReadChain(bytes[..32 * keep]) == ReadChain(bytes)[..keep]
    decreases count
  {
    if keep == count {
      assert bytes[..32 * keep] == bytes;
    } else {
      var cut := 32 * (count - 1);
      ReadChainPrefix(bytes[..cut], count - 1, keep);
      PrefixOfPrefix(bytes, cut, 32 * keep);
      ReadChainStep(bytes, cut);
    }
  }

  lemma PrefixOfPrefix(bytes: seq<byte>, cut: nat, keep: nat)
    requires keep <= cut <= |bytes|
    ensures bytes[..cut][..keep] == bytes[..keep]
  {
  }

  lemma ReadChainStep(bytes: seq<byte>, cut: nat)
    requires |bytes| == cut + 32 && cut % 32 == 0
    ensures ReadChain(bytes) == ReadChain(bytes[..cut]) + [bytes[cut..]]
  {
  }

  lemma SliceOfExtended(filters: seq<byte>, more: seq<byte>, at: Located)
    requires Located?(at, filters)
    ensures Located?(at, filters + more) && Slice(filters + more, at) == Slice(filters, at)
  {
    assert (filters + more)[at.offset..at.offset + at.length] == filters[at.offset..at.offset + at.length];
  }

  lemma SliceOfNew(filters: seq<byte>, filter: seq<byte>, at: Located)
    requires at.offset == |filters| && at.length == |filter|
    ensures Located?(at, filters + filter) && Slice(filters + filter, at) == filter
  {
    assert (filters + filter)[at.offset..at.offset + at.length] == filter;
  }

  /** Storing content keeps the invariant, adds exactly the new bytes, and changes no others. */
  lemma WriteContentGood(store: Store, digester: Digester, hash: BlockHash, filter: seq<byte>)
    requires Good(store, digester)
    requires |filter| < U32_LIMIT && |store.disk.filters| < U64_LIMIT
    ensures var s := WriteContent(store, digester, hash, filter);
      && Good(s, digester) && hash in s.memory.byHash
      && ViewOf(s) == View(if hash in ViewOf(store).content then ViewOf(store).content
                           else ViewOf(store).content[hash := filter], store.memory.chain)
  {
    if hash !in store.memory.byHash {
      hide *;
      WriteNewContent(store, digester, hash, filter);
    }
  }

  lemma SlicesKept(store: Store, filter: seq<byte>, digester: Digester)
    requires Good(store, digester)
    ensures forall h | h in store.memory.byHash ::
      && Located?(store.memory.byHash[h], store.disk.filters + filter)
      && Slice(store.disk.filters + filter, store.memory.byHash[h]) == Slice(store.disk.filters, store.memory.byHash[h])
  {
    hide ReadIndex, ReadChain, Slice;
    forall h | h in store.memory.byHash
      ensures && Located?(store.memory.byHash[h], store.disk.filters + filter)
        && Slice(store.disk.filters + filter, store.memory.byHash[h]) == Slice(store.disk.filters, store.memory.byHash[h])
    {
      SliceOfExtended(store.disk.filters, filter, store.memory.byHash[h]);
    }
  }

  lemma WriteNewContent(store: Store, digester: Digester, hash: BlockHash, filter: seq<byte>)
    requires Good(store, digester) && hash !in store.memory.byHash
    requires |filter| < U32_LIMIT && |store.disk.filters| < U64_LIMIT
    ensures hash !in ViewOf(store).content
    ensures var s := WriteContent(store, digester, hash, filter);
      && Good(s, digester) && hash in s.memory.byHash
      && ViewOf(s) == View(ViewOf(store).content[hash := filter], store.memory.chain)
  {
    hide IndexRecord, ReadIndex, ReadChain, Slice, Located?;
    var s, at := WriteContent(store, digester, hash, filter), NewLocation(store, digester, filter);
    assert at == Located(|store.disk.filters|, |filter|, digester(filter));
    assert s.disk.filters == store.disk.filters + filter;
    ReadIndexAppend(store.disk.index, hash, at);
    assert |s.memory.byHash| == |store.memory.byHash| + 1;
    SliceOfNew(store.disk.filters, filter, at);
    SlicesKept(store, filter, digester);
    assert Good(s, digester);
    assert ViewOf(s).content == ViewOf(store).content[hash := filter];
  }

  lemma WriteChainGood(store: Store, digester: Digester, hash: BlockHash)
    requires Good(store, digester) && hash in store.memory.byHash
    ensures Good(WriteChain(store, hash), digester)
    ensures ViewOf(WriteChain(store, hash)) == View(ViewOf(store).content, store.memory.chain + [hash])
  {
    hide ReadIndex, ReadChain;
    ReadChainAppend(store.disk.chain, hash);
  }

  lemma TruncateGood(store: Store, digester: Digester, keep: nat)
    requires Good(store, digester) && keep <= |store.memory.chain|
    ensures Good(TruncatedChain(store, keep), digester)
    ensures ViewOf(TruncatedChain(store, keep)) == View(ViewOf(store).content, store.memory.chain[..keep])
  {
    hide ReadIndex, ReadChain;
    ReadChainPrefix(store.disk.chain, |store.memory.chain|, keep);
  }

  /** A commit makes the current state the one a reopen finds. */
  lemma CommitRecovers(store: Store, digester: Digester)
    requires Good(store, digester)
    ensures Good(Committed(store), digester) && ViewOf(Committed(store)) == ViewOf(store)
    ensures Open(Committed(store).disk) == Some(Committed(store))
    ensures Recovers(Committed(store).disk, ViewOf(store), digester)
  {
    hide ReadIndex, ReadChain;
    var d := Committed(store).disk;
    assert d.filters[..|d.filters|] == d.filters && d.index[..|d.index|] == d.index && d.chain[..|d.chain|] == d.chain;
  }

  // ---- runs ----

  datatype Event =
    | Append(height: nat, hash: BlockHash, filter: seq<byte>)
    | CrashInAppend(height: nat, hash: BlockHash, filter: seq<byte>, point: CrashPoint)
    | Commit
    | CrashInCommit(renamed: bool)
    | Rollback(to: Option<nat>)
    | Restart

  /** One event on the real store; a crash is followed by a reopen. */
  function Step(store: Store, start: nat, digester: Digester, e: Event): (r: Option<Store>)
    requires |store.disk.chain| == |store.memory.chain| * CHAIN_RECORD_BYTES
  {
    match e
    case Append(height, hash, filter) => Some(Appended(store, start, digester, height, hash, filter))
    case CrashInAppend(height, hash, filter, point) =>
      Open(CrashedAppend(store, start, digester, height, hash, filter, point))
    case Commit => Some(Committed(store))
    case CrashInCommit(renamed) => Open(if renamed then Committed(store).disk else store.disk)
    case Rollback(to) => Some(Committed(TruncatedChain(store, Keep(|store.memory.chain|, start, to))))
    case Restart => Open(store.disk)
  }

  /** The same event on the meaning: the current view and the last durable one. */
  datatype Views = Views(current: View, durable: View)

  function ViewStep(v: Views, start: nat, digester: Digester, e: Event): (r: Views) {
    match e
    case Append(height, hash, filter) =>
      if height != start + |v.current.chain|
         || (hash in v.current.content && digester(v.current.content[hash]) != digester(filter)) then v
      else
        var content := if hash in v.current.content then v.current.content else v.current.content[hash := filter];
        v.(current := View(content, v.current.chain + [hash]))
    case CrashInAppend(_, _, _, _) => v.(current := v.durable)
    case Commit => v.(durable := v.current)
    case CrashInCommit(renamed) => if renamed then v.(durable := v.current) else v.(current := v.durable)
    case Rollback(to) =>
      var kept := v.current.(chain := v.current.chain[..Keep(|v.current.chain|, start, to)]);
      Views(kept, kept)
    case Restart => v.(current := v.durable)
  }

  /** The store means `v`: its own view is current, and a reopen at any moment gives the durable one. */
  predicate Means(store: Store, v: Views, digester: Digester) {
    && Good(store, digester)
    && ViewOf(store) == v.current
    && Recovers(store.disk, v.durable, digester)
  }

  /** File sizes stay within the field widths of the index. */
  predicate Fits(store: Store, e: Event) {
    && |store.disk.filters| < U64_LIMIT
    && (e.Append? || e.CrashInAppend? ==> |e.filter| < U32_LIMIT)
  }

  lemma StepRefines(store: Store, v: Views, start: nat, digester: Digester, e: Event)
    requires Means(store, v, digester) && Fits(store, e)
    ensures Step(store, start, digester, e).Some?
    ensures Means(Step(store, start, digester, e).value, ViewStep(v, start, digester, e), digester)
  {
    hide IndexRecord, ReadIndex, ReadChain;
    match e
    case Append(height, hash, filter) =>
      AppendRefines(store, v, start, digester, height, hash, filter);
    case CrashInAppend(height, hash, filter, point) =>
      OpenIgnoresTails(store.disk, CrashedAppend(store, start, digester, height, hash, filter, point));
      ReopenMeans(store.disk, v.durable, digester);
    case Commit =>
      CommitRecovers(store, digester);
    case CrashInCommit(renamed) =>
      CommitRecovers(store, digester);
      ReopenMeans(store.disk, v.durable, digester);
    case Rollback(to) =>
      var keep := Keep(|store.memory.chain|, start, to);
      TruncateGood(store, digester, keep);
      CommitRecovers(TruncatedChain(store, keep), digester);
    case Restart =>
      ReopenMeans(store.disk, v.durable, digester);
  }

  lemma AppendRefines(store: Store, v: Views, start: nat, digester: Digester, height: nat, hash: BlockHash,
                      filter: seq<byte>)
    requires Means(store, v, digester) && |filter| < U32_LIMIT && |store.disk.filters| < U64_LIMIT
    ensures Means(Appended(store, start, digester, height, hash, filter),
                  ViewStep(v, start, digester, Append(height, hash, filter)), digester)
  {
    hide IndexRecord, ReadIndex, ReadChain;
    if !Refused(store, start, digester, height, hash, filter) {
      WriteContentGood(store, digester, hash, filter);
      var written := WriteContent(store, digester, hash, filter);
      WriteChainGood(written, digester, hash);
      OpenIgnoresTails(store.disk, WriteChain(written, hash).disk);
    }
  }

  /** A reopened store is in its durable state, and reopening it again changes nothing. */
  lemma ReopenMeans(disk: Disk, view: View, digester: Digester)
    requires Recovers(disk, view, digester)
    ensures Means(Open(disk).value, Views(view, view), digester)
  {
    hide ReadIndex, ReadChain;
    var s := Open(disk).value;
    assert s.disk.filters[..|s.disk.filters|] == s.disk.filters;
    assert s.disk.index[..|s.disk.index|] == s.disk.index;
    assert s.disk.chain[..|s.disk.chain|] == s.disk.chain;
    assert Open(s.disk) == Some(s);
  }

  function Replay(v: Views, start: nat, digester: Digester, events: seq<Event>): (r: Views) {
    if events == [] then v
    else ViewStep(Replay(v, start, digester, events[..|events| - 1]), start, digester, events[|events| - 1])
  }

  /** The store after a run, `None` if some reopen failed. */
  function Run(store: Store, start: nat, digester: Digester, events: seq<Event>): (r: Option<Store>) {
    if events == [] then Some(store)
    else
      var s :- Run(store, start, digester, events[..|events| - 1]);
      if |s.disk.chain| == |s.memory.chain| * CHAIN_RECORD_BYTES then Step(s, start, digester, events[|events| - 1])
      else None
  }

  /** Every append of the run keeps files within the index's field widths. */
  ghost predicate RunFits(store: Store, start: nat, digester: Digester, events: seq<Event>) {
    forall i :: 0 <= i < |events| && Run(store, start, digester, events[..i]).Some? ==>
      Fits(Run(store, start, digester, events[..i]).value, events[i])
  }

  /**
   Crash recovery over every run of appends, commits, rollbacks, restarts and crashes at any write
   boundary: no reopen ever fails, and the store always means exactly what the replayed views say.
   */
  lemma {:induction false} RunRefines(store: Store, v: Views, start: nat, digester: Digester, events: seq<Event>)
    requires Means(store, v, digester) && RunFits(store, start, digester, events)
    ensures Run(store, start, digester, events).Some?
    ensures Means(Run(store, start, digester, events).value, Replay(v, start, digester, events), digester)
  {
    hide Good, Recovers, Step, ViewStep, Fits;
    if events != [] {
      var n := |events| - 1;
      forall i | 0 <= i < n
        ensures events[..n][..i] == events[..i]
      {
      }
      RunRefines(store, v, start, digester, events[..n]);
      var s := Run(store, start, digester, events[..n]).value;
      GoodChain(s, digester);
      StepRefines(s, Replay(v, start, digester, events[..n]), start, digester, events[n]);
    }
  }

  lemma GoodChain(store: Store, digester: Digester)
    requires Good(store, digester)
    ensures |store.disk.chain| == |store.memory.chain| * CHAIN_RECORD_BYTES
  {
  }

  /** A fresh directory opens empty and meets the invariant. */
  lemma FreshMeans(digester: Digester)
    ensures Open(EMPTY_DISK).Some?
    ensures Means(Open(EMPTY_DISK).value, Views(EMPTY_VIEW, EMPTY_VIEW), digester)
  {
    var s := Open(EMPTY_DISK).value;
    assert s == Store(EMPTY_DISK, Memory(map[], [], 0));
    assert ViewOf(s) == EMPTY_VIEW;
  }

  /** The views after a run from a fresh directory. */
  function FromFresh(start: nat, digester: Digester, events: seq<Event>): (r: Views) {
    Replay(Views(EMPTY_VIEW, EMPTY_VIEW), start, digester, events)
  }

  /** Whatever is durable is also current, with the same bytes. */
  ghost predicate Agrees(v: Views) {
    forall h | h in v.durable.content :: h in v.current.content && v.current.content[h] == v.durable.content[h]
  }

  lemma StepAgrees(v: Views, start: nat, digester: Digester, e: Event)
    requires Agrees(v)
    ensures Agrees(ViewStep(v, start, digester, e))
  {
  }

  lemma {:induction false} DurableIsCurrent(start: nat, digester: Digester, events: seq<Event>)
    ensures Agrees(FromFresh(start, digester, events))
  {
    hide ViewStep;
    if events != [] {
      var n := |events| - 1;
      DurableIsCurrent(start, digester, events[..n]);
      StepAgrees(FromFresh(start, digester, events[..n]), start, digester, events[n]);
    }
  }

  /** A step keeps the bytes of every hash it keeps, and a new hash comes from an append of its bytes. */
  lemma ContentStep(v: Views, start: nat, digester: Digester, e: Event, hash: BlockHash)
    requires Agrees(v) && hash in ViewStep(v, start, digester, e).current.content
    ensures var bytes := ViewStep(v, start, digester, e).current.content[hash];
      if hash in v.current.content then v.current.content[hash] == bytes
      else e.Append? && e.hash == hash && e.filter == bytes
  {
  }

  /** The bytes of `hash` come from event `i`, and are there after every later event. */
  ghost predicate ComesFrom(start: nat, digester: Digester, events: seq<Event>, hash: BlockHash, bytes: seq<byte>, i: nat) {
    && i < |events| && events[i].Append? && events[i].hash == hash && events[i].filter == bytes
    && hash !in FromFresh(start, digester, events[..i]).current.content
    && forall j :: i < j <= |events| ==> Carries(start, digester, events[..j], hash, bytes)
  }

  ghost predicate Carries(start: nat, digester: Digester, events: seq<Event>, hash: BlockHash, bytes: seq<byte>) {
    var content := FromFresh(start, digester, events).current.content;
    hash in content && content[hash] == bytes
  }

  lemma {:induction false} Provenance(start: nat, digester: Digester, events: seq<Event>, hash: BlockHash, bytes: seq<byte>) returns (i: nat)
    requires Carries(start, digester, events, hash, bytes)
    ensures ComesFrom(start, digester, events, hash, bytes, i)
  {
    hide ViewStep;
    var n := |events| - 1;
    var before := FromFresh(start, digester, events[..n]);
    DurableIsCurrent(start, digester, events[..n]);
    ContentStep(before, start, digester, events[n], hash);
    if hash in before.current.content {
      i := Provenance(start, digester, events[..n], hash, bytes);
      forall j | i < j <= |events|
        ensures Carries(start, digester, events[..j], hash, bytes)
      {
        if j <= n {
          assert events[..n][..j] == events[..j];
        } else {
          assert events[..j] == events;
        }
      }
      assert events[..n][..i] == events[..i];
    } else {
      i := n;
      assert events[..n + 1] == events;
    }
  }

  lemma {:induction false} PrefixFits(store: Store, start: nat, digester: Digester, events: seq<Event>, n: nat)
    requires RunFits(store, start, digester, events) && n <= |events|
    ensures RunFits(store, start, digester, events[..n])
  {
    forall i | 0 <= i < n
      ensures events[..n][..i] == events[..i]
    {
    }
  }

  lemma FreshRun(start: nat, digester: Digester, events: seq<Event>, n: nat)
    requires Open(EMPTY_DISK).Some? && RunFits(Open(EMPTY_DISK).value, start, digester, events) && n <= |events|
    ensures var r := Run(Open(EMPTY_DISK).value, start, digester, events[..n]);
      r.Some? && Means(r.value, FromFresh(start, digester, events[..n]), digester)
  {
    hide Run, RunFits, Means, Replay;
    FreshMeans(digester);
    PrefixFits(Open(EMPTY_DISK).value, start, digester, events, n);
    RunRefines(Open(EMPTY_DISK).value, Views(EMPTY_VIEW, EMPTY_VIEW), start, digester, events[..n]);
  }

  /**
   Content is immutable: after any run from a fresh directory, the bytes found for a hash are those of
   the first append of it that survived, and every state since that append returned the same bytes.
   */
  lemma ReadsFirstAppend(start: nat, digester: Digester, events: seq<Event>, hash: BlockHash, bytes: seq<byte>) returns (i: nat)
    requires Open(EMPTY_DISK).Some? && RunFits(Open(EMPTY_DISK).value, start, digester, events)
    requires Run(Open(EMPTY_DISK).value, start, digester, events).Some?
    requires FilterByHash(Run(Open(EMPTY_DISK).value, start, digester, events).value, hash) == Some(bytes)
    ensures i < |events| && events[i].Append? && events[i].hash == hash && events[i].filter == bytes
    ensures forall j :: 0 <= j <= |events| ==> Run(Open(EMPTY_DISK).value, start, digester, events[..j]).Some?
    ensures FilterByHash(Run(Open(EMPTY_DISK).value, start, digester, events[..i]).value, hash) == None
    ensures forall j :: i < j <= |events| ==>
      FilterByHash(Run(Open(EMPTY_DISK).value, start, digester, events[..j]).value, hash) == Some(bytes)
  {
    hide Run, RunFits, Good, Recovers, Replay, FilterByHash, ViewOf;
    assert events[..|events|] == events;
    forall j | 0 <= j <= |events|
      ensures Run(Open(EMPTY_DISK).value, start, digester, events[..j]).Some?
      ensures ViewOf(Run(Open(EMPTY_DISK).value, start, digester, events[..j]).value) == FromFresh(start, digester, events[..j]).current
    {
      FreshRun(start, digester, events, j);
    }
    i := Provenance(start, digester, events, hash, bytes);
    forall j | i < j <= |events|
      ensures FilterByHash(Run(Open(EMPTY_DISK).value, start, digester, events[..j]).value, hash) == Some(bytes)
    {
      assert Carries(start, digester, events[..j], hash, bytes);
    }
  }

  /** Once durable, a block's filter bytes stay, in every later state and after every later crash. */
  lemma {:induction false} DurableForever(start: nat, digester: Digester, events: seq<Event>, n: nat, hash: BlockHash)
    requires n <= |events| && hash in FromFresh(start, digester, events[..n]).durable.content
    ensures var bytes, v := FromFresh(start, digester, events[..n]).durable.content[hash], FromFresh(start, digester, events);
      && hash in v.durable.content && v.durable.content[hash] == bytes
      && hash in v.current.content && v.current.content[hash] == bytes
    decreases |events|
  {
    var k := |events| - 1;
    if n == |events| {
      assert events[..n] == events;
      DurableIsCurrent(start, digester, events);
    } else {
      assert events[..k][..n] == events[..n];
      DurableForever(start, digester, events[..k], n, hash);
    }
  }

  /** Every covered height of a reachable store has content that reads back. */
  lemma CoveredHasContent(store: Store, v: Views, digester: Digester, i: nat)
    requires Means(store, v, digester) && i < |store.memory.chain|
    ensures FilterByHash(store, store.memory.chain[i]).Some?
  {
    assert store.memory.chain[i] in store.memory.chain;
  }

  /**
   Dying between the truncation and the checkpoint of a rollback makes the next open fail exactly when
   the rollback was about to drop committed coverage.
   */
  lemma RollbackWindow(store: Store, v: Views, digester: Digester, keep: nat)
    requires Means(store, v, digester) && keep <= |store.memory.chain|
    ensures Open(TruncatedChain(store, keep).disk).None? <==> keep < |v.durable.chain|
  {
    hide ReadIndex, ReadChain;
    var c := CheckpointOf(store.disk);
    assert |Open(store.disk).value.disk.chain| == c.chain;
    assert |v.durable.chain| * CHAIN_RECORD_BYTES == c.chain;
  }

  /** A filter of 2^32 bytes or more is stored under a truncated length and does not read back whole. */
  lemma OversizedFilterTruncated(store: Store, digester: Digester, hash: BlockHash, filter: seq<byte>)
    requires Good(store, digester) && hash !in store.memory.byHash
    ensures FilterByHash(WriteContent(store, digester, hash, filter), hash) == Some(filter) <==> |filter| < U32_LIMIT
  {
    hide ReadIndex, ReadChain, IndexRecord;
    var s, at := WriteContent(store, digester, hash, filter), NewLocation(store, digester, filter);
    assert s.disk.filters[at.offset..at.offset + at.length] == filter[..at.length];
    assert |Slice(s.disk.filters, at)| == at.length && filter[..|filter|] == filter;
    assert at.length == |filter| <==> |filter| < U32_LIMIT;
  }

  /** The first covered height of a block, as a scan of the branch finds it. */
  function HeightOf(chain: seq<BlockHash>, start: nat, hash: BlockHash): (r: Option<nat>)
    ensures r.Some? ==> start <= r.value < start + |chain| && chain[r.value - start] == hash
    ensures r.Some? ==> forall i :: 0 <= i < r.value - start ==> chain[i] != hash
    ensures r.None? <==> hash !in chain
  {
    if chain == [] then None
    else if chain[0] == hash then Some(start)
    else HeightOf(chain[1..], start + 1, hash)
  }

  // ---- the files and calls in plain terms ----

  /** The block has coverage at this height. */
  ghost predicate CoveredAt(chain: seq<BlockHash>, start: nat, height: nat, hash: BlockHash) {
    start <= height < start + |chain| && chain[height - start] == hash
  }

  /** A rollback leaves exactly the coverage at or below the height, with the same hashes; none without a height. */
  ghost predicate RolledBack(before: seq<BlockHash>, after: seq<BlockHash>, start: nat, height: Option<nat>) {
    && (forall h: nat, hash :: CoveredAt(after, start, h, hash) <==> CoveredAt(before, start, h, hash) && height.Some? && h <= height.value)
    && (height.None? || height.value < start ==> after == [])
  }

  lemma KeepRollsBack(chain: seq<BlockHash>, start: nat, height: Option<nat>)
    ensures RolledBack(chain, chain[..Keep(|chain|, start, height)], start, height)
  {
  }

  /** An index record: hash, offset in eight bytes, length in four, digest. */
  lemma IndexRecordLayout(hash: BlockHash, at: Located)
    ensures var r := IndexRecord(hash, at);
      |r| == 76 && r[0..32] == hash && r[32..40] == ToLE(at.offset, 8) && r[40..44] == ToLE(at.length, 4) && r[44..76] == at.digest
  {
    hide ToLE;
  }

  /** The record of block `i` in the index file. */
  ghost function RecordOf(index: seq<byte>, i: nat): (r: (BlockHash, Located))
    requires 76 * i + 76 <= |index|
  {
    var s := index[76 * i..76 * i + 76];
    (s[0..32], Located(FromLE(s[32..40]), FromLE(s[40..44]), s[44..76]))
  }

  ghost function RecordsOf(index: seq<byte>, n: nat): (r: seq<(BlockHash, Located)>)
    requires 76 * n <= |index|
  {
    seq(n, i requires 0 <= i < n => RecordOf(index, i))
  }

  /** The map holds every record's hash, with the last record of that hash. */
  ghost predicate IndexOf(records: seq<(BlockHash, Located)>, byHash: map<BlockHash, Located>) {
    && (forall r | r in records :: r.0 in byHash)
    && forall h | h in byHash :: exists i :: LastRecord(records, i) && records[i] == (h, byHash[h])
  }

  ghost predicate LastRecord(records: seq<(BlockHash, Located)>, i: int) {
    0 <= i < |records| && forall j :: i < j < |records| ==> records[j].0 != records[i].0
  }

  lemma {:induction false} ReadIndexExactly(index: seq<byte>, n: nat)
    requires 76 * n <= |index|
    ensures IndexOf(RecordsOf(index, n), ReadIndex(index[..76 * n]))
    decreases n
  {
    hide IndexOf, RecordsOf, RecordOf, ReadIndexRecord, ReadIndex;
    if n == 0 {
      NoRecords(index);
    } else {
      ReadIndexExactly(index, n - 1);
      RecordRead(index, n - 1);
      IndexMore(RecordsOf(index, n - 1), RecordOf(index, n - 1), ReadIndex(index[..76 * (n - 1)]));
    }
  }

  lemma NoRecords(index: seq<byte>)
    ensures IndexOf(RecordsOf(index, 0), ReadIndex(index[..0]))
  {
  }

  lemma RecordRead(index: seq<byte>, i: nat)
    requires 76 * i + 76 <= |index|
    ensures RecordsOf(index, i + 1) == RecordsOf(index, i) + [RecordOf(index, i)]
    ensures ReadIndex(index[..76 * (i + 1)]) == ReadIndex(index[..76 * i])[RecordOf(index, i).0 := RecordOf(index, i).1]
  {
    var bytes, s := index[..76 * (i + 1)], index[76 * i..76 * i + 76];
    assert bytes[..|bytes| - 76] == index[..76 * i] && bytes[|bytes| - 76..] == s;
    assert ReadIndexRecord(s) == RecordOf(index, i);
  }

  lemma IndexMore(records: seq<(BlockHash, Located)>, r: (BlockHash, Located), byHash: map<BlockHash, Located>)
    requires IndexOf(records, byHash)
    ensures IndexOf(records + [r], byHash[r.0 := r.1])
  {
    var all, more := records + [r], byHash[r.0 := r.1];
    forall h | h in more
      ensures exists i :: LastRecord(all, i) && all[i] == (h, more[h])
    {
      if h == r.0 {
        assert LastRecord(all, |records|);
      } else {
        var i :| LastRecord(records, i) && records[i] == (h, byHash[h]);
        assert LastRecord(all, i);
      }
    }
  }

  lemma {:induction false} ReadChainExactly(bytes: seq<byte>, i: nat)
    requires |bytes| % CHAIN_RECORD_BYTES == 0 && i < |ReadChain(bytes)|
    ensures 32 * i + 32 <= |bytes| && ReadChain(bytes)[i] == bytes[32 * i..32 * i + 32]
    decreases |bytes|
  {
    var cut := |bytes| - CHAIN_RECORD_BYTES;
    if i < |ReadChain(bytes)| - 1 {
      ReadChainExactly(bytes[..cut], i);
      assert bytes[..cut][32 * i..32 * i + 32] == bytes[32 * i..32 * i + 32];
    } else {
      assert bytes[cut..] == bytes[32 * i..32 * i + 32];
    }
  }

  /** The lengths a checkpoint names, zero without one, and whether the files can be opened at them. */
  ghost predicate WholeRecords(disk: Disk) {
    disk.checkpoint.Some? ==>
      var c := disk.checkpoint.value;
      c.filters <= |disk.filters| && c.index <= |disk.index| && c.chain <= |disk.chain| && c.index % 76 == 0 && c.chain % 32 == 0
  }

  /** What an opened store holds: the files up to the checkpoint, and the maps their records spell. */
  ghost predicate OpenedFrom(disk: Disk, store: Store) {
    var c := if disk.checkpoint.Some? then disk.checkpoint.value else Checkpoint(0, 0, 0);
    var d, m := store.disk, store.memory;
    && c.filters <= |disk.filters| && c.index <= |disk.index| && c.chain <= |disk.chain|
    && d.filters == disk.filters[..c.filters] && d.index == disk.index[..c.index] && d.chain == disk.chain[..c.chain]
    && d.checkpoint == disk.checkpoint && m.filtersLength == c.filters
    && |m.chain| * 32 == c.chain && (forall i :: 0 <= i < |m.chain| ==> m.chain[i] == d.chain[32 * i..32 * i + 32])
    && c.index % 76 == 0 && IndexOf(RecordsOf(d.index, c.index / 76), m.byHash)
  }

  lemma OpenExactly(disk: Disk)
    ensures Open(disk).Some? <==> WholeRecords(disk)
    ensures Open(disk).Some? ==> OpenedFrom(disk, Open(disk).value)
  {
    hide IndexOf, RecordsOf, ReadIndex;
    if Open(disk).Some? {
      var store := Open(disk).value;
      forall i | 0 <= i < |store.memory.chain|
        ensures store.memory.chain[i] == store.disk.chain[32 * i..32 * i + 32]
      {
        ReadChainExactly(store.disk.chain, i);
      }
      var n := |store.disk.index| / 76;
      ReadIndexExactly(store.disk.index, n);
      assert store.disk.index[..76 * n] == store.disk.index;
    }
  }

  /** Whether a block is taken: at the next height, and not known under another digest. */
  ghost predicate Takes(store: Store, start: nat, digest: Digest, height: nat, hash: BlockHash) {
    height == start + |store.memory.chain| && (hash in store.memory.byHash ==> store.memory.byHash[hash].digest == digest)
  }

  /** What taking a block writes: new content once, and one more covered block. */
  ghost predicate Took(s: Store, n: Store, digest: Digest, hash: BlockHash, filter: seq<byte>) {
    var known := hash in s.memory.byHash;
    && n.memory.chain == s.memory.chain + [hash] && n.disk.chain == s.disk.chain + hash && n.disk.checkpoint == s.disk.checkpoint
    && (known ==> n.memory.byHash == s.memory.byHash && n.disk.filters == s.disk.filters && n.disk.index == s.disk.index
                  && n.memory.filtersLength == s.memory.filtersLength)
    && (!known ==>
          && n.memory.byHash == s.memory.byHash[hash := Located(s.memory.filtersLength, |filter| % 0x1_0000_0000, digest)]
          && n.disk.filters == s.disk.filters + filter && n.memory.filtersLength == s.memory.filtersLength + |filter|
          && n.disk.index == s.disk.index + IndexRecord(hash, n.memory.byHash[hash]))
  }

  lemma AppendExactly(store: Store, start: nat, digester: Digester, height: nat, hash: BlockHash, filter: seq<byte>)
    ensures Refused(store, start, digester, height, hash, filter) <==> !Takes(store, start, digester(filter), height, hash)
    ensures var n := Appended(store, start, digester, height, hash, filter);
      if Takes(store, start, digester(filter), height, hash) then Took(store, n, digester(filter), hash, filter) else n == store
  {
  }

  /** The crash points run from nothing written to everything written, and each leaves one more byte than the one before. */
  lemma CrashesCoverAppend(store: Store, start: nat, digester: Digester, height: nat, hash: BlockHash, filter: seq<byte>, n: nat)
    requires Takes(store, start, digester(filter), height, hash)
    ensures var at := p => CrashedAppend(store, start, digester, height, hash, filter, p);
      && at(InFilters(0)) == store.disk && at(InChain(32)) == Appended(store, start, digester, height, hash, filter).disk
      && at(InIndex(0)) == at(InFilters(|filter|)) && at(InChain(0)) == at(InIndex(76))
      && (hash !in store.memory.byHash && n < |filter| ==> |at(InFilters(n + 1)).filters| == |at(InFilters(n)).filters| + 1)
      && (hash !in store.memory.byHash && n < 76 ==> |at(InIndex(n + 1)).index| == |at(InIndex(n)).index| + 1)
      && (n < 32 ==> |at(InChain(n + 1)).chain| == |at(InChain(n)).chain| + 1)
  {
    hide IndexRecord;
    AppendExactly(store, start, digester, height, hash, filter);
    var record := IndexRecord(hash, NewLocation(store, digester, filter));
    assert filter[..|filter|] == filter && record[..76] == record && hash[..32] == hash;
    assert store.disk.filters + [] == store.disk.filters && store.disk.index + [] == store.disk.index && store.disk.chain + [] == store.disk.chain;
  }

  /** The store a process works with: its files and the maps rebuilt from them. */
  class LiveStore {
    const start: nat
    const digester: Digester
    var disk: Disk
    var byHash: map<BlockHash, Located>
    var chain: seq<BlockHash>
    var filtersLength: nat

    ghost function State(): (s: Store)
      reads this
    {
      Store(disk, Memory(byHash, chain, filtersLength))
    }

    constructor (start: nat, digester: Digester, store: Store)
      ensures this.start == start && this.digester == digester && State() == store
    {
      this.start, this.digester, disk := start, digester, store.disk;
      byHash, chain, filtersLength := store.memory.byHash, store.memory.chain, store.memory.filtersLength;
    }

    /** Height check, digest check, then content, index and branch, in this order on disk. */
    method AppendFilter(height: nat, hash: BlockHash, filter: seq<byte>) returns (ok: bool)
      modifies this
      ensures State() == Appended(old(State()), start, digester, height, hash, filter)
      ensures ok <==> !Refused(old(State()), start, digester, height, hash, filter)
      ensures ok <==> Takes(old(State()), start, digester(filter), height, hash)
      ensures if ok then Took(old(State()), State(), digester(filter), hash, filter) else State() == old(State())
    {
      hide IndexRecord;
      AppendExactly(State(), start, digester, height, hash, filter);
      if height != start + |chain| {
        return false;
      }
      var digest := digester(filter);
      if hash in byHash {
        if byHash[hash].digest != digest {
          return false;
        }
      } else {
        var at := Located(filtersLength, |filter| % U32_LIMIT, digest);
        disk := disk.(filters := disk.filters + filter);
        disk := disk.(index := disk.index + IndexRecord(hash, at));
        filtersLength := filtersLength + |filter|;
        byHash := byHash[hash := at];
      }
      disk := disk.(chain := disk.chain + hash);
      chain := chain + [hash];
      return true;
    }

    method CommitAll()
      modifies this
      ensures State() == Committed(old(State()))
      ensures disk == old(disk).(checkpoint := Some(Checkpoint(filtersLength, |byHash| * 76, |chain| * 32)))
    {
      disk := disk.(checkpoint := Some(Checkpoint(filtersLength, |byHash| * INDEX_RECORD_BYTES, |chain| * CHAIN_RECORD_BYTES)));
    }

    method RollbackTo(height: Option<nat>)
      requires |disk.chain| == |chain| * CHAIN_RECORD_BYTES
      modifies this
      ensures State() == Committed(TruncatedChain(old(State()), Keep(|old(chain)|, start, height)))
      ensures RolledBack(old(chain), chain, start, height)
      ensures byHash == old(byHash) && filtersLength == old(filtersLength)
      ensures disk.filters == old(disk.filters) && disk.index == old(disk.index) && |disk.chain| == |chain| * 32 && disk.chain <= old(disk.chain)
      ensures disk.checkpoint == Some(Checkpoint(filtersLength, |byHash| * 76, |disk.chain|))
    {
      hide Keep, RolledBack;
      KeepRollsBack(chain, start, height);
      var keep := Keep(|chain|, start, height);
      chain := chain[..keep];
      disk := disk.(chain := disk.chain[..keep * CHAIN_RECORD_BYTES]);
      CommitAll();
    }
  }

  method ReadIndexFile(index: seq<byte>) returns (byHash: map<BlockHash, Located>)
    requires |index| % INDEX_RECORD_BYTES == 0
    ensures byHash == ReadIndex(index)
  {
    hide ReadIndexRecord;
    byHash := map[];
    for i := 0 to |index| / INDEX_RECORD_BYTES
      invariant byHash == ReadIndex(index[..i * INDEX_RECORD_BYTES])
    {
      var from, to := i * INDEX_RECORD_BYTES, (i + 1) * INDEX_RECORD_BYTES;
      assert index[..to][..from] == index[..from] && index[..to][from..] == index[from..to];
      var (hash, at) := ReadIndexRecord(index[from..to]);
      byHash := byHash[hash := at];
    }
    assert index[..(|index| / INDEX_RECORD_BYTES) * INDEX_RECORD_BYTES] == index;
  }

  lemma EmptyChain(bytes: seq<byte>)
    requires bytes == []
    ensures ReadChain(bytes) == []
  {
  }

  method ReadChainFile(bytes: seq<byte>) returns (chain: seq<BlockHash>)
    requires |bytes| % CHAIN_RECORD_BYTES == 0
    ensures chain == ReadChain(bytes)
  {
    hide ReadChain;
    chain := [];
    assert ReadChain(bytes[..0]) == [] by {
      EmptyChain(bytes[..0]);
    }
    for i := 0 to |bytes| / CHAIN_RECORD_BYTES
      invariant chain == ReadChain(bytes[..i * CHAIN_RECORD_BYTES])
    {
      var from, to := i * CHAIN_RECORD_BYTES, (i + 1) * CHAIN_RECORD_BYTES;
      assert to - from == HASH_BYTES;
      var hash: BlockHash := bytes[from..to];
      assert bytes[..to] == bytes[..from] + hash;
      ReadChainAppend(bytes[..from], hash);
      chain := chain + [hash];
    }
    assert bytes[..(|bytes| / CHAIN_RECORD_BYTES) * CHAIN_RECORD_BYTES] == bytes;
  }

  /** Opening reads both files record by record. */
  method OpenStore(start: nat, digester: Digester, disk: Disk) returns (r: Option<LiveStore>)
    ensures r.Some? <==> Open(disk).Some?
    ensures r.Some? ==> fresh(r.value) && r.value.State() == Open(disk).value
    ensures r.Some? ==> r.value.start == start && r.value.digester == digester
    ensures r.Some? <==> WholeRecords(disk)
    ensures r.Some? ==> OpenedFrom(disk, r.value.State())
  {
    hide ReadIndex, ReadChain, WholeRecords, OpenedFrom;
    OpenExactly(disk);
    if !Openable(disk) {
      return None;
    }
    var c := CheckpointOf(disk);
    var kept := disk.(filters := disk.filters[..c.filters], index := disk.index[..c.index], chain := disk.chain[..c.chain]);
    var byHash := ReadIndexFile(kept.index);
    var chain := ReadChainFile(kept.chain);
    var store := new LiveStore(start, digester, Store(kept, Memory(byHash, chain, c.filters)));
    return Some(store);
  }
}
