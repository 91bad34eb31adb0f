/** Incremental wallet sync: a journaled, budget-limited state machine over one history generation. */
module WalletSync {
  import opened Results
  import opened Chain
  import opened Sorting
  import opened Ledger
  import opened History
  import opened Budget

  /** The scripts a generation's filters matched, and the rows of it that are durable. */
  datatype Pending = Pending(generation: string, targets: set<Script>, rows: Rows)

  datatype Wallet = Wallet(
    scripts: set<Script>,
    height: nat,
    hash: BlockHash,
    baseHeight: nat,
    baseUtxos: Utxos,
    utxos: Utxos,
    chain: map<nat, BlockHash>,
    events: seq<Item>,
    pending: Option<Pending>)

  datatype Outcome = Failed | UpToDate | Paused | Committed

  const NO_ROWS := Rows(map[], map[])

  // ---- journaled rows ----

  /** Whatever a private query for a row decodes to. */
  datatype Transport = Transport(directory: nat -> seq<Entry>, pages: nat -> Page)

  function Held(rows: Rows): (r: set<RowId>)
    ensures forall x :: DirectoryRow(x) in r <==> x in rows.directory
    ensures forall x :: PageRow(x) in r <==> x in rows.pages
  {
    (set x | x in rows.directory :: DirectoryRow(x)) + (set x | x in rows.pages :: PageRow(x))
  }

  function Keep(rows: Rows, t: Transport, id: RowId): (r: Rows)
    ensures Held(r) == Held(rows) + {id}
  {
    match id
    case DirectoryRow(x) => rows.(directory := rows.directory[x := t.directory(x)])
    case PageRow(x) => rows.(pages := rows.pages[x := t.pages(x)])
  }

  function KeepAll(rows: Rows, t: Transport, ids: seq<RowId>): (r: Rows)
    ensures Held(r) == Held(rows) + AsSet(ids)
  {
    if ids == [] then rows
    else
      assert ids == ids[..|ids| - 1] + [ids[|ids| - 1]];
      Keep(KeepAll(rows, t, ids[..|ids| - 1]), t, ids[|ids| - 1])
  }

  /** The journal after one request, whether every row of it is durable, and the budget left. */
  datatype Purchase = Purchase(rows: Rows, complete: bool, left: nat)

  function Fetch(rows: Rows, t: Transport, request: seq<RowId>, budget: nat): (r: Purchase)
    ensures r.complete ==> forall x | x in request :: x in Held(r.rows)
  {
    var bought := Affordable(Held(rows), request, budget);
    Purchase(KeepAll(rows, t, bought), |bought| == |Missing(Held(rows), request)|, budget - |bought|)
  }

  // ---- what a sync reads ----

  function TargetRows(m: Manifest, targets: set<Script>): (r: set<nat>) {
    set s | s in targets :: m.bucket(s)
  }

  /** The order in which a set of rows is visited is fixed but arbitrary. */
  ghost predicate Arranges(visit: set<nat> -> seq<nat>) {
    forall s :: Distinct(visit(s)) && forall r :: r in visit(s) <==> r in s
  }

  predicate RecordsOk(m: Manifest, records: seq<Entry>) {
    forall i :: 0 <= i < |records| ==> RecordOk(m, records[i])
  }

  datatype Found = Stopped | BadPage | StartAt(start: nat)

  datatype Searched = Searched(rows: Rows, left: nat, found: Found)

  /** Binary search, buying each probed page it does not hold and reading it from the journal. */
  function SearchRun(m: Manifest, t: Transport, rows: Rows, e: Entry, checkpoint: nat, lo: nat, hi: nat, budget: nat): (r: Searched)
    requires lo <= hi <= e.pages
    ensures r.found.StartAt? ==> lo <= r.found.start <= hi
    decreases hi - lo
  {
    if lo == hi then Searched(rows, budget, StartAt(lo))
    else
      var mid := (lo + hi) / 2;
      var f := Fetch(rows, t, [PageRow(e.first + mid)], budget);
      if !f.complete then Searched(f.rows, f.left, Stopped)
      else
        assert PageRow(e.first + mid) in [PageRow(e.first + mid)];
        var page := PageAt(f.rows, e, mid);
        if !PageOk(m, e, mid, page) then Searched(f.rows, f.left, BadPage)
        else if page.high <= checkpoint then SearchRun(m, t, f.rows, e, checkpoint, mid + 1, hi, f.left)
        else SearchRun(m, t, f.rows, e, checkpoint, lo, mid, f.left)
  }

  datatype Navigated = Navigated(rows: Rows, left: nat, stopped: bool, starts: Option<seq<nat>>)

  /** Each record's first useful page, searched for when navigation is on. */
  function NavigateRun(m: Manifest, t: Transport, rows: Rows, records: seq<Entry>, checkpoint: nat, on: bool, budget: nat): (r: Navigated)
    ensures !r.stopped && r.starts.Some? ==> Starts(records, r.starts.value)
  {
    if records == [] then Navigated(rows, budget, false, Some([]))
    else
      var n := |records| - 1;
      var head := NavigateRun(m, t, rows, records[..n], checkpoint, on, budget);
      if head.stopped || head.starts.None? then head
      else if !on then
        StartsMore(records, head.starts.value, 0);
        head.(starts := Some(head.starts.value + [0]))
      else
        var s := SearchRun(m, t, head.rows, records[n], checkpoint, 0, records[n].pages, head.left);
        if s.found.StartAt? then
          StartsMore(records, head.starts.value, s.found.start);
          Navigated(s.rows, s.left, false, Some(head.starts.value + [s.found.start]))
        else Navigated(s.rows, s.left, s.found.Stopped?, None)
  }

  lemma StartsMore(records: seq<Entry>, starts: seq<nat>, start: nat)
    requires records != [] && Starts(records[..|records| - 1], starts) && start <= records[|records| - 1].pages
    ensures Starts(records, starts + [start])
  {
  }

  predicate Starts(records: seq<Entry>, starts: seq<nat>) {
    |starts| == |records| && forall i :: 0 <= i < |records| ==> starts[i] <= records[i].pages
  }

  /** Table rows of the record's pages from `start` on. */
  function PageRange(e: Entry, start: nat): (r: set<nat>)
    decreases e.pages - start
  {
    if start >= e.pages then {} else {e.first + start} + PageRange(e, start + 1)
  }

  lemma {:induction false} PageRangeHas(e: Entry, start: nat, row: nat)
    ensures row in PageRange(e, start) <==> e.first + start <= row < e.first + e.pages
    decreases e.pages - start
  {
    if start < e.pages {
      PageRangeHas(e, start + 1, row);
    }
  }

  function NeededPages(records: seq<Entry>, starts: seq<nat>): (r: set<nat>)
    requires |records| == |starts|
  {
    if records == [] then {}
    else
      var n := |records| - 1;
      NeededPages(records[..n], starts[..n]) + PageRange(records[n], starts[n])
  }

  lemma {:induction false} NeededCovers(records: seq<Entry>, starts: seq<nat>, k: nat, i: nat)
    requires |records| == |starts| && k < |records| && starts[k] <= i < records[k].pages
    ensures records[k].first + i in NeededPages(records, starts)
  {
    var n := |records| - 1;
    if k < n {
      NeededCovers(records[..n], starts[..n], k, i);
    } else {
      PageRangeHas(records[n], starts[n], records[n].first + i);
    }
  }

  /** Every page from each record's start on is held. */
  predicate Supplied(rows: Rows, records: seq<Entry>, starts: seq<nat>) {
    Starts(records, starts) && forall i :: 0 <= i < |records| ==> HasPages(rows, records[i], starts[i])
  }

  lemma PagesHeld(rows: Rows, records: seq<Entry>, starts: seq<nat>)
    requires Starts(records, starts)
    requires forall x | x in Tagged(Ascending(NeededPages(records, starts)), true) :: x in Held(rows)
    ensures Supplied(rows, records, starts)
  {
    hide NeededPages, Ascending;
    var needed := NeededPages(records, starts);
    AscendingFacts(needed);
    forall k, i: nat | 0 <= k < |records| && starts[k] <= i < records[k].pages
      ensures HasPage(rows, records[k], i)
    {
      NeededCovers(records, starts, k, i);
      var at := records[k].first + i;
      var j :| 0 <= j < |Ascending(needed)| && Ascending(needed)[j] == at;
      var request := Tagged(Ascending(needed), true);
      assert request[j] == PageRow(at) && request[j] in request;
    }
  }

  lemma DirectoryHeld(rows: Rows, needed: set<nat>, order: seq<nat>)
    requires forall x | x in Tagged(Ascending(needed), false) :: x in Held(rows)
    requires forall r :: r in order <==> r in needed
    ensures forall i :: 0 <= i < |order| ==> order[i] in rows.directory
  {
    hide Ascending;
    AscendingFacts(needed);
    forall i | 0 <= i < |order|
      ensures order[i] in rows.directory
    {
      assert order[i] in order;
      var j :| 0 <= j < |Ascending(needed)| && Ascending(needed)[j] == order[i];
      var request := Tagged(Ascending(needed), false);
      assert request[j] == DirectoryRow(order[i]) && request[j] in request;
    }
  }

  /** All rows a call needs, gathered; or where the budget or a bad row stopped it. */
  datatype Collected = Halted(rows: Rows) | Broken(rows: Rows) | Gathered(rows: Rows, records: seq<Entry>, starts: seq<nat>)

  function Collect(m: Manifest, t: Transport, visit: set<nat> -> seq<nat>, targets: set<Script>, rows: Rows, checkpoint: nat,
                   navigation: bool, budget: nat): (c: Collected)
    requires Arranges(visit)
    ensures c.Gathered? ==> RecordsOk(m, c.records) && Supplied(c.rows, c.records, c.starts)
  {
    var needed := TargetRows(m, targets);
    var directory := Fetch(rows, t, Tagged(Ascending(needed), false), budget);
    if !directory.complete then Halted(directory.rows)
    else
      DirectoryHeld(directory.rows, needed, visit(needed));
      var records := Records(m, directory.rows, visit(needed), targets);
      if records.None? then Broken(directory.rows)
      else
        assert forall i :: 0 <= i < |records.value| ==> records.value[i] in records.value;
        var nav := NavigateRun(m, t, directory.rows, records.value, checkpoint, navigation && checkpoint >= m.start, directory.left);
        if nav.stopped then Halted(nav.rows)
        else if nav.starts.None? then Broken(nav.rows)
        else
          var pages := Fetch(nav.rows, t, Tagged(Ascending(NeededPages(records.value, nav.starts.value)), true), nav.left);
          if !pages.complete then Halted(pages.rows)
          else
            PagesHeld(pages.rows, records.value, nav.starts.value);
            Gathered(pages.rows, records.value, nav.starts.value)
  }

  // ---- one call ----

  function Attributed(script: Script, events: seq<Event>): (r: seq<Item>)
    ensures |r| == |events| && forall i :: 0 <= i < |r| ==> r[i] == Item(script, events[i])
  {
    seq(|events|, i requires 0 <= i < |events| => Item(script, events[i]))
  }

  /** Events of every record above the checkpoint; none if any final check fails. */
  function FinishAll(m: Manifest, rows: Rows, records: seq<Entry>, starts: seq<nat>, checkpoint: nat): (r: Option<seq<Item>>)
    requires RecordsOk(m, records) && Supplied(rows, records, starts)
  {
    if records == [] then Some([])
    else
      var n := |records| - 1;
      assert HasPages(rows, records[n], starts[n]);
      var head :- FinishAll(m, rows, records[..n], starts[..n], checkpoint);
      var tail :- FinishRecord(m, rows, records[n], starts[n], checkpoint);
      Some(head + Attributed(records[n].script, tail))
  }

  datatype Gate = Refused | Covered | Ready(wallet: Wallet)

  function At(chain: map<nat, BlockHash>, height: int): (r: Option<BlockHash>) {
    if height in chain then Some(chain[height]) else None
  }

  /**
   A generation as one call sees it: manifest, whether schemas, network, script scope and name check out,
   identity, matched filters, transport and visiting order.
   */
  datatype Source = Source(
    m: Manifest,
    bound: bool,
    id: string,
    accepted: map<nat, BlockHash>,
    matched: Option<set<Script>>,
    transport: Transport,
    visit: set<nat> -> seq<nat>,
    navigation: bool)

  /** The geometry, then checks against the wallet's own chain, then the journal of this generation, created if there is none. */
  function Admit(w: Wallet, src: Source): (r: Gate)
    ensures r.Ready? ==> r.wallet.pending.Some? && r.wallet == w.(pending := r.wallet.pending)
  {
    if !src.bound || !Supported(src.m) then Refused
    else if At(src.accepted, w.height) != Some(w.hash) || At(src.accepted, src.m.end) != Some(src.m.anchor)
       || At(src.accepted, src.m.start - 1) != Some(src.m.parent) then Refused
    else if src.m.end <= w.height then Covered
    else if src.m.start > w.height + 1 then Refused
    else if w.pending.Some? then if w.pending.value.generation == src.id then Ready(w) else Refused
    else if src.matched.None? then Refused
    else Ready(w.(pending := Some(Pending(src.id, src.matched.value, NO_ROWS))))
  }

  function Journaled(w: Wallet, rows: Rows): (r: Wallet)
    requires w.pending.Some?
  {
    w.(pending := Some(w.pending.value.(rows := rows)))
  }

  function Extension(accepted: map<nat, BlockHash>, m: Manifest): (r: map<nat, BlockHash>) {
    map h | h in accepted && m.start <= h <= m.end :: accepted[h]
  }

  /** The wallet's chain names every block of the generation. */
  predicate Spanned(accepted: map<nat, BlockHash>, m: Manifest) {
    forall h: nat | m.start <= h <= m.end :: h in accepted
  }

  /** Validates what was gathered, applies it, and replaces the checkpoint at once. */
  function Complete(rank: Rank, w: Wallet, src: Source, records: seq<Entry>, starts: seq<nat>): (r: (Wallet, Outcome))
    requires w.pending.Some? && RecordsOk(src.m, records) && Supplied(w.pending.value.rows, records, starts)
    ensures r.1 == Failed || r.1 == Committed
  {
    var recovered := FinishAll(src.m, w.pending.value.rows, records, starts, w.height);
    if recovered.None? then (w, Failed)
    else
      var events := w.events + recovered.value;
      var utxos := ApplyEvents(rank, w.baseUtxos, events);
      if utxos.None? || !Spanned(src.accepted, src.m) then (w, Failed)
      else
        (w.(height := src.m.end, hash := src.m.anchor, events := events, utxos := utxos.value, pending := None,
            chain := w.chain + Extension(src.accepted, src.m)), Committed)
  }

  function Advance(rank: Rank, w: Wallet, src: Source, budget: nat): (r: (Wallet, Outcome))
    requires w.pending.Some? && Arranges(src.visit)
  {
    var p := w.pending.value;
    match Collect(src.m, src.transport, src.visit, p.targets, p.rows, w.height, src.navigation, budget)
    case Halted(rows) => (Journaled(w, rows), Paused)
    case Broken(rows) => (Journaled(w, rows), Failed)
    case Gathered(rows, records, starts) => Complete(rank, Journaled(w, rows), src, records, starts)
  }

  function Sync(rank: Rank, w: Wallet, src: Source, budget: nat): (r: (Wallet, Outcome))
    requires Arranges(src.visit)
  {
    match Admit(w, src)
    case Refused => (w, Failed)
    case Covered => (w, UpToDate)
    case Ready(ready) => Advance(rank, ready, src, budget)
  }

  // ---- when a call starts ----

  /** The page widths and their capacities, table sizes and block counts a wallet knows. */
  ghost predicate KnownGeometry(m: Manifest) {
    && (m.pageBytes, m.capacity) in {(3584, 36), (7168, 74), (10752, 111), (17920, 186)}
    && 2048 <= m.directoryRows <= 131_072 && m.directoryRows % 2048 == 0
    && 2048 <= m.pageRows <= 131_072 && m.pageRows % 2048 == 0
    && m.start <= m.end < m.start + 10_000
  }

  /** The wallet's chain holds its checkpoint, the generation's last block, and the one before its first. */
  ghost predicate OnAcceptedChain(w: Wallet, src: Source) {
    && w.height in src.accepted && src.accepted[w.height] == w.hash
    && src.m.end in src.accepted && src.accepted[src.m.end] == src.m.anchor
    && src.m.start >= 1 && src.m.start - 1 in src.accepted && src.accepted[src.m.start - 1] == src.m.parent
  }

  ghost predicate Presentable(w: Wallet, src: Source) {
    src.bound && KnownGeometry(src.m) && OnAcceptedChain(w, src)
  }

  /** A call fails before it buys anything: a generation that cannot be presented, a gap, another journal, or unreadable filters. */
  ghost predicate TurnedAway(w: Wallet, src: Source) {
    || !Presentable(w, src)
    || (w.height < src.m.end
        && (|| w.height + 1 < src.m.start
            || (w.pending.Some? && w.pending.value.generation != src.id)
            || (w.pending.None? && src.matched.None?)))
  }

  ghost predicate AlreadyCovered(w: Wallet, src: Source) {
    Presentable(w, src) && src.m.end <= w.height
  }

  /** The journal a call that starts works on. */
  ghost function Opened(w: Wallet, src: Source): (r: Wallet)
    requires w.pending.None? ==> src.matched.Some?
  {
    if w.pending.Some? then w else w.(pending := Some(Pending(src.id, src.matched.value, NO_ROWS)))
  }

  lemma SupportedExactly(m: Manifest)
    ensures Supported(m) <==> KnownGeometry(m)
  {
  }

  lemma GateExactly(w: Wallet, src: Source)
    ensures Admit(w, src).Refused? <==> TurnedAway(w, src)
    ensures Admit(w, src).Covered? <==> AlreadyCovered(w, src)
    ensures !TurnedAway(w, src) && !AlreadyCovered(w, src) ==> Admit(w, src) == Ready(Opened(w, src))
  {
    hide Supported, KnownGeometry;
    SupportedExactly(src.m);
  }

  /** What a call does before anything is bought. */
  lemma CallStarts(rank: Rank, w: Wallet, src: Source, budget: nat)
    requires Arranges(src.visit)
    ensures TurnedAway(w, src) ==> Sync(rank, w, src, budget) == (w, Failed)
    ensures Sync(rank, w, src, budget).1 == UpToDate <==> AlreadyCovered(w, src)
    ensures AlreadyCovered(w, src) ==> Sync(rank, w, src, budget).0 == w
    ensures w.pending.None? ==>
      (TurnedAway(w, src) <==> Sync(rank, w, src, budget).1 == Failed && Sync(rank, w, src, budget).0.pending.None?)
  {
    hide TurnedAway, AlreadyCovered, Admit, Collect, FinishAll, ApplyEvents, Spanned;
    GateExactly(w, src);
  }

  // ---- safety against any transport ----

  /** The wallet's coins are the ledger of its events, all above its base and at or below its checkpoint. */
  ghost predicate ValidWallet(rank: Rank, w: Wallet) {
    && w.baseHeight <= w.height
    && (forall x | x in w.events :: w.baseHeight < x.event.height <= w.height)
    && ApplyEvents(rank, w.baseUtxos, w.events) == Some(w.utxos)
  }

  lemma {:induction false} FinishedInRange(m: Manifest, rows: Rows, records: seq<Entry>, starts: seq<nat>, checkpoint: nat)
    requires RecordsOk(m, records) && Supplied(rows, records, starts)
    requires FinishAll(m, rows, records, starts, checkpoint).Some?
    ensures forall x | x in FinishAll(m, rows, records, starts, checkpoint).value :: checkpoint < x.event.height <= m.end
  {
    hide RecordOk, FinishRecord, HasPages;
    if records != [] {
      var n := |records| - 1;
      FinishedInRange(m, rows, records[..n], starts[..n], checkpoint);
      RecordInRange(m, rows, records[n], starts[n], checkpoint);
    }
  }

  lemma RecordInRange(m: Manifest, rows: Rows, e: Entry, start: nat, checkpoint: nat)
    requires RecordOk(m, e) && start <= e.pages && HasPages(rows, e, start)
    requires FinishRecord(m, rows, e, start, checkpoint).Some?
    ensures forall x | x in FinishRecord(m, rows, e, start, checkpoint).value :: checkpoint < x.height <= m.end
  {
    hide ObservedOk, InlineOk, PagesFrom, AscendingHeights, Distinct;
  }

  /**
   Whatever rows arrive, a call either leaves everything but its journal untouched, or commits at
   once a valid wallet whose new events all lie above the old checkpoint and within the generation.
   */
  lemma SafeAgainstAnyTransport(rank: Rank, w: Wallet, src: Source, budget: nat)
    requires Arranges(src.visit) && ValidWallet(rank, w)
    ensures var (next, outcome) := Sync(rank, w, src, budget);
      && ValidWallet(rank, next)
      && (outcome != Committed ==> next == w.(pending := next.pending))
      && (outcome == Committed ==>
            && w.height < next.height == src.m.end && next.hash == src.m.anchor && next.pending.None?
            && w.events <= next.events
            && forall x | x in next.events[|w.events|..] :: w.height < x.event.height <= src.m.end)
  {
    hide ApplyEvents, FinishAll, Collect;
    var gate := Admit(w, src);
    if gate.Ready? {
      var ready := gate.wallet;
      var p := ready.pending.value;
      var c := Collect(src.m, src.transport, src.visit, p.targets, p.rows, ready.height, src.navigation, budget);
      if c.Gathered? {
        var recovered := FinishAll(src.m, c.rows, c.records, c.starts, w.height);
        if recovered.Some? {
          FinishedInRange(src.m, c.rows, c.records, c.starts, w.height);
        }
      }
    }
  }

  // ---- rewinding ----

  function Rewind(rank: Rank, w: Wallet, height: nat, hash: BlockHash, accepted: map<nat, BlockHash>): (r: Option<Wallet>) {
    if !(w.baseHeight <= height <= w.height) || At(accepted, height) != Some(hash) || At(w.chain, height) != Some(hash) then None
    else
      var events := UpTo(w.events, height);
      var utxos :- ApplyEvents(rank, w.baseUtxos, events);
      Some(w.(events := events, utxos := utxos, height := height, hash := hash, pending := None,
              chain := map h | h in w.chain && h <= height :: w.chain[h]))
  }

  /** A rewind to a retained, accepted ancestor never fails, and gives the ledger of exactly the events up to it. */
  lemma RewindExact(rank: Rank, w: Wallet, height: nat, hash: BlockHash, accepted: map<nat, BlockHash>)
    requires Ledger.Injective(rank) && ValidWallet(rank, w)
    ensures Rewind(rank, w, height, hash, accepted).Some?
            <==> w.baseHeight <= height <= w.height && At(accepted, height) == Some(hash) && At(w.chain, height) == Some(hash)
    ensures Rewind(rank, w, height, hash, accepted).Some? ==>
      var r := Rewind(rank, w, height, hash, accepted).value;
      && ValidWallet(rank, r) && r.height == height && r.pending.None?
      && (forall x :: multiset(r.events)[x] == if x.event.height <= height then multiset(w.events)[x] else 0)
  {
    hide ApplyEvents;
    ReplayNeverFails(rank, w.baseUtxos, w.events, height);
    forall x: Item
      ensures multiset(UpTo(w.events, height))[x] == if x.event.height <= height then multiset(w.events)[x] else 0
    {
      FilterCount(w.events, (i: Item) => i.event.height <= height, x);
    }
  }

  lemma {:induction false} UpToAll(events: seq<Item>, height: nat)
    requires forall x | x in events :: x.event.height <= height
    ensures UpTo(events, height) == events
  {
    if events != [] {
      UpToAll(events[1..], height);
    }
  }

  lemma UpToSplit(kept: seq<Item>, added: seq<Item>, height: nat)
    requires forall x | x in kept :: x.event.height <= height
    requires forall x | x in added :: x.event.height > height
    ensures UpTo(kept + added, height) == kept
  {
    FilterAppend(kept, added, (i: Item) => i.event.height <= height);
    UpToAll(kept, height);
    UpToNone(added, height);
  }

  /** The wallet's map already says, up to its checkpoint, what it accepts for the generation's blocks. */
  ghost predicate MapsAgree(w: Wallet, src: Source) {
    && (forall h | h in w.chain :: h <= w.height)
    && forall h: nat | src.m.start <= h <= w.height && h in src.accepted :: h in w.chain && w.chain[h] == src.accepted[h]
  }

  /**
   Rewinding a commit to the old checkpoint restores the old wallet; the height-to-hash map comes back
   unchanged exactly when it already agreed with the accepted chain up to that checkpoint.
   */
  lemma RewindUndoesCommit(rank: Rank, w: Wallet, src: Source, budget: nat)
    requires Ledger.Injective(rank) && ValidWallet(rank, w) && Arranges(src.visit)
    requires At(w.chain, w.height) == Some(w.hash) && Sync(rank, w, src, budget).1 == Committed
    ensures var back := Rewind(rank, Sync(rank, w, src, budget).0, w.height, w.hash, src.accepted);
      && back.Some?
      && back.value == w.(pending := None, chain := back.value.chain)
      && (back.value.chain == w.chain <==> MapsAgree(w, src))
  {
    hide ApplyEvents, FinishAll, UpTo, Collect;
    SafeAgainstAnyTransport(rank, w, src, budget);
    var next := Sync(rank, w, src, budget).0;
    UpToSplit(w.events, next.events[|w.events|..], w.height);
    assert next.events == w.events + next.events[|w.events|..];
    CommitGrowsChain(rank, w, src, budget);
    var back := Rewind(rank, next, w.height, w.hash, src.accepted).value;
    RestrictedChain(w, src, back.chain);
  }

  lemma CommitGrowsChain(rank: Rank, w: Wallet, src: Source, budget: nat)
    requires Arranges(src.visit) && Sync(rank, w, src, budget).1 == Committed
    ensures Sync(rank, w, src, budget).0.chain == w.chain + Extension(src.accepted, src.m)
    ensures Sync(rank, w, src, budget).0.baseUtxos == w.baseUtxos && Sync(rank, w, src, budget).0.baseHeight == w.baseHeight
    ensures Sync(rank, w, src, budget).0.scripts == w.scripts
    ensures At(src.accepted, w.height) == Some(w.hash)
  {
    hide ApplyEvents, FinishAll, Collect, Extension, Spanned;
  }

  lemma RestrictedChain(w: Wallet, src: Source, chain: map<nat, BlockHash>)
    requires chain == map h | h in w.chain + Extension(src.accepted, src.m) && h <= w.height :: (w.chain + Extension(src.accepted, src.m))[h]
    requires w.height <= src.m.end
    ensures chain == w.chain <==> MapsAgree(w, src)
  {
    var extension := Extension(src.accepted, src.m);
    if chain == w.chain {
      forall h: nat | src.m.start <= h <= w.height && h in src.accepted
        ensures h in w.chain && w.chain[h] == src.accepted[h]
      {
        assert h in extension && h in chain;
      }
    }
    if MapsAgree(w, src) {
      forall h | h in w.chain
        ensures h in chain && chain[h] == w.chain[h]
      {
      }
      assert chain.Keys == w.chain.Keys;
    }
  }

  // ---- the running session ----

  class Session {
    var wallet: Wallet
    var budget: nat

    constructor (wallet: Wallet, budget: nat)
      ensures this.wallet == wallet && this.budget == budget
    {
      this.wallet := wallet;
      this.budget := budget;
    }

    /** The wallet with `rows` durable. */
    ghost predicate Has(w: Wallet, rows: Rows, left: nat)
      reads this
    {
      w.pending.Some? && wallet == Journaled(w, rows) && budget == left
    }

    /** Buys the missing rows it can afford, one by one, and tells whether the request is complete. */
    method Buy(t: Transport, request: seq<RowId>) returns (complete: bool)
      requires wallet.pending.Some? && Distinct(request)
      modifies this
      ensures var f := Fetch(old(wallet.pending.value.rows), t, request, old(budget));
        Has(old(wallet), f.rows, f.left) && complete == f.complete
      ensures wallet.pending.Some? && AddsFrom(old(wallet.pending.value.rows), wallet.pending.value.rows, t)
      ensures exists n: nat ::
        (BoughtUpTo(old(Held(wallet.pending.value.rows)), Held(wallet.pending.value.rows), request, n) && (complete <==> n == |request|))
      ensures budget > 0 ==> complete
    {
      hide Missing, Affordable, KeepAll, Keep, Held, AsSet, AddsFrom, BoughtUpTo;
      ghost var n := FetchExactly(wallet.pending.value.rows, t, request, budget);
      ghost var before := wallet.pending.value.rows;
      var rows := wallet.pending.value.rows;
      var need := Affordable(Held(rows), request, budget);
      KeepNone(rows, t);
      for i := 0 to |need|
        invariant wallet == old(wallet) && budget == old(budget)
        invariant rows == KeepAll(before, t, need[..i])
      {
        KeepOneMore(before, t, need[..i + 1]);
        assert need[..i + 1][..i] == need[..i];
        rows := Keep(rows, t, need[i]);
      }
      assert need[..|need|] == need;
      BuysAll(before, t, request, budget, need, rows);
      complete := forall r | r in request :: r in Held(rows);
      wallet := Journaled(wallet, rows);
      budget := budget - |need|;
    }

    /** The resumable binary search. */
    method SearchRecord(m: Manifest, t: Transport, e: Entry) returns (found: Found)
      requires wallet.pending.Some?
      modifies this
      ensures var s := SearchRun(m, t, old(wallet.pending.value.rows), e, old(wallet.height), 0, e.pages, old(budget));
        Has(old(wallet), s.rows, s.left) && found == s.found
    {
      hide Fetch, PageOk, AddsFrom, BoughtUpTo, Held;
      ghost var w, b := wallet, budget;
      ghost var whole := SearchRun(m, t, w.pending.value.rows, e, w.height, 0, e.pages, b);
      var lo: nat, hi: nat := 0, e.pages;
      while lo < hi
        invariant lo <= hi <= e.pages && wallet.pending.Some?
        invariant wallet == Journaled(w, wallet.pending.value.rows)
        invariant whole == SearchRun(m, t, wallet.pending.value.rows, e, w.height, lo, hi, budget)
        decreases hi - lo
      {
        var mid := (lo + hi) / 2;
        var complete := Buy(t, [PageRow(e.first + mid)]);
        if !complete {
          return Stopped;
        }
        assert PageRow(e.first + mid) in [PageRow(e.first + mid)];
        var page := PageAt(wallet.pending.value.rows, e, mid);
        if !PageOk(m, e, mid, page) {
          return BadPage;
        }
        if PageHigh(m, e, mid, page) <= wallet.height {
          lo := mid + 1;
        } else {
          hi := mid;
        }
      }
      return StartAt(lo);
    }

    /** Searches every record in turn. */
    method NavigateRecords(m: Manifest, t: Transport, records: seq<Entry>, on: bool) returns (stopped: bool, starts: Option<seq<nat>>)
      requires wallet.pending.Some?
      modifies this
      ensures var n := NavigateRun(m, t, old(wallet.pending.value.rows), records, old(wallet.height), on, old(budget));
        Has(old(wallet), n.rows, n.left) && stopped == n.stopped && starts == n.starts
    {
      hide SearchRun, NavigateRun;
      ghost var w, b := wallet, budget;
      var found: seq<nat> := [];
      NavigateNothing(m, t, w.pending.value.rows, records[..0], w.height, on, b);
      for i := 0 to |records|
        invariant wallet.pending.Some? && wallet == Journaled(w, wallet.pending.value.rows)
        invariant NavigateRun(m, t, w.pending.value.rows, records[..i], w.height, on, b)
          == Navigated(wallet.pending.value.rows, budget, false, Some(found))
      {
        assert records[..i + 1][..i] == records[..i];
        NavigateOneMore(m, t, w.pending.value.rows, records[..i + 1], w.height, on, b, found);
        if on {
          var r := SearchRecord(m, t, records[i]);
          if !r.StartAt? {
            NavigationEnds(m, t, w.pending.value.rows, records, w.height, on, b, i + 1);
            return r.Stopped?, None;
          }
          found := found + [r.start];
        } else {
          found := found + [0];
        }
      }
      assert records[..|records|] == records;
      return false, Some(found);
    }

    /** One call of sync, as the wallet runs it. */
    method Run(rank: Rank, src: Source) returns (outcome: Outcome)
      requires Arranges(src.visit)
      modifies this
      ensures (wallet, outcome) == Sync(rank, old(wallet), src, old(budget))
      ensures outcome == UpToDate <==> AlreadyCovered(old(wallet), src)
      ensures TurnedAway(old(wallet), src) || AlreadyCovered(old(wallet), src) ==> wallet == old(wallet)
      ensures old(wallet).pending.None? ==> (TurnedAway(old(wallet), src) <==> outcome == Failed && wallet.pending.None?)
    {
      hide Advance, TurnedAway, AlreadyCovered;
      CallStarts(rank, wallet, src, budget);
      match Admit(wallet, src)
      case Refused => return Failed;
      case Covered => return UpToDate;
      case Ready(ready) =>
        wallet := ready;
        outcome := Proceed(rank, src);
    }

    method Proceed(rank: Rank, src: Source) returns (outcome: Outcome)
      requires Arranges(src.visit) && wallet.pending.Some?
      modifies this
      ensures (wallet, outcome) == Advance(rank, old(wallet), src, old(budget))
    {
      hide Fetch, Records, NavigateRun, NeededPages, Complete, Ascending, Held;
      var m, t, targets := src.m, src.transport, wallet.pending.value.targets;
      var needed := TargetRows(m, targets);
      AscendingFacts(needed);
      var complete := Buy(t, Tagged(Ascending(needed), false));
      if !complete {
        return Paused;
      }
      DirectoryHeld(wallet.pending.value.rows, needed, src.visit(needed));
      var records := Records(m, wallet.pending.value.rows, src.visit(needed), targets);
      if records.None? {
        return Failed;
      }
      assert forall i :: 0 <= i < |records.value| ==> records.value[i] in records.value;
      var stopped, starts := NavigateRecords(m, t, records.value, src.navigation && wallet.height >= m.start);
      if stopped {
        return Paused;
      }
      if starts.None? {
        return Failed;
      }
      AscendingFacts(NeededPages(records.value, starts.value));
      complete := Buy(t, Tagged(Ascending(NeededPages(records.value, starts.value)), true));
      if !complete {
        return Paused;
      }
      PagesHeld(wallet.pending.value.rows, records.value, starts.value);
      var (next, o) := Complete(rank, wallet, src, records.value, starts.value);
      wallet := next;
      outcome := o;
    }
  }

  function PageHigh(m: Manifest, e: Entry, i: nat, page: Page): (h: nat)
    requires PageOk(m, e, i, page)
  {
    page.high
  }

  lemma NavigateNothing(m: Manifest, t: Transport, rows: Rows, records: seq<Entry>, checkpoint: nat, on: bool, budget: nat)
    requires records == []
    ensures NavigateRun(m, t, rows, records, checkpoint, on, budget) == Navigated(rows, budget, false, Some([]))
  {
  }

  lemma NavigateOneMore(m: Manifest, t: Transport, rows: Rows, records: seq<Entry>, checkpoint: nat, on: bool, budget: nat, starts: seq<nat>)
    requires records != []
    requires var head := NavigateRun(m, t, rows, records[..|records| - 1], checkpoint, on, budget); !head.stopped && head.starts == Some(starts)
    ensures var n := |records| - 1;
      var head, all := NavigateRun(m, t, rows, records[..n], checkpoint, on, budget), NavigateRun(m, t, rows, records, checkpoint, on, budget);
      if !on then all == head.(starts := Some(starts + [0]))
      else
        var s := SearchRun(m, t, head.rows, records[n], checkpoint, 0, records[n].pages, head.left);
        all == if s.found.StartAt? then Navigated(s.rows, s.left, false, Some(starts + [s.found.start]))
               else Navigated(s.rows, s.left, s.found.Stopped?, None)
  {
    hide SearchRun;
  }

  lemma BuysAll(before: Rows, t: Transport, request: seq<RowId>, budget: nat, need: seq<RowId>, rows: Rows)
    requires Distinct(request) && need == Affordable(Held(before), request, budget) && rows == KeepAll(before, t, need)
    ensures Fetch(before, t, request, budget) == Purchase(rows, |need| == |Missing(Held(before), request)|, budget - |need|)
    ensures (forall r | r in request :: r in Held(rows)) <==> |need| == |Missing(Held(before), request)|
  {
    hide Missing, Affordable, KeepAll, Held;
    FetchedAll(Held(before), request, budget);
  }

  /** Old rows stay as they were, and new ones are what the transport gave. */
  ghost predicate AddsFrom(before: Rows, after: Rows, t: Transport) {
    && (forall x | x in before.directory :: x in after.directory) && (forall x | x in before.pages :: x in after.pages)
    && (forall x | x in after.directory :: after.directory[x] == if x in before.directory then before.directory[x] else t.directory(x))
    && (forall x | x in after.pages :: after.pages[x] == if x in before.pages then before.pages[x] else t.pages(x))
  }

  /** Of the rows asked for, those up to some point are held, and after it only those that were. */
  ghost predicate BoughtUpTo(before: set<RowId>, after: set<RowId>, request: seq<RowId>, n: nat) {
    && n <= |request| && (forall i :: 0 <= i < n ==> request[i] in after)
    && (forall i :: n <= i < |request| ==> (request[i] in after <==> request[i] in before))
    && (forall x | x in after :: x in before || x in request)
  }

  lemma {:induction false} KeepAllAdds(rows: Rows, t: Transport, ids: seq<RowId>)
    requires forall x | x in ids :: x !in Held(rows)
    ensures AddsFrom(rows, KeepAll(rows, t, ids), t)
  {
    hide AddsFrom, Keep, KeepAll, Held;
    if ids == [] {
      NothingAdded(rows, t);
    }
    if ids != [] {
      var n := |ids| - 1;
      assert forall x | x in ids[..n] :: x in ids;
      KeepAllAdds(rows, t, ids[..n]);
      KeepOneMore(rows, t, ids);
      KeepAdds(rows, KeepAll(rows, t, ids[..n]), t, ids[n]);
    }
  }

  lemma NothingAdded(rows: Rows, t: Transport)
    ensures AddsFrom(rows, KeepAll(rows, t, []), t)
  {
  }

  lemma KeepAdds(rows: Rows, more: Rows, t: Transport, id: RowId)
    requires AddsFrom(rows, more, t) && id !in Held(rows)
    ensures AddsFrom(rows, Keep(more, t, id), t)
  {
    match id
    case DirectoryRow(x) => assert x !in rows.directory;
    case PageRow(x) => assert x !in rows.pages;
  }

  lemma {:induction false} MissingPrefix(journal: set<RowId>, request: seq<RowId>, k: nat) returns (n: nat)
    requires k <= |Missing(journal, request)|
    ensures n <= |request| && Missing(journal, request[..n]) == Missing(journal, request)[..k]
    ensures k == |Missing(journal, request)| ==> n == |request|
  {
    if k == |Missing(journal, request)| {
      n := |request|;
      assert request[..n] == request;
    } else {
      var m := |request| - 1;
      n := MissingPrefix(journal, request[..m], k);
      assert request[..m][..n] == request[..n];
    }
  }

  /** The rows bought are the first ones missing, as many as the budget allows; with nothing left missing the request is complete. */
  lemma FetchExactly(rows: Rows, t: Transport, request: seq<RowId>, budget: nat) returns (n: nat)
    requires Distinct(request)
    ensures var f := Fetch(rows, t, request, budget);
      && AddsFrom(rows, f.rows, t) && BoughtUpTo(Held(rows), Held(f.rows), request, n)
      && (f.complete <==> n == |request|) && (f.left > 0 ==> f.complete)
  {
    hide Held, KeepAll;
    var f, bought := Fetch(rows, t, request, budget), Affordable(Held(rows), request, budget);
    n := MissingPrefix(Held(rows), request, |bought|);
    assert bought == Missing(Held(rows), request[..n]);
    KeepAllAdds(rows, t, bought);
    assert Held(f.rows) == Held(rows) + AsSet(bought);
    forall i | n <= i < |request|
      ensures request[i] !in request[..n]
    {
    }
    if n == |request| {
      assert request[..n] == request;
    }
  }

  lemma KeepNone(rows: Rows, t: Transport)
    ensures KeepAll(rows, t, []) == rows
  {
  }

  lemma KeepOneMore(rows: Rows, t: Transport, ids: seq<RowId>)
    requires ids != []
    ensures KeepAll(rows, t, ids) == Keep(KeepAll(rows, t, ids[..|ids| - 1]), t, ids[|ids| - 1])
  {
  }

  lemma {:induction false} NavigationEnds(m: Manifest, t: Transport, rows: Rows, records: seq<Entry>, checkpoint: nat, on: bool,
                                          budget: nat, n: nat)
    requires n <= |records|
    requires var r := NavigateRun(m, t, rows, records[..n], checkpoint, on, budget); r.stopped || r.starts.None?
    ensures NavigateRun(m, t, rows, records, checkpoint, on, budget) == NavigateRun(m, t, rows, records[..n], checkpoint, on, budget)
    decreases |records|
  {
    hide SearchRun;
    if n < |records| {
      var k := |records| - 1;
      assert records[..k][..n] == records[..n];
      NavigationEnds(m, t, rows, records[..k], checkpoint, on, budget, n);
    } else {
      assert records[..n] == records;
    }
  }
}
