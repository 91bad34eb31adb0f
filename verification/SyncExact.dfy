/** What a wallet's syncs amount to when rows come from the generation: budgets, navigation and layout do not matter. */
module SyncExact {
  import opened Results
  import opened Chain
  import opened Sorting
  import opened Ledger
  import opened History
  import opened Budget
  import opened WalletSync

  /** Private queries return the generation's own rows. */
  ghost predicate Honest(t: Transport, g: Generation) {
    && g.m.directoryRows == |g.directory| && g.m.pageRows == |g.pages|
    && (forall r :: 0 <= r < |g.directory| ==> t.directory(r) == g.directory[r])
    && (forall r :: 0 <= r < |g.pages| ==> t.pages(r) == g.pages[r])
  }

  function AllRows(g: Generation): (r: Rows)
    ensures forall i: nat :: i in r.directory <==> i < |g.directory|
    ensures forall i: nat :: i in r.pages <==> i < |g.pages|
  {
    Rows(map i: nat | i < |g.directory| :: g.directory[i], map i: nat | i < |g.pages| :: g.pages[i])
  }

  lemma AllRowsWithin(g: Generation)
    ensures Within(AllRows(g), g)
  {
  }

  /** Rows of one generation are determined by which ones are held. */
  lemma SameHeld(a: Rows, b: Rows, g: Generation)
    requires Within(a, g) && Within(b, g) && Held(a) == Held(b)
    ensures a == b
  {
    forall r
      ensures r in a.directory <==> r in b.directory
    {
      assert DirectoryRow(r) in Held(a) <==> DirectoryRow(r) in Held(b);
    }
    forall r
      ensures r in a.pages <==> r in b.pages
    {
      assert PageRow(r) in Held(a) <==> PageRow(r) in Held(b);
    }
    assert a.directory == b.directory && a.pages == b.pages;
  }

  // ---- the requests of a call, read off the generation ----

  ghost predicate InTable(g: Generation, id: RowId) {
    if id.DirectoryRow? then id.row < |g.directory| else id.row < |g.pages|
  }

  function ProbeRequests(e: Entry, probes: seq<nat>): (r: seq<seq<RowId>>)
    ensures |r| == |probes| && forall i :: 0 <= i < |r| ==> r[i] == [PageRow(e.first + probes[i])]
  {
    seq(|probes|, i requires 0 <= i < |probes| => [PageRow(e.first + probes[i])])
  }

  datatype Navigation = Navigation(probes: seq<seq<RowId>>, starts: Option<seq<nat>>)

  function Navigate(g: Generation, records: seq<Entry>, checkpoint: nat, on: bool): (r: Navigation)
    requires RecordsOk(g.m, records) && g.m.pageRows == |g.pages|
    ensures r.starts.Some? ==> Starts(records, r.starts.value)
    ensures forall i :: 0 <= i < |r.probes| ==> |r.probes[i]| == 1
  {
    if records == [] then Navigation([], Some([]))
    else
      var n := |records| - 1;
      var head := Navigate(g, records[..n], checkpoint, on);
      if head.starts.None? then head
      else if !on then Navigation(head.probes, Some(head.starts.value + [0]))
      else
        AllPagesHeld(g, records[n]);
        var found := Search(g.m, AllRows(g), records[n], checkpoint, 0, records[n].pages);
        Navigation(head.probes + ProbeRequests(records[n], found.probes),
                   if found.start.None? then None else Some(head.starts.value + [found.start.value]))
  }

  lemma AllPagesHeld(g: Generation, e: Entry)
    requires RecordOk(g.m, e) && g.m.pageRows == |g.pages|
    ensures HasPages(AllRows(g), e, 0)
  {
  }

  datatype Plan = Plan(requests: seq<seq<RowId>>, records: seq<Entry>, starts: Option<seq<nat>>)

  /** Everything a call will request, in order, and where each record's history is read from. */
  function PlanOf(g: Generation, visit: set<nat> -> seq<nat>, targets: set<Script>, checkpoint: nat, navigation: bool): (p: Plan)
    requires Arranges(visit) && g.m.pageRows == |g.pages| && Bucketed(g)
    ensures p.starts.Some? ==> RecordsOk(g.m, p.records) && Starts(p.records, p.starts.value)
  {
    var needed := TargetRows(g.m, targets);
    var directory := Tagged(Ascending(needed), false);
    VisitedInTable(g, targets, visit(needed));
    var records := Records(g.m, AllRows(g), visit(needed), targets);
    if records.None? then Plan([directory], [], None)
    else
      assert forall i :: 0 <= i < |records.value| ==> records.value[i] in records.value;
      var found := Navigate(g, records.value, checkpoint, navigation && checkpoint >= g.m.start);
      if found.starts.None? then Plan([directory] + found.probes, records.value, None)
      else
        var pages := Tagged(Ascending(NeededPages(records.value, found.starts.value)), true);
        Plan([directory] + found.probes + [pages], records.value, found.starts)
  }

  /** The bucket hash is taken modulo the directory rows. */
  ghost predicate Bucketed(g: Generation) {
    forall s: Script :: g.m.bucket(s) < |g.directory|
  }

  lemma VisitedInTable(g: Generation, targets: set<Script>, order: seq<nat>)
    requires Bucketed(g) && forall r :: r in order <==> r in TargetRows(g.m, targets)
    ensures forall i :: 0 <= i < |order| ==> order[i] in AllRows(g).directory
  {
    forall i | 0 <= i < |order|
      ensures order[i] in AllRows(g).directory
    {
      assert order[i] in order;
    }
  }

  // ---- a call makes exactly those requests ----

  lemma {:induction false} KeepAllWithin(rows: Rows, t: Transport, ids: seq<RowId>, g: Generation)
    requires Within(rows, g) && Honest(t, g) && forall x | x in ids :: InTable(g, x)
    ensures Within(KeepAll(rows, t, ids), g)
  {
    if ids != [] {
      var n := |ids| - 1;
      assert ids == ids[..n] + [ids[n]];
      KeepAllWithin(rows, t, ids[..n], g);
      assert InTable(g, ids[n]);
    }
  }

  /** The journal after some requests is the generation's rows they bought, and nothing else changed. */
  ghost predicate Tracks(g: Generation, rows: Rows, left: nat, complete: bool, f: Fetched) {
    Held(rows) == f.journal && Within(rows, g) && left == f.left && complete == f.done
  }

  lemma FetchRuns(g: Generation, t: Transport, rows: Rows, request: seq<RowId>, budget: nat)
    requires Within(rows, g) && Honest(t, g) && forall x | x in request :: InTable(g, x)
    ensures var f := Fetch(rows, t, request, budget);
      Tracks(g, f.rows, f.left, f.complete, RunRequests(Held(rows), [request], budget))
  {
    hide Missing, KeepAll, Within, InTable, Honest;
    var bought := Affordable(Held(rows), request, budget);
    assert forall x | x in bought :: x in Missing(Held(rows), request);
    KeepAllWithin(rows, t, bought, g);
    RunOne(Held(rows), request, budget);
  }

  lemma SinglePage(g: Generation, e: Entry, mid: nat)
    requires RecordOk(g.m, e) && g.m.pageRows == |g.pages| && mid < e.pages
    ensures forall x | x in [PageRow(e.first + mid)] :: InTable(g, x)
  {
  }

  /** A page read from the journal is the page read from the generation. */
  lemma SamePage(g: Generation, rows: Rows, e: Entry, i: nat)
    requires Within(rows, g) && HasPage(rows, e, i)
    ensures HasPage(AllRows(g), e, i) && PageAt(rows, e, i) == PageAt(AllRows(g), e, i)
  {
  }

  lemma HonestShape(t: Transport, g: Generation)
    requires Honest(t, g)
    ensures g.m.directoryRows == |g.directory| && g.m.pageRows == |g.pages|
  {
  }

  lemma NoRequests(journal: set<RowId>, requests: seq<seq<RowId>>, budget: nat)
    requires requests == []
    ensures RunRequests(journal, requests, budget) == Fetched(journal, true, budget)
  {
  }

  lemma HeldPageOf(rows: Rows, e: Entry, i: nat)
    requires forall x | x in [PageRow(e.first + i)] :: x in Held(rows)
    ensures HasPage(rows, e, i)
  {
    var id := PageRow(e.first + i);
    assert id in [id];
    assert id in Held(rows);
  }

  /** One step of the ideal search. */
  lemma SearchStep(m: Manifest, all: Rows, e: Entry, checkpoint: nat, lo: nat, hi: nat, page: Page)
    requires HasPages(all, e, 0) && lo < hi <= e.pages
    requires HasPage(all, e, (lo + hi) / 2) && page == PageAt(all, e, (lo + hi) / 2)
    ensures var mid, r := (lo + hi) / 2, Search(m, all, e, checkpoint, lo, hi);
      if !PageOk(m, e, mid, page) then r == SearchResult([mid], None)
      else
        var rest := if page.high <= checkpoint then Search(m, all, e, checkpoint, mid + 1, hi)
                    else Search(m, all, e, checkpoint, lo, mid);
        r == SearchResult([mid] + rest.probes, rest.start)
  {
    hide PageOk, HasPages;
  }

  lemma ProbesCons(e: Entry, mid: nat, rest: seq<nat>)
    ensures ProbeRequests(e, [mid] + rest) == [[PageRow(e.first + mid)]] + ProbeRequests(e, rest)
  {
  }

  ghost predicate SearchTracks(g: Generation, e: Entry, ideal: SearchResult, journal: set<RowId>, budget: nat, s: Searched) {
    && Tracks(g, s.rows, s.left, !s.found.Stopped?, RunRequests(journal, ProbeRequests(e, ideal.probes), budget))
    && (s.found.BadPage? ==> ideal.start.None?)
    && (s.found.StartAt? ==> ideal.start == Some(s.found.start))
  }

  /** A completed first probe, then the rest. */
  lemma SearchTracksMore(g: Generation, e: Entry, mid: nat, rest: SearchResult, journal: set<RowId>, budget: nat, f: Purchase, s: Searched)
    requires Tracks(g, f.rows, f.left, true, RunRequests(journal, [[PageRow(e.first + mid)]], budget))
    requires SearchTracks(g, e, rest, Held(f.rows), f.left, s)
    ensures SearchTracks(g, e, SearchResult([mid] + rest.probes, rest.start), journal, budget, s)
  {
    hide RunRequests, ProbeRequests, Within, Held;
    ProbesCons(e, mid, rest.probes);
    RunAppend(journal, [[PageRow(e.first + mid)]], ProbeRequests(e, rest.probes), budget);
  }

  /** The first probe could not be paid for. */
  lemma SearchTracksStop(g: Generation, e: Entry, mid: nat, rest: SearchResult, journal: set<RowId>, budget: nat, f: Purchase)
    requires Tracks(g, f.rows, f.left, false, RunRequests(journal, [[PageRow(e.first + mid)]], budget))
    ensures SearchTracks(g, e, SearchResult([mid] + rest.probes, rest.start), journal, budget, Searched(f.rows, f.left, Stopped))
  {
    hide RunRequests, ProbeRequests, Within, Held;
    ProbesCons(e, mid, rest.probes);
    RunAppend(journal, [[PageRow(e.first + mid)]], ProbeRequests(e, rest.probes), budget);
  }

  lemma SearchTracksNone(g: Generation, e: Entry, rows: Rows, budget: nat, start: Option<nat>, found: Found)
    requires Within(rows, g) && (found.BadPage? ==> start.None?) && (found.StartAt? ==> start == Some(found.start)) && !found.Stopped?
    ensures SearchTracks(g, e, SearchResult([], start), Held(rows), budget, Searched(rows, budget, found))
  {
    hide Within;
    NoRequests(Held(rows), ProbeRequests(e, []), budget);
  }

  /** The journaled search makes the ideal search's probes and ends where it does. */
  lemma {:induction false} SearchRuns(g: Generation, t: Transport, rows: Rows, e: Entry, checkpoint: nat, lo: nat, hi: nat, budget: nat)
    requires Within(rows, g) && Honest(t, g) && RecordOk(g.m, e) && HasPages(AllRows(g), e, 0) && lo <= hi <= e.pages
    ensures SearchTracks(g, e, Search(g.m, AllRows(g), e, checkpoint, lo, hi), Held(rows), budget,
                         SearchRun(g.m, t, rows, e, checkpoint, lo, hi, budget))
    decreases hi - lo
  {
    hide RecordOk, PageOk, Fetch, Held, Within, Honest, HasPages, PageAt, HasPage, RunRequests, AllRows, SearchTracks, Search;
    var all := AllRows(g);
    if lo == hi {
      SearchEmpty(g.m, all, e, checkpoint, lo);
      SearchTracksNone(g, e, rows, budget, Some(lo), StartAt(lo));
    } else {
      var mid := (lo + hi) / 2;
      var request := [PageRow(e.first + mid)];
      HonestShape(t, g);
      SinglePage(g, e, mid);
      FetchRuns(g, t, rows, request, budget);
      var f := Fetch(rows, t, request, budget);
      HasOne(all, e, mid);
      SearchStep(g.m, all, e, checkpoint, lo, hi, PageAt(all, e, mid));
      if !f.complete {
        var ideal := Search(g.m, all, e, checkpoint, lo, hi);
        assert ideal.probes == [mid] + ideal.probes[1..];
        SearchTracksStop(g, e, mid, SearchResult(ideal.probes[1..], ideal.start), Held(rows), budget, f);
      } else {
        HeldPageOf(f.rows, e, mid);
        SamePage(g, f.rows, e, mid);
        var page := PageAt(f.rows, e, mid);
        if !PageOk(g.m, e, mid, page) {
          SearchTracksNone(g, e, f.rows, f.left, None, BadPage);
          SearchTracksMore(g, e, mid, SearchResult([], None), Held(rows), budget, f, Searched(f.rows, f.left, BadPage));
          assert [mid] + [] == [mid];
        } else {
          PageOkIsPage(g.m, e, mid, page);
          var (a, b) := if page.high <= checkpoint then (mid + 1, hi) else (lo, mid);
          SearchRuns(g, t, f.rows, e, checkpoint, a, b, f.left);
          SearchTracksMore(g, e, mid, Search(g.m, all, e, checkpoint, a, b), Held(rows), budget, f,
                           SearchRun(g.m, t, f.rows, e, checkpoint, a, b, f.left));
        }
      }
    }
  }

  lemma SearchEmpty(m: Manifest, all: Rows, e: Entry, checkpoint: nat, lo: nat)
    requires HasPages(all, e, 0) && lo <= e.pages
    ensures Search(m, all, e, checkpoint, lo, lo) == SearchResult([], Some(lo))
  {
  }

  lemma HasOne(all: Rows, e: Entry, i: nat)
    requires HasPages(all, e, 0) && i < e.pages
    ensures HasPage(all, e, i)
  {
  }

  lemma PageOkIsPage(m: Manifest, e: Entry, i: nat, page: Page)
    requires PageOk(m, e, i, page)
    ensures page.Page?
  {
  }

  ghost predicate NavigationTracks(g: Generation, ideal: Navigation, journal: set<RowId>, budget: nat, n: Navigated) {
    && Tracks(g, n.rows, n.left, !n.stopped, RunRequests(journal, ideal.probes, budget))
    && (!n.stopped ==> n.starts == ideal.starts)
  }

  lemma NavigationAppend(g: Generation, head: Navigation, e: Entry, found: SearchResult, journal: set<RowId>, budget: nat,
                         n: Navigated, s: Searched, starts: seq<nat>)
    requires NavigationTracks(g, head, journal, budget, n) && !n.stopped && head.starts == Some(starts)
    requires SearchTracks(g, e, found, Held(n.rows), n.left, s)
    ensures NavigationTracks(g, Navigation(head.probes + ProbeRequests(e, found.probes),
                                           if found.start.None? then None else Some(starts + [found.start.value])),
                             journal, budget,
                             Navigated(s.rows, s.left, s.found.Stopped?,
                                       if s.found.StartAt? then Some(starts + [s.found.start]) else None))
  {
    hide RunRequests, ProbeRequests, Within, Held;
    RunAppend(journal, head.probes, ProbeRequests(e, found.probes), budget);
  }

  lemma NavigationStopped(g: Generation, head: Navigation, more: seq<seq<RowId>>, starts: Option<seq<nat>>, journal: set<RowId>,
                          budget: nat, n: Navigated)
    requires NavigationTracks(g, head, journal, budget, n) && n.stopped
    ensures NavigationTracks(g, Navigation(head.probes + more, starts), journal, budget, n)
  {
    hide RunRequests, Within, Held;
    RunAppend(journal, head.probes, more, budget);
  }

  lemma {:induction false} NavigateRuns(g: Generation, t: Transport, rows: Rows, records: seq<Entry>, checkpoint: nat, on: bool, budget: nat)
    requires Within(rows, g) && Honest(t, g) && RecordsOk(g.m, records) && g.m.pageRows == |g.pages|
    ensures NavigationTracks(g, Navigate(g, records, checkpoint, on), Held(rows), budget,
                             NavigateRun(g.m, t, rows, records, checkpoint, on, budget))
  {
    hide RecordOk, Held, Within, Honest, RunRequests, AllRows, SearchTracks, Search, SearchRun, HasPages, NavigationTracks, ProbeRequests;
    if records == [] {
      NavigationNone(g, rows, budget);
    } else {
      var n := |records| - 1;
      NavigateRuns(g, t, rows, records[..n], checkpoint, on, budget);
      var ideal, head := Navigate(g, records[..n], checkpoint, on), NavigateRun(g.m, t, rows, records[..n], checkpoint, on, budget);
      NavigationAgrees(g, ideal, Held(rows), budget, head);
      AllPagesHeld(g, records[n]);
      var found := Search(g.m, AllRows(g), records[n], checkpoint, 0, records[n].pages);
      if ideal.starts.Some? && on {
        if head.stopped {
          NavigationStopped(g, ideal, ProbeRequests(records[n], found.probes), Navigate(g, records, checkpoint, on).starts,
                            Held(rows), budget, head);
        } else {
          SearchRuns(g, t, head.rows, records[n], checkpoint, 0, records[n].pages, head.left);
          var s := SearchRun(g.m, t, head.rows, records[n], checkpoint, 0, records[n].pages, head.left);
          NavigationAppend(g, ideal, records[n], found, Held(rows), budget, head, s, ideal.starts.value);
        }
      } else if ideal.starts.Some? {
        NavigationUnsearched(g, ideal, ideal.starts.value, Held(rows), budget, head);
      }
    }
  }

  lemma NavigationNone(g: Generation, rows: Rows, budget: nat)
    requires Within(rows, g)
    ensures NavigationTracks(g, Navigation([], Some([])), Held(rows), budget, Navigated(rows, budget, false, Some([])))
  {
  }

  lemma NavigationAgrees(g: Generation, ideal: Navigation, journal: set<RowId>, budget: nat, n: Navigated)
    requires NavigationTracks(g, ideal, journal, budget, n)
    ensures Within(n.rows, g) && (!n.stopped ==> n.starts == ideal.starts)
  {
  }

  lemma NavigationUnsearched(g: Generation, head: Navigation, starts: seq<nat>, journal: set<RowId>, budget: nat, n: Navigated)
    requires NavigationTracks(g, head, journal, budget, n) && head.starts == Some(starts)
    ensures n.stopped ==> NavigationTracks(g, Navigation(head.probes, Some(starts + [0])), journal, budget, n)
    ensures !n.stopped ==>
      NavigationTracks(g, Navigation(head.probes, Some(starts + [0])), journal, budget, n.(starts := Some(starts + [0])))
  {
  }

  /** Records read from the journal are the records read from the generation. */
  lemma {:induction false} SameRecords(m: Manifest, a: Rows, b: Rows, order: seq<nat>, targets: set<Script>)
    requires forall i :: 0 <= i < |order| ==>
      order[i] in a.directory && order[i] in b.directory && a.directory[order[i]] == b.directory[order[i]]
    ensures Records(m, a, order, targets) == Records(m, b, order, targets)
  {
    if order != [] {
      SameRecords(m, a, b, order[..|order| - 1], targets);
    }
  }

  lemma WithinSame(g: Generation, rows: Rows, order: seq<nat>)
    requires Within(rows, g) && forall i :: 0 <= i < |order| ==> order[i] in rows.directory
    ensures forall i :: 0 <= i < |order| ==>
      order[i] in AllRows(g).directory && rows.directory[order[i]] == AllRows(g).directory[order[i]]
  {
  }

  lemma DirectoryInTable(g: Generation, targets: set<Script>)
    requires Bucketed(g)
    ensures forall x | x in Tagged(Ascending(TargetRows(g.m, targets)), false) :: InTable(g, x)
  {
    hide Ascending;
    var needed := TargetRows(g.m, targets);
    AscendingFacts(needed);
    var rows := Ascending(needed);
    forall x | x in Tagged(rows, false)
      ensures InTable(g, x)
    {
      var j :| 0 <= j < |rows| && Tagged(rows, false)[j] == x;
      assert rows[j] in rows;
    }
  }

  lemma {:induction false} NeededInTable(m: Manifest, records: seq<Entry>, starts: seq<nat>, row: nat)
    requires RecordsOk(m, records) && |starts| == |records| && row in NeededPages(records, starts)
    ensures row < m.pageRows
  {
    var n := |records| - 1;
    PageRangeHas(records[n], starts[n], row);
    if row !in PageRange(records[n], starts[n]) {
      NeededInTable(m, records[..n], starts[..n], row);
    }
  }

  lemma PagesInTable(g: Generation, records: seq<Entry>, starts: seq<nat>)
    requires RecordsOk(g.m, records) && |starts| == |records| && g.m.pageRows == |g.pages|
    ensures forall x | x in Tagged(Ascending(NeededPages(records, starts)), true) :: InTable(g, x)
  {
    hide Ascending, NeededPages, RecordsOk;
    var needed := NeededPages(records, starts);
    AscendingFacts(needed);
    var rows := Ascending(needed);
    forall x | x in Tagged(rows, true)
      ensures InTable(g, x)
    {
      var j :| 0 <= j < |rows| && Tagged(rows, true)[j] == x;
      assert rows[j] in rows;
      NeededInTable(g.m, records, starts, rows[j]);
    }
  }

  /** What a call gathers is what the plan asks for, bought in order until the budget ends. */
  ghost predicate CollectTracks(g: Generation, plan: Plan, journal: set<RowId>, budget: nat, c: Collected) {
    var f := RunRequests(journal, plan.requests, budget);
    && Held(c.rows) == f.journal && Within(c.rows, g)
    && (c.Halted? <==> !f.done)
    && (c.Broken? ==> plan.starts.None?)
    && (c.Gathered? ==> c.records == plan.records && plan.starts == Some(c.starts))
  }

  lemma CollectRuns(g: Generation, t: Transport, visit: set<nat> -> seq<nat>, targets: set<Script>, rows: Rows, checkpoint: nat,
                    navigation: bool, budget: nat)
    requires Within(rows, g) && Honest(t, g) && Arranges(visit) && Bucketed(g) && g.m.pageRows == |g.pages|
    ensures CollectTracks(g, PlanOf(g, visit, targets, checkpoint, navigation), Held(rows), budget,
                          Collect(g.m, t, visit, targets, rows, checkpoint, navigation, budget))
  {
    hide Held, Within, Honest, RunRequests, Records, Navigate, NavigateRun, Ascending, NeededPages, Fetch, Arranges, AllRows;
    var needed := TargetRows(g.m, targets);
    var order := Arranged(visit, needed);
    var request := Tagged(Ascending(needed), false);
    DirectoryInTable(g, targets);
    FetchRuns(g, t, rows, request, budget);
    var d := Fetch(rows, t, request, budget);
    var plan := PlanOf(g, visit, targets, checkpoint, navigation);
    var c := Collect(g.m, t, visit, targets, rows, checkpoint, navigation, budget);
    var rest := plan.requests[1..];
    assert plan.requests == [request] + rest;
    RunAppend(Held(rows), [request], rest, budget);
    if d.complete {
      DirectoryHeld(d.rows, needed, order);
      VisitedInTable(g, targets, order);
      WithinSame(g, d.rows, order);
      SameRecords(g.m, d.rows, AllRows(g), order, targets);
      var records := Records(g.m, d.rows, order, targets);
      if records.None? {
        NoRequests(Held(d.rows), rest, d.left);
      } else {
        assert forall i :: 0 <= i < |records.value| ==> records.value[i] in records.value;
        PagesRun(g, t, d.rows, records.value, checkpoint, navigation && checkpoint >= g.m.start, d.left, rest, plan.starts, c);
      }
    }
  }

  lemma Arranged(visit: set<nat> -> seq<nat>, s: set<nat>) returns (order: seq<nat>)
    requires Arranges(visit)
    ensures order == visit(s) && forall r :: r in order <==> r in s
  {
    order := visit(s);
  }

  /** The part of a call after the directory. */
  lemma PagesRun(g: Generation, t: Transport, rows: Rows, records: seq<Entry>, checkpoint: nat, on: bool, budget: nat,
                 rest: seq<seq<RowId>>, starts: Option<seq<nat>>, c: Collected)
    requires Within(rows, g) && Honest(t, g) && RecordsOk(g.m, records) && g.m.pageRows == |g.pages|
    requires var ideal := Navigate(g, records, checkpoint, on);
      && starts == ideal.starts
      && rest == if starts.None? then ideal.probes
                 else ideal.probes + [Tagged(Ascending(NeededPages(records, starts.value)), true)]
    requires var n := NavigateRun(g.m, t, rows, records, checkpoint, on, budget);
      c == if n.stopped then Halted(n.rows)
           else if n.starts.None? then Broken(n.rows)
           else
             var pages := Fetch(n.rows, t, Tagged(Ascending(NeededPages(records, n.starts.value)), true), n.left);
             if !pages.complete then Halted(pages.rows) else Gathered(pages.rows, records, n.starts.value)
    ensures CollectTracks(g, Plan(rest, records, starts), Held(rows), budget, c)
  {
    hide Held, Within, Honest, RunRequests, Navigate, NavigateRun, Ascending, NeededPages, Fetch;
    NavigateRuns(g, t, rows, records, checkpoint, on, budget);
    var ideal := Navigate(g, records, checkpoint, on);
    var n := NavigateRun(g.m, t, rows, records, checkpoint, on, budget);
    if starts.None? {
      assert rest == ideal.probes;
    } else {
      var request := Tagged(Ascending(NeededPages(records, starts.value)), true);
      RunAppend(Held(rows), ideal.probes, [request], budget);
      if !n.stopped {
        PagesInTable(g, records, starts.value);
        FetchRuns(g, t, n.rows, request, n.left);
      }
    }
  }

  // ---- budgets do not matter ----

  /** The source hands out this generation's rows. */
  ghost predicate Serves(src: Source, g: Generation) {
    && src.m == g.m && Honest(src.transport, g) && Arranges(src.visit) && Bucketed(g) && g.m.pageRows == |g.pages|
  }

  /** The wallet's journal is open for this source and holds the generation's rows. */
  ghost predicate Open(w: Wallet, src: Source, g: Generation) {
    w.pending.Some? && Admit(w, src) == Ready(w) && Within(w.pending.value.rows, g)
  }

  ghost function PlanFor(w: Wallet, src: Source, g: Generation): (p: Plan)
    requires Serves(src, g) && w.pending.Some?
  {
    PlanOf(g, src.visit, w.pending.value.targets, w.height, src.navigation)
  }

  /** The rows a wallet with an open journal still has to fetch. */
  ghost function StillMissing(w: Wallet, src: Source, g: Generation): (r: set<RowId>)
    requires Serves(src, g) && w.pending.Some?
  {
    Needed(PlanFor(w, src, g).requests) - Held(w.pending.value.rows)
  }

  lemma PlanSeparate(g: Generation, visit: set<nat> -> seq<nat>, targets: set<Script>, checkpoint: nat, navigation: bool)
    requires Arranges(visit) && g.m.pageRows == |g.pages| && Bucketed(g)
    ensures Separate(PlanOf(g, visit, targets, checkpoint, navigation).requests)
  {
    hide Records, Navigate, Ascending, NeededPages, AllRows;
    AscendingFacts(TargetRows(g.m, targets));
    var p := PlanOf(g, visit, targets, checkpoint, navigation);
    if p.starts.Some? {
      AscendingFacts(NeededPages(p.records, p.starts.value));
    }
  }

  ghost function CollectFor(w: Wallet, src: Source, budget: nat): (c: Collected)
    requires w.pending.Some? && Arranges(src.visit)
  {
    Collect(src.m, src.transport, src.visit, w.pending.value.targets, w.pending.value.rows, w.height, src.navigation, budget)
  }

  /** What one call gathers: all it needs if the missing rows fit the budget, otherwise exactly the budget of them. */
  lemma CollectExact(w: Wallet, src: Source, g: Generation, budget: nat)
    requires Serves(src, g) && Open(w, src, g)
    ensures var c, plan, missing := CollectFor(w, src, budget), PlanFor(w, src, g), StillMissing(w, src, g);
      && Within(c.rows, g)
      && Held(w.pending.value.rows) <= Held(c.rows) <= Held(w.pending.value.rows) + missing
      && (c.Halted? <==> |missing| > budget)
      && (c.Halted? ==> |Needed(plan.requests) - Held(c.rows)| == |missing| - budget)
      && (!c.Halted? ==> Held(c.rows) == Held(w.pending.value.rows) + missing)
      && (c.Broken? ==> plan.starts.None?)
      && (c.Gathered? ==> c.records == plan.records && plan.starts == Some(c.starts))
  {
    hide PlanOf, RunRequests, Collect, Spends, Held, Within, Honest, Bucketed, Arranges, Admit;
    var plan := PlanFor(w, src, g);
    var rows := w.pending.value.rows;
    PlanSeparate(g, src.visit, w.pending.value.targets, w.height, src.navigation);
    CollectRuns(g, src.transport, src.visit, w.pending.value.targets, rows, w.height, src.navigation, budget);
    BudgetExact(Held(rows), plan.requests, budget);
    var f := RunRequests(Held(rows), plan.requests, budget);
    SpendsMissing(Held(rows), Needed(plan.requests), budget, f.journal, f.done);
  }

  lemma SyncAdvances(rank: Rank, w: Wallet, src: Source, budget: nat)
    requires Arranges(src.visit) && w.pending.Some? && Admit(w, src) == Ready(w)
    ensures Sync(rank, w, src, budget) == Advance(rank, w, src, budget)
  {
    hide Advance, Admit;
  }

  lemma AdmitKeeps(w: Wallet, src: Source, rows: Rows)
    requires w.pending.Some? && Admit(w, src) == Ready(w)
    ensures Admit(Journaled(w, rows), src) == Ready(Journaled(w, rows))
  {
  }

  /**
   One call pauses exactly when rows are missing beyond the budget; a pause changes only the journal,
   which grows by exactly the budget with rows of the generation that were missing.
   */
  lemma CallExact(rank: Rank, w: Wallet, src: Source, g: Generation, budget: nat)
    requires Serves(src, g) && Open(w, src, g)
    ensures var (next, outcome) := Sync(rank, w, src, budget);
      var missing := StillMissing(w, src, g);
      && (outcome == Paused <==> |missing| > budget)
      && (outcome == Paused ==>
            && Open(next, src, g) && next == Journaled(w, next.pending.value.rows)
            && Held(w.pending.value.rows) <= Held(next.pending.value.rows) <= Held(w.pending.value.rows) + missing
            && |StillMissing(next, src, g)| == |missing| - budget)
  {
    hide Collect, PlanOf, Held, Within, Admit, Complete, Sync;
    CollectExact(w, src, g, budget);
    SyncAdvances(rank, w, src, budget);
    var c := CollectFor(w, src, budget);
    if c.Halted? {
      AdmitKeeps(w, src, c.rows);
    }
  }

  /** Two calls that can afford everything end alike, whatever either wallet had journaled before. */
  lemma FinishSame(rank: Rank, w: Wallet, other: Wallet, src: Source, g: Generation, budget: nat, enough: nat)
    requires Serves(src, g) && Open(w, src, g) && Open(other, src, g)
    requires other == Journaled(w, other.pending.value.rows)
    requires Held(w.pending.value.rows) <= Held(other.pending.value.rows) <= Held(w.pending.value.rows) + StillMissing(w, src, g)
    requires |StillMissing(w, src, g)| <= budget && |StillMissing(other, src, g)| <= enough
    ensures Sync(rank, w, src, budget) == Sync(rank, other, src, enough)
  {
    hide Collect, PlanOf, Held, Within, Admit, Complete, Sync, Needed;
    CollectExact(w, src, g, budget);
    CollectExact(other, src, g, enough);
    var a, b := CollectFor(w, src, budget), CollectFor(other, src, enough);
    SameEnd(Held(w.pending.value.rows), Held(other.pending.value.rows), Needed(PlanFor(w, src, g).requests));
    SameHeld(a.rows, b.rows, g);
    SyncAdvances(rank, w, src, budget);
    SyncAdvances(rank, other, src, enough);
  }

  /** Calls with the given budgets, until one does not pause. */
  function Resume(rank: Rank, w: Wallet, src: Source, budgets: seq<nat>): (r: (Wallet, Outcome))
    requires Arranges(src.visit)
    decreases |budgets|
  {
    if budgets == [] then (w, Paused)
    else
      var (next, outcome) := Sync(rank, w, src, budgets[0]);
      if outcome != Paused then (next, outcome) else Resume(rank, next, src, budgets[1..])
  }

  /**
   Budget resume is exact: however the work is cut into calls of budget at least one, the calls end
   within as many as there are missing rows (one if there are none) and end in exactly the wallet and
   outcome of a single call that can afford everything.
   */
  lemma {:induction false} ResumeExact(rank: Rank, w: Wallet, src: Source, g: Generation, budgets: seq<nat>, whole: nat)
    requires Serves(src, g) && Open(w, src, g)
    requires forall i :: 0 <= i < |budgets| ==> budgets[i] >= 1
    requires |budgets| >= 1 && |budgets| >= |StillMissing(w, src, g)| && whole >= |StillMissing(w, src, g)|
    ensures Resume(rank, w, src, budgets) == Sync(rank, w, src, whole)
    ensures Resume(rank, w, src, budgets).1 != Paused
    decreases |budgets|
  {
    hide Sync, PlanOf, Held, Within, Admit, Needed;
    CallExact(rank, w, src, g, whole);
    CallExact(rank, w, src, g, budgets[0]);
    var (next, outcome) := Sync(rank, w, src, budgets[0]);
    if outcome == Paused {
      ResumeExact(rank, next, src, g, budgets[1..], whole);
      FinishSame(rank, w, next, src, g, whole, whole);
    } else {
      FinishSame(rank, w, w, src, g, budgets[0], whole);
    }
  }

  /** A first call only adds an empty journal, and its resumption is the resumption of that journal. */
  lemma FirstCallOpens(rank: Rank, w: Wallet, src: Source, g: Generation, budgets: seq<nat>)
    requires Serves(src, g) && budgets != [] && w.pending.None? && Admit(w, src).Ready?
    ensures var ready := Admit(w, src).wallet;
      && Open(ready, src, g) && ready == w.(pending := Some(Pending(src.id, src.matched.value, NO_ROWS)))
      && Resume(rank, w, src, budgets) == Resume(rank, ready, src, budgets)
  {
    hide Advance;
  }

  // ---- navigation and layout lose nothing ----

  function Above(events: seq<Event>, checkpoint: nat): (r: seq<Event>) {
    Filter(events, (x: Event) => x.height > checkpoint)
  }

  /** What the chain source holds for the wallet: its scripts' events above the checkpoint. */
  function SourceItems(histories: seq<History>, scripts: set<Script>, checkpoint: nat): (r: seq<Item>) {
    if histories == [] then []
    else
      var h := histories[|histories| - 1];
      var head := SourceItems(histories[..|histories| - 1], scripts, checkpoint);
      if h.script in scripts then head + Attributed(h.script, Above(h.events, checkpoint)) else head
  }

  ghost function ItemsOf(histories: seq<History>, indices: seq<nat>, checkpoint: nat): (r: seq<Item>)
    requires forall i :: 0 <= i < |indices| ==> indices[i] < |histories|
  {
    if indices == [] then []
    else
      var h := histories[indices[|indices| - 1]];
      ItemsOf(histories, indices[..|indices| - 1], checkpoint) + Attributed(h.script, Above(h.events, checkpoint))
  }

  /** The filters report only wallet scripts, and every one with an event above the checkpoint. */
  ghost predicate NoFalseNegatives(histories: seq<History>, scripts: set<Script>, targets: set<Script>, checkpoint: nat) {
    && targets <= scripts
    && forall k :: 0 <= k < |histories| && histories[k].script in scripts && histories[k].script !in targets ==>
         Above(histories[k].events, checkpoint) == []
  }

  lemma {:induction false} CountAttributed(script: Script, events: seq<Event>, x: Item)
    ensures multiset(Attributed(script, events))[x] == if x.script == script then multiset(events)[x.event] else 0
  {
    if events != [] {
      var n := |events| - 1;
      CountAttributed(script, events[..n], x);
      assert events == events[..n] + [events[n]];
      assert Attributed(script, events) == Attributed(script, events[..n]) + [Item(script, events[n])];
    }
  }

  ghost predicate DistinctScripts(histories: seq<History>) {
    forall i, j :: 0 <= i < j < |histories| ==> histories[i].script != histories[j].script
  }

  /** How often an item of history `k` occurs among the listed histories' items. */
  lemma {:induction false} CountListed(histories: seq<History>, indices: seq<nat>, checkpoint: nat, k: nat, x: Item)
    requires DistinctScripts(histories) && Distinct(indices) && k < |histories| && histories[k].script == x.script
    requires forall i :: 0 <= i < |indices| ==> indices[i] < |histories|
    ensures multiset(ItemsOf(histories, indices, checkpoint))[x]
      == if k in indices then multiset(Above(histories[k].events, checkpoint))[x.event] else 0
  {
    hide Above, Attributed;
    if indices != [] {
      var n := |indices| - 1;
      CountListed(histories, indices[..n], checkpoint, k, x);
      assert indices == indices[..n] + [indices[n]];
      var h := histories[indices[n]];
      CountAttributed(h.script, Above(h.events, checkpoint), x);
    }
  }

  lemma {:induction false} CountUnlisted(histories: seq<History>, indices: seq<nat>, checkpoint: nat, x: Item)
    requires forall i :: 0 <= i < |indices| ==> indices[i] < |histories|
    requires forall k :: 0 <= k < |histories| ==> histories[k].script != x.script
    ensures multiset(ItemsOf(histories, indices, checkpoint))[x] == 0
  {
    hide Above, Attributed;
    if indices != [] {
      var n := |indices| - 1;
      CountUnlisted(histories, indices[..n], checkpoint, x);
      var h := histories[indices[n]];
      CountAttributed(h.script, Above(h.events, checkpoint), x);
    }
  }

  lemma {:induction false} CountSource(histories: seq<History>, scripts: set<Script>, checkpoint: nat, k: nat, x: Item)
    requires DistinctScripts(histories) && k < |histories| && histories[k].script == x.script
    ensures multiset(SourceItems(histories, scripts, checkpoint))[x]
      == if x.script in scripts then multiset(Above(histories[k].events, checkpoint))[x.event] else 0
  {
    hide Above, Attributed;
    var n := |histories| - 1;
    var h := histories[n];
    CountAttributed(h.script, Above(h.events, checkpoint), x);
    if k < n {
      CountSource(histories[..n], scripts, checkpoint, k, x);
    } else {
      CountNoSource(histories[..n], scripts, checkpoint, x);
    }
  }

  lemma {:induction false} CountNoSource(histories: seq<History>, scripts: set<Script>, checkpoint: nat, x: Item)
    requires forall k :: 0 <= k < |histories| ==> histories[k].script != x.script
    ensures multiset(SourceItems(histories, scripts, checkpoint))[x] == 0
  {
    hide Above, Attributed;
    if histories != [] {
      var n := |histories| - 1;
      CountNoSource(histories[..n], scripts, checkpoint, x);
      CountAttributed(histories[n].script, Above(histories[n].events, checkpoint), x);
    }
  }

  /** Listing exactly the targets' histories, in any order, lists exactly the wallet's source events. */
  lemma ListedIsSource(histories: seq<History>, indices: seq<nat>, scripts: set<Script>, targets: set<Script>, checkpoint: nat)
    requires DistinctScripts(histories) && Distinct(indices) && NoFalseNegatives(histories, scripts, targets, checkpoint)
    requires forall i :: 0 <= i < |indices| ==> indices[i] < |histories| && histories[indices[i]].script in targets
    requires forall k: nat :: k < |histories| && histories[k].script in targets ==> k in indices
    ensures multiset(ItemsOf(histories, indices, checkpoint)) == multiset(SourceItems(histories, scripts, checkpoint))
  {
    hide Above;
    var a, b := multiset(ItemsOf(histories, indices, checkpoint)), multiset(SourceItems(histories, scripts, checkpoint));
    forall x: Item
      ensures a[x] == b[x]
    {
      if k: nat :| k < |histories| && histories[k].script == x.script {
        CountListed(histories, indices, checkpoint, k, x);
        CountSource(histories, scripts, checkpoint, k, x);
      } else {
        CountUnlisted(histories, indices, checkpoint, x);
        CountNoSource(histories, scripts, checkpoint, x);
      }
    }
    assert a == b;
  }

  /** Navigation over built records never fails, and skips only pages at or below the checkpoint. */
  lemma {:induction false} NavigateBuilt(histories: seq<History>, g: Generation, indices: seq<nat>, checkpoint: nat, on: bool,
                                         records: seq<Entry>)
    requires Built(histories, g) && g.m.capacity > 0 && g.m.pageRows == |g.pages|
    requires forall i :: 0 <= i < |indices| ==> indices[i] < |histories|
    requires records == RowEntries(histories, g.m.capacity, indices) && RecordsOk(g.m, records)
    ensures var starts := Navigate(g, records, checkpoint, on).starts;
      && starts.Some?
      && forall i :: 0 <= i < |indices| ==> SkipsOld(histories[indices[i]], g.m.capacity, starts.value[i], checkpoint)
    decreases |indices|
  {
    hide Built, EntryOf, Search, RecordOk, SkipsOld, AllRows;
    if indices != [] {
      var n := |indices| - 1;
      var k := indices[n];
      var head := RowEntries(histories, g.m.capacity, indices[..n]);
      assert records[..n] == head;
      NavigateBuilt(histories, g, indices[..n], checkpoint, on, head);
      AllPagesHeld(g, records[n]);
      StartSkipsOld(histories, g, k, checkpoint);
      var starts := Navigate(g, records, checkpoint, on).starts.value;
      var earlier := Navigate(g, head, checkpoint, on).starts.value;
      assert starts[..n] == earlier;
      forall i | 0 <= i < |indices|
        ensures SkipsOld(histories[indices[i]], g.m.capacity, starts[i], checkpoint)
      {
        if i < n {
          assert indices[..n][i] == indices[i] && starts[i] == earlier[i];
        }
      }
    }
  }

  ghost predicate SkipsOld(h: History, capacity: nat, start: nat, checkpoint: nat)
    requires capacity > 0
  {
    && start <= PageCount(|Older(h.events)|, capacity)
    && forall i :: 0 <= i < start ==> High(h, capacity, i) <= checkpoint
  }

  lemma StartSkipsOld(histories: seq<History>, g: Generation, k: nat, checkpoint: nat)
    requires Built(histories, g) && g.m.capacity > 0 && k < |histories|
    requires RecordOk(g.m, EntryOf(histories, g.m.capacity, k)) && HasPages(AllRows(g), EntryOf(histories, g.m.capacity, k), 0)
    ensures SkipsOld(histories[k], g.m.capacity, 0, checkpoint)
    ensures var e := EntryOf(histories, g.m.capacity, k);
      var found := Search(g.m, AllRows(g), e, checkpoint, 0, e.pages).start;
      found.Some? && SkipsOld(histories[k], g.m.capacity, found.value, checkpoint)
  {
    hide Built, Search, High, AllRows;
    var e := EntryOf(histories, g.m.capacity, k);
    AllRowsWithin(g);
    SearchExact(histories, g, AllRows(g), k, checkpoint, 0, e.pages);
  }

  lemma {:induction false} FinishBuilt(histories: seq<History>, g: Generation, rows: Rows, indices: seq<nat>, checkpoint: nat,
                                       records: seq<Entry>, starts: seq<nat>)
    requires Built(histories, g) && Within(rows, g) && g.m.capacity > 0
    requires forall i :: 0 <= i < |indices| ==> indices[i] < |histories|
    requires records == RowEntries(histories, g.m.capacity, indices) && RecordsOk(g.m, records) && Supplied(rows, records, starts)
    requires forall i :: 0 <= i < |indices| ==> SkipsOld(histories[indices[i]], g.m.capacity, starts[i], checkpoint)
    ensures FinishAll(g.m, rows, records, starts, checkpoint) == Some(ItemsOf(histories, indices, checkpoint))
    decreases |indices|
  {
    hide Built, EntryOf, FinishRecord, RecordOk, Within, HasPages;
    if indices != [] {
      var n := |indices| - 1;
      var k := indices[n];
      assert records[..n] == RowEntries(histories, g.m.capacity, indices[..n]);
      FinishBuilt(histories, g, rows, indices[..n], checkpoint, records[..n], starts[..n]);
      EntryScript(histories, g.m.capacity);
      FinishExact(histories, g, rows, k, starts[n], checkpoint);
    }
  }

  lemma BuiltFacts(histories: seq<History>, g: Generation)
    requires Built(histories, g)
    ensures DistinctScripts(histories) && g.m.capacity > 0 && Bucketed(g) && g.m.pageRows == |g.pages|
  {
  }

  /**
   Layout and navigation lose nothing: for every generation built from duplicate-free histories, with
   or without navigation, what a finished call holds yields exactly the wallet scripts' source events
   above its checkpoint, and no check rejects it.
   */
  lemma RecoversExactly(histories: seq<History>, g: Generation, visit: set<nat> -> seq<nat>, scripts: set<Script>,
                        targets: set<Script>, checkpoint: nat, navigation: bool, rows: Rows)
    requires Built(histories, g) && Arranges(visit) && Within(rows, g) && Bucketed(g) && g.m.pageRows == |g.pages|
    requires NoFalseNegatives(histories, scripts, targets, checkpoint)
    ensures var plan := PlanOf(g, visit, targets, checkpoint, navigation);
      && plan.starts.Some?
      && (Supplied(rows, plan.records, plan.starts.value) ==>
            var recovered := FinishAll(g.m, rows, plan.records, plan.starts.value, checkpoint);
            recovered.Some? && multiset(recovered.value) == multiset(SourceItems(histories, scripts, checkpoint)))
  {
    hide Built, Records, Navigate, FinishAll, NoFalseNegatives, RowEntries, NeededPages, Ascending, Tagged, Supplied, Within, AllRows;
    BuiltFacts(histories, g);
    var needed := TargetRows(g.m, targets);
    var order := visit(needed);
    VisitedInTable(g, targets, order);
    AllRowsWithin(g);
    var indices := TargetIndices(histories, g.m.bucket, targets, order);
    var records := RowEntries(histories, g.m.capacity, indices);
    RecordsBuilt(histories, g, AllRows(g), targets, order);
    TargetsFound(histories, g.m.bucket, targets, order);
    assert RecordsOk(g.m, records) by {
      assert forall i :: 0 <= i < |records| ==> records[i] in records;
    }
    var on := navigation && checkpoint >= g.m.start;
    NavigateBuilt(histories, g, indices, checkpoint, on, records);
    var starts := Navigate(g, records, checkpoint, on).starts.value;
    if Supplied(rows, records, starts) {
      FinishBuilt(histories, g, rows, indices, checkpoint, records, starts);
      assert forall k: nat :: k < |histories| && histories[k].script in targets ==> g.m.bucket(histories[k].script) in needed;
      ListedIsSource(histories, indices, scripts, targets, checkpoint);
    }
  }

  /** The wallet took in exactly the source's events, or kept everything but its journal. */
  ghost predicate CommitsSource(rank: Rank, histories: seq<History>, w: Wallet, src: Source, next: Wallet, outcome: Outcome)
    requires w.pending.Some?
  {
    var source := SourceItems(histories, w.scripts, w.height);
    var utxos := ApplyEvents(rank, w.baseUtxos, w.events + source);
    && (outcome == Committed <==> utxos.Some? && Spanned(src.accepted, src.m))
    && (outcome == Committed ==>
          && next.height == src.m.end && next.hash == src.m.anchor && next.pending.None?
          && multiset(next.events) == multiset(w.events) + multiset(source)
          && utxos.Some? && next.utxos == utxos.value)
    && (outcome != Committed ==> outcome == Failed && next == w.(pending := next.pending))
  }

  /** A finished call on a built generation: same checkpoint, event multiset and coins with and without navigation. */
  lemma SyncCommitsSource(rank: Rank, histories: seq<History>, w: Wallet, src: Source, g: Generation, budget: nat)
    requires Ledger.Injective(rank) && Serves(src, g) && Open(w, src, g) && Built(histories, g)
    requires NoFalseNegatives(histories, w.scripts, w.pending.value.targets, w.height)
    requires |StillMissing(w, src, g)| <= budget
    ensures CommitsSource(rank, histories, w, src, Sync(rank, w, src, budget).0, Sync(rank, w, src, budget).1)
  {
    hide Sync, PlanOf, Built, NoFalseNegatives, FinishAll, SourceItems, Admit, ApplyEvents, Collect, Held, Within, Supplied, Spanned,
      Honest, Bucketed, Arranges;
    SyncAdvances(rank, w, src, budget);
    CollectExact(w, src, g, budget);
    var c, plan := CollectFor(w, src, budget), PlanFor(w, src, g);
    RecoversExactly(histories, g, src.visit, w.scripts, w.pending.value.targets, w.height, src.navigation, c.rows);
    var recovered := FinishAll(src.m, c.rows, c.records, c.starts, w.height).value;
    OrderIrrelevant(rank, w.baseUtxos, w.events + recovered, w.events + SourceItems(histories, w.scripts, w.height));
  }

  /**
   Progress: a wallet on the accepted chain, anywhere from the block before the generation to the one before its
   end, with no journal or this generation's own, commits at the generation's end, given readable filters that
   miss nothing, honest rows, enough budget, and events that make a ledger.
   */
  lemma NextGenerationCommits(rank: Rank, histories: seq<History>, w: Wallet, src: Source, g: Generation, budget: nat)
    requires Ledger.Injective(rank) && Serves(src, g) && Built(histories, g)
    requires src.bound && KnownGeometry(src.m) && OnAcceptedChain(w, src)
    requires src.m.start - 1 <= w.height < src.m.end && forall h: nat | src.m.start <= h <= src.m.end :: h in src.accepted
    requires if w.pending.None? then src.matched.Some? else w.pending.value.generation == src.id && Within(w.pending.value.rows, g)
    requires NoFalseNegatives(histories, w.scripts, Opened(w, src).pending.value.targets, w.height)
    requires ApplyEvents(rank, w.baseUtxos, w.events + SourceItems(histories, w.scripts, w.height)).Some?
    requires |StillMissing(Opened(w, src), src, g)| <= budget
    ensures var (next, outcome) := Sync(rank, w, src, budget);
      outcome == Committed && next.height == src.m.end && next.hash == src.m.anchor && next.pending.None?
  {
    hide Advance, Built, NoFalseNegatives, SourceItems, ApplyEvents, Honest, Bucketed, Arranges, PlanOf, KnownGeometry, Admit, Within;
    GateExactly(w, src);
    var ready := Opened(w, src);
    assert Within(ready.pending.value.rows, g) by { NothingWithin(g); }
    ReadyStays(w, src);
    SyncCommitsSource(rank, histories, ready, src, g, budget);
    SameCall(rank, w, src, budget);
  }

  lemma NothingWithin(g: Generation)
    ensures Within(NO_ROWS, g)
  {
  }

  lemma ReadyStays(w: Wallet, src: Source)
    requires Admit(w, src).Ready?
    ensures Admit(Admit(w, src).wallet, src) == Ready(Admit(w, src).wallet)
  {
  }

  lemma SameCall(rank: Rank, w: Wallet, src: Source, budget: nat)
    requires Admit(w, src).Ready? && Arranges(src.visit)
    ensures Sync(rank, w, src, budget) == Sync(rank, Admit(w, src).wallet, src, budget)
  {
    hide Advance;
    ReadyStays(w, src);
  }

  /** Navigation is used exactly from the generation's first block on; then it starts at the first page with something new. */
  lemma {:induction false} NavigateStarts(histories: seq<History>, g: Generation, indices: seq<nat>, checkpoint: nat, on: bool,
                                          records: seq<Entry>, i: nat)
    requires Built(histories, g) && g.m.capacity > 0 && g.m.pageRows == |g.pages|
    requires forall j :: 0 <= j < |indices| ==> indices[j] < |histories|
    requires records == RowEntries(histories, g.m.capacity, indices) && RecordsOk(g.m, records) && i < |indices|
    ensures var starts := Navigate(g, records, checkpoint, on).starts;
      starts.Some? && if on then FirstNew(histories[indices[i]], g.m.capacity, starts.value[i], checkpoint) else starts.value[i] == 0
    decreases |indices|
  {
    hide Built, EntryOf, Search, RecordOk, FirstNew, AllRows;
    var n := |indices| - 1;
    var head := RowEntries(histories, g.m.capacity, indices[..n]);
    assert records[..n] == head;
    NavigateBuilt(histories, g, indices, checkpoint, on, records);
    NavigateBuilt(histories, g, indices[..n], checkpoint, on, head);
    if i < n {
      NavigateStarts(histories, g, indices[..n], checkpoint, on, head, i);
    } else {
      AllPagesHeld(g, records[n]);
      StartsAtNew(histories, g, indices[n], checkpoint);
    }
  }

  /** All pages before the start are old, and the one at it, and so every later one, ends above the checkpoint. */
  ghost predicate FirstNew(h: History, capacity: nat, start: nat, checkpoint: nat)
    requires capacity > 0
  {
    && start <= PageCount(|Older(h.events)|, capacity)
    && (forall i :: 0 <= i < start ==> High(h, capacity, i) <= checkpoint)
    && (forall i :: start <= i < PageCount(|Older(h.events)|, capacity) ==> High(h, capacity, i) > checkpoint)
  }

  lemma StartsAtNew(histories: seq<History>, g: Generation, k: nat, checkpoint: nat)
    requires Built(histories, g) && g.m.capacity > 0 && k < |histories|
    requires RecordOk(g.m, EntryOf(histories, g.m.capacity, k)) && HasPages(AllRows(g), EntryOf(histories, g.m.capacity, k), 0)
    ensures var e := EntryOf(histories, g.m.capacity, k);
      var found := Search(g.m, AllRows(g), e, checkpoint, 0, e.pages).start;
      found.Some? && FirstNew(histories[k], g.m.capacity, found.value, checkpoint)
  {
    hide Built, Search, High, AllRows;
    var e := EntryOf(histories, g.m.capacity, k);
    AllRowsWithin(g);
    SearchExact(histories, g, AllRows(g), k, checkpoint, 0, e.pages);
  }

  /** The plan of a call: no page before the generation's first block is skipped, and otherwise exactly the old ones are. */
  lemma PlanStarts(histories: seq<History>, g: Generation, visit: set<nat> -> seq<nat>, targets: set<Script>, checkpoint: nat, navigation: bool)
    returns (indices: seq<nat>)
    requires Built(histories, g) && Arranges(visit) && Bucketed(g) && g.m.pageRows == |g.pages|
    ensures var plan := PlanOf(g, visit, targets, checkpoint, navigation);
      && plan.starts.Some? && |indices| == |plan.starts.value|
      && forall i :: 0 <= i < |indices| ==>
           indices[i] < |histories|
           && if navigation && g.m.start <= checkpoint then FirstNew(histories[indices[i]], g.m.capacity, plan.starts.value[i], checkpoint)
              else plan.starts.value[i] == 0
  {
    hide Built, Records, Navigate, RowEntries, NeededPages, Ascending, Tagged, AllRows, FirstNew;
    BuiltFacts(histories, g);
    var order := visit(TargetRows(g.m, targets));
    VisitedInTable(g, targets, order);
    AllRowsWithin(g);
    indices := TargetIndices(histories, g.m.bucket, targets, order);
    var records := RowEntries(histories, g.m.capacity, indices);
    RecordsBuilt(histories, g, AllRows(g), targets, order);
    TargetsFound(histories, g.m.bucket, targets, order);
    assert RecordsOk(g.m, records) by {
      assert forall i :: 0 <= i < |records| ==> records[i] in records;
    }
    var on := navigation && checkpoint >= g.m.start;
    NavigateBuilt(histories, g, indices, checkpoint, on, records);
    forall i | 0 <= i < |indices|
      ensures var starts := Navigate(g, records, checkpoint, on).starts;
        starts.Some? && i < |starts.value|
        && if on then FirstNew(histories[indices[i]], g.m.capacity, starts.value[i], checkpoint) else starts.value[i] == 0
    {
      NavigateStarts(histories, g, indices, checkpoint, on, records, i);
    }
  }
}
