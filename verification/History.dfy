/** A published history generation: pages of events, and a hashed directory of scripts. */
module History {
  import opened Results
  import opened Chain
  import opened Sorting
  import opened Ledger
  import opened Arithmetic
  import opened BitStream

  const INLINE: nat := 2
  const SLOTS: nat := 13

  datatype History = History(script: Script, events: seq<Event>)

  /** A directory record: history size, first page, page count, and the newest events inline. */
  datatype Entry = Entry(script: Script, total: nat, first: nat, pages: nat, inline: seq<Event>)

  datatype Page = Blank | Page(script: Script, index: nat, count: nat, low: nat, high: nat, events: seq<Event>)

  /** What a generation publishes about itself; `bucket` is the salted hash modulo the directory rows. */
  datatype Manifest = Manifest(
    start: nat,
    end: nat,
    parent: BlockHash,
    anchor: BlockHash,
    pageBytes: nat,
    capacity: nat,
    bucket: Script -> nat,
    directoryRows: nat,
    pageRows: nat)

  datatype Generation = Generation(m: Manifest, directory: seq<seq<Entry>>, pages: seq<Page>)

  /** Rows a wallet holds of a generation, by row number. */
  datatype Rows = Rows(directory: map<nat, seq<Entry>>, pages: map<nat, Page>)

  /** Every row held is the generation's own. */
  ghost predicate Within(held: Rows, g: Generation) {
    && (forall r | r in held.directory :: r < |g.directory| && held.directory[r] == g.directory[r])
    && (forall r | r in held.pages :: r < |g.pages| && held.pages[r] == g.pages[r])
  }

  // ---- layout ----

  function InlineCount(total: nat): (n: nat) {
    if total < INLINE then total else INLINE
  }

  function Older(events: seq<Event>): (s: seq<Event>) {
    events[..|events| - InlineCount(|events|)]
  }

  function Newest(events: seq<Event>): (s: seq<Event>)
    ensures |s| == InlineCount(|events|)
    ensures Older(events) + s == events
  {
    events[|events| - InlineCount(|events|)..]
  }

  function PageCount(older: nat, capacity: nat): (n: nat)
    requires capacity > 0
  {
    (older + capacity - 1) / capacity
  }

  /** Where page `i` starts in the paged part of a history. */
  function Cut(length: nat, capacity: nat, i: nat): (n: nat)
    ensures n <= length
  {
    if i * capacity < length then i * capacity else length
  }

  lemma CutAdvances(length: nat, capacity: nat, i: nat)
    requires capacity > 0
    ensures Cut(length, capacity, i) <= Cut(length, capacity, i + 1) <= Cut(length, capacity, i) + capacity
    ensures Cut(length, capacity, 0) == 0
    ensures i < PageCount(length, capacity)
            ==> i * capacity < length && Cut(length, capacity, i) == i * capacity
                && Cut(length, capacity, i + 1) - Cut(length, capacity, i)
                   == if capacity < length - i * capacity then capacity else length - i * capacity
    ensures i >= PageCount(length, capacity) ==> Cut(length, capacity, i) == length
  {
    MulSuccessor(i, capacity);
    var n := PageCount(length, capacity);
    assert length + capacity - 1 == n * capacity + (length + capacity - 1) % capacity;
    if i < n {
      MulMonotone(i + 1, n, capacity);
    } else {
      MulMonotone(n, i, capacity);
    }
  }

  lemma {:induction false} CutsAscend(length: nat, capacity: nat, i: nat, j: nat)
    requires capacity > 0 && i <= j
    ensures Cut(length, capacity, i) <= Cut(length, capacity, j)
    decreases j
  {
    if i < j {
      CutsAscend(length, capacity, i, j - 1);
      CutAdvances(length, capacity, j - 1);
    }
  }

  function Part(older: seq<Event>, capacity: nat, i: nat): (s: seq<Event>)
    requires capacity > 0
  {
    CutAdvances(|older|, capacity, i);
    older[Cut(|older|, capacity, i)..Cut(|older|, capacity, i + 1)]
  }

  function PageOf(h: History, capacity: nat, i: nat): (p: Page)
    requires capacity > 0 && i < PageCount(|Older(h.events)|, capacity)
    ensures p.Page?
  {
    var part := Part(Older(h.events), capacity, i);
    CutAdvances(|Older(h.events)|, capacity, i);
    Page(h.script, i, PageCount(|Older(h.events)|, capacity), part[0].height, part[|part| - 1].height, part)
  }

  function PagesOf(h: History, capacity: nat): (s: seq<Page>)
    requires capacity > 0
  {
    seq(PageCount(|Older(h.events)|, capacity), i requires 0 <= i < PageCount(|Older(h.events)|, capacity) =>
      PageOf(h, capacity, i))
  }

  /** Pages of all histories, in script order. */
  function AllPages(histories: seq<History>, capacity: nat): (s: seq<Page>)
    requires capacity > 0
  {
    if histories == [] then []
    else AllPages(histories[..|histories| - 1], capacity) + PagesOf(histories[|histories| - 1], capacity)
  }

  function EntryOf(histories: seq<History>, capacity: nat, k: nat): (e: Entry)
    requires capacity > 0 && k < |histories|
  {
    var h := histories[k];
    Entry(h.script, |h.events|, |AllPages(histories[..k], capacity)|, PageCount(|Older(h.events)|, capacity), Newest(h.events))
  }

  /** Histories of one bucket, in script order. */
  function RowIndices(histories: seq<History>, bucket: Script -> nat, row: nat): (s: seq<nat>)
    ensures forall i :: 0 <= i < |s| ==> s[i] < |histories| && bucket(histories[s[i]].script) == row
    ensures forall k | 0 <= k < |histories| && bucket(histories[k].script) == row :: k in s
    ensures forall i, j :: 0 <= i < j < |s| ==> s[i] < s[j]
  {
    if histories == [] then []
    else
      var n := |histories| - 1;
      var head := RowIndices(histories[..n], bucket, row);
      if bucket(histories[n].script) == row then head + [n] else head
  }

  function RowEntries(histories: seq<History>, capacity: nat, indices: seq<nat>): (s: seq<Entry>)
    requires capacity > 0 && forall i :: 0 <= i < |indices| ==> indices[i] < |histories|
    ensures |s| == |indices|
    ensures forall i :: 0 <= i < |s| ==> s[i] == EntryOf(histories, capacity, indices[i])
  {
    seq(|indices|, i requires 0 <= i < |indices| =>
      EntryOf(histories, capacity, indices[i]))
  }

  predicate AscendingHeights(events: seq<Event>) {
    forall i, j :: 0 <= i < j < |events| ==> events[i].height <= events[j].height
  }

  /** Scripts are distinct; each history is nonempty, in height order, without repeats, and inside the range. */
  ghost predicate ValidHistories(histories: seq<History>, start: nat, end: nat) {
    && (forall i, j :: 0 <= i < j < |histories| ==> histories[i].script != histories[j].script)
    && (forall k :: 0 <= k < |histories| ==>
          && histories[k].events != []
          && AscendingHeights(histories[k].events) && Distinct(histories[k].events)
          && forall e | e in histories[k].events :: start <= e.height <= end)
  }

  /** The generation is the layout of `histories`. */
  ghost predicate Built(histories: seq<History>, g: Generation) {
    && g.m.capacity > 0 && g.m.directoryRows == |g.directory| && g.m.pageRows == |g.pages|
    && ValidHistories(histories, g.m.start, g.m.end)
    && AllPages(histories, g.m.capacity) <= g.pages
    && (forall s: Script :: g.m.bucket(s) < |g.directory|)
    && (forall r :: 0 <= r < |g.directory| ==>
          && |g.directory[r]| <= SLOTS
          && g.directory[r] == RowEntries(histories, g.m.capacity, RowIndices(histories, g.m.bucket, r)))
  }

  // ---- geometry ----

  const PAGE_BYTES: seq<nat> := [3584, 7168, 10752, 17920]
  const PAGE_HEADER_BYTES: nat := 48
  const EVENT_BYTES: nat := 96
  const MAX_ROWS: nat := 131072
  const MAX_BLOCKS: nat := 10000

  function CapacityOf(pageBytes: nat): (n: nat)
    ensures pageBytes in PAGE_BYTES ==> n > 0
  {
    if pageBytes < PAGE_HEADER_BYTES then 0 else (pageBytes - PAGE_HEADER_BYTES) / EVENT_BYTES
  }

  predicate TableSize(rows: nat) {
    2048 <= rows <= MAX_ROWS && rows % 2048 == 0
  }

  /** The geometry and bounds a wallet accepts. */
  predicate Supported(m: Manifest) {
    && m.pageBytes in PAGE_BYTES && m.capacity == CapacityOf(m.pageBytes)
    && TableSize(m.directoryRows) && TableSize(m.pageRows)
    && 1 <= m.end - m.start + 1 <= MAX_BLOCKS
  }

  // ---- building ----

  const TABLE_SIZES: seq<nat> := [2048, 4096, 8192, 16384, 32768, 65536, 131072]

  type Bucketing = (Script, nat, nat) -> nat

  ghost predicate Bounded(hash: Bucketing) {
    forall s, salt, rows :: rows > 0 ==> hash(s, salt, rows) < rows
  }

  function BucketWith(hash: Bucketing, salt: nat, rows: nat): (f: Script -> nat) {
    (s: Script) => hash(s, salt, rows)
  }

  ghost predicate SaltFits(histories: seq<History>, bucket: Script -> nat, rows: nat) {
    forall r :: 0 <= r < rows ==> |RowIndices(histories, bucket, r)| <= SLOTS
  }

  /** Groups scripts by bucket; reports whether some bucket overflows its slots. */
  method GroupByBucket(histories: seq<History>, bucket: Script -> nat, rows: nat) returns (ok: bool, groups: array<seq<nat>>)
    requires forall s: Script :: bucket(s) < rows
    ensures fresh(groups) && groups.Length == rows
    ensures forall r :: 0 <= r < rows ==> groups[r] == RowIndices(histories, bucket, r)
    ensures ok <==> SaltFits(histories, bucket, rows)
  {
    groups := new seq<nat>[rows](_ => []);
    for k := 0 to |histories|
      invariant forall r :: 0 <= r < rows ==> groups[r] == RowIndices(histories[..k], bucket, r)
    {
      assert histories[..k + 1][..k] == histories[..k];
      var row := bucket(histories[k].script);
      groups[row] := groups[row] + [k];
    }
    assert histories[..|histories|] == histories;
    ok := true;
    for r := 0 to rows
      invariant ok <==> forall q :: 0 <= q < r ==> |RowIndices(histories, bucket, q)| <= SLOTS
    {
      if |groups[r]| > SLOTS {
        ok := false;
      }
    }
  }

  /** Tries sixteen salts at each table size, doubling up to the prototype limit. */
  method FindBuckets(histories: seq<History>, hash: Bucketing) returns (r: Option<(nat, nat)>)
    requires Bounded(hash)
    ensures r.Some? ==> r.value.0 in TABLE_SIZES && TableSize(r.value.0) && r.value.1 < 16
    ensures r.Some? ==> SaltFits(histories, BucketWith(hash, r.value.1, r.value.0), r.value.0)
    ensures r.Some? ==> FirstToFit(histories, hash, r.value.0, r.value.1)
    ensures r.None? ==> forall i, salt | 0 <= i < |TABLE_SIZES| && 0 <= salt < 16 ::
      !SaltFits(histories, BucketWith(hash, salt, TABLE_SIZES[i]), TABLE_SIZES[i])
  {
    hide SaltFits;
    var rows := 2048;
    for step := 0 to |TABLE_SIZES|
      invariant step < |TABLE_SIZES| ==> rows == TABLE_SIZES[step]
      invariant forall i, salt | 0 <= i < step && 0 <= salt < 16 ::
        !SaltFits(histories, BucketWith(hash, salt, TABLE_SIZES[i]), TABLE_SIZES[i])
    {
      for salt := 0 to 16
        invariant forall s | 0 <= s < salt :: !SaltFits(histories, BucketWith(hash, s, rows), rows)
      {
        var ok, _ := GroupByBucket(histories, BucketWith(hash, salt, rows), rows);
        if ok {
          FitsFirst(histories, hash, step, salt);
          return Some((rows, salt));
        }
      }
      rows := rows * 2;
    }
    return None;
  }

  /** The scripts that a salt puts into one of `rows` rows. */
  ghost function InRow(histories: seq<History>, hash: Bucketing, salt: nat, rows: nat, r: nat): (s: set<nat>) {
    set k: nat | k < |histories| && hash(histories[k].script, salt, rows) == r
  }

  /** No row has more than thirteen scripts. */
  ghost predicate NoRowOverflows(histories: seq<History>, hash: Bucketing, salt: nat, rows: nat) {
    forall r: nat :: |InRow(histories, hash, salt, rows, r)| <= 13
  }

  /** The smallest of the seven table sizes at which some salt fits, and the first such salt. */
  ghost predicate FirstToFit(histories: seq<History>, hash: Bucketing, rows: nat, salt: nat) {
    && rows in {2048, 4096, 8192, 16384, 32768, 65536, 131072} && salt < 16
    && NoRowOverflows(histories, hash, salt, rows)
    && (forall s: nat | s < salt :: !NoRowOverflows(histories, hash, s, rows))
    && (forall n, s: nat | n in {2048, 4096, 8192, 16384, 32768, 65536, 131072} && n < rows && s < 16 ::
          !NoRowOverflows(histories, hash, s, n))
  }

  lemma FitsIsNoOverflow(histories: seq<History>, hash: Bucketing, rows: nat, salt: nat)
    requires Bounded(hash) && rows > 0
    ensures SaltFits(histories, BucketWith(hash, salt, rows), rows) <==> NoRowOverflows(histories, hash, salt, rows)
  {
    hide InRow, RowIndices, BucketWith;
    forall r: nat
      ensures |RowIndices(histories, BucketWith(hash, salt, rows), r)| == |InRow(histories, hash, salt, rows, r)|
      ensures r >= rows ==> InRow(histories, hash, salt, rows, r) == {}
    {
      RowSize(histories, hash, salt, rows, r);
    }
  }

  lemma RowSize(histories: seq<History>, hash: Bucketing, salt: nat, rows: nat, r: nat)
    requires Bounded(hash) && rows > 0
    ensures |RowIndices(histories, BucketWith(hash, salt, rows), r)| == |InRow(histories, hash, salt, rows, r)|
    ensures r >= rows ==> InRow(histories, hash, salt, rows, r) == {}
  {
    DistinctCount(RowIndices(histories, BucketWith(hash, salt, rows), r), InRow(histories, hash, salt, rows, r));
  }

  lemma FitsFirst(histories: seq<History>, hash: Bucketing, step: nat, salt: nat)
    requires Bounded(hash) && step < |TABLE_SIZES| && salt < 16
    requires SaltFits(histories, BucketWith(hash, salt, TABLE_SIZES[step]), TABLE_SIZES[step])
    requires forall s | 0 <= s < salt :: !SaltFits(histories, BucketWith(hash, s, TABLE_SIZES[step]), TABLE_SIZES[step])
    requires forall i, s | 0 <= i < step && 0 <= s < 16 :: !SaltFits(histories, BucketWith(hash, s, TABLE_SIZES[i]), TABLE_SIZES[i])
    ensures FirstToFit(histories, hash, TABLE_SIZES[step], salt)
  {
    hide SaltFits, NoRowOverflows, BucketWith;
    forall n, s: nat | n in {2048, 4096, 8192, 16384, 32768, 65536, 131072}
      ensures SaltFits(histories, BucketWith(hash, s, n), n) <==> NoRowOverflows(histories, hash, s, n)
      ensures n < TABLE_SIZES[step] ==> exists i :: 0 <= i < step && TABLE_SIZES[i] == n
    {
      FitsIsNoOverflow(histories, hash, n, s);
      if n < TABLE_SIZES[step] {
        SmallerSize(n, step);
      }
    }
  }

  lemma SmallerSize(n: nat, step: nat)
    requires step < |TABLE_SIZES| && n in {2048, 4096, 8192, 16384, 32768, 65536, 131072} && n < TABLE_SIZES[step]
    ensures exists i :: 0 <= i < step && TABLE_SIZES[i] == n
  {
    var at := if n == 2048 then 0 else if n == 4096 then 1 else if n == 8192 then 2 else if n == 16384 then 3
              else if n == 32768 then 4 else 5;
    assert TABLE_SIZES[at] == n;
  }

  /** An entry carries its history's size, the two newest events, and where its pages lie. */
  lemma EntryExactly(histories: seq<History>, capacity: nat, k: nat)
    requires capacity > 0 && k < |histories|
    ensures var e, events := EntryOf(histories, capacity, k), histories[k].events;
      && e.script == histories[k].script && e.total == |events| && e.first == |AllPages(histories[..k], capacity)|
      && e.inline == (if |events| >= 2 then events[|events| - 2..] else events)
  {
    hide AllPages;
  }

  /**
   Lays out pages and directory; fails only for an unknown page width or when no table size and salt fit.
   Wallets accept the result exactly when its blocks and pages stay within their bounds.
   */
  method BuildGeneration(histories: seq<History>, hash: Bucketing, start: nat, end: nat, parent: BlockHash, anchor: BlockHash,
                         pageBytes: nat) returns (r: Option<Generation>)
    requires Bounded(hash) && ValidHistories(histories, start, end)
    ensures r.Some? ==> Built(histories, r.value)
    ensures r.Some? ==> r.value.m.start == start && r.value.m.end == end && r.value.m.capacity == CapacityOf(pageBytes) > 0
    ensures r.Some? ==> r.value.m.anchor == anchor && r.value.m.parent == parent
    ensures r.Some? ==> exists salt ::
      (FirstToFit(histories, hash, r.value.m.directoryRows, salt)
       && forall s :: r.value.m.bucket(s) == hash(s, salt, r.value.m.directoryRows))
    ensures r.Some? ==> (Supported(r.value.m)
      <==> 1 <= end - start + 1 <= MAX_BLOCKS && |AllPages(histories, CapacityOf(pageBytes))| <= MAX_ROWS)
    ensures r.None? ==> pageBytes !in PAGE_BYTES || forall i, salt | 0 <= i < |TABLE_SIZES| && 0 <= salt < 16 ::
      !SaltFits(histories, BucketWith(hash, salt, TABLE_SIZES[i]), TABLE_SIZES[i])
  {
    hide SaltFits, AllPages, RowEntries, ValidHistories, RowIndices;
    if pageBytes !in PAGE_BYTES {
      return None;
    }
    var found := FindBuckets(histories, hash);
    if found.None? {
      return None;
    }
    var (rows, salt) := found.value;
    var bucket, capacity := BucketWith(hash, salt, rows), CapacityOf(pageBytes);
    var pages := LayPages(histories, capacity);
    var directory := LayDirectory(histories, capacity, bucket, rows);
    FitsSlots(histories, bucket, rows);
    var padded := PadPages(pages);
    return Some(Generation(Manifest(start, end, parent, anchor, pageBytes, capacity, bucket, rows, |padded|), directory, padded));
  }

  method LayPages(histories: seq<History>, capacity: nat) returns (pages: seq<Page>)
    requires capacity > 0
    ensures pages == AllPages(histories, capacity)
  {
    hide PagesOf;
    pages := [];
    for k := 0 to |histories|
      invariant pages == AllPages(histories[..k], capacity)
    {
      assert histories[..k + 1][..k] == histories[..k];
      pages := pages + PagesOf(histories[k], capacity);
    }
    assert histories[..|histories|] == histories;
  }

  method LayDirectory(histories: seq<History>, capacity: nat, bucket: Script -> nat, rows: nat) returns (directory: seq<seq<Entry>>)
    requires capacity > 0 && forall s: Script :: bucket(s) < rows
    ensures |directory| == rows
    ensures forall r :: 0 <= r < rows ==>
      directory[r] == RowEntries(histories, capacity, RowIndices(histories, bucket, r))
  {
    hide EntryOf;
    var ok, groups := GroupByBucket(histories, bucket, rows);
    directory := [];
    for r := 0 to rows
      invariant |directory| == r
      invariant forall q :: 0 <= q < r ==>
        directory[q] == RowEntries(histories, capacity, RowIndices(histories, bucket, q))
    {
      directory := directory + [RowEntries(histories, capacity, groups[r])];
    }
  }

  lemma FitsSlots(histories: seq<History>, bucket: Script -> nat, rows: nat)
    requires SaltFits(histories, bucket, rows)
    ensures forall r :: 0 <= r < rows ==> |RowIndices(histories, bucket, r)| <= SLOTS
  {
  }

  /** Page tables are padded to a multiple of 2048 rows, at least one such block. */
  function PadPages(pages: seq<Page>): (s: seq<Page>)
    ensures pages <= s && |s| % 2048 == 0 && |s| >= 2048
    ensures |s| <= MAX_ROWS <==> |pages| <= MAX_ROWS
  {
    var blocks := (|pages| + 2047) / 2048;
    var rows := if blocks == 0 then 2048 else blocks * 2048;
    pages + seq(rows - |pages|, _ => Blank)
  }

  // ---- reading ----

  /** A record a wallet accepts: its counts and page range are what its size demands. */
  predicate RecordOk(m: Manifest, e: Entry) {
    && m.capacity > 0
    && |e.inline| == InlineCount(e.total)
    && e.pages == PageCount(e.total - |e.inline|, m.capacity)
    && e.first + e.pages <= m.pageRows
  }

  /** The target records of one row, in slot order; none if a target repeats or is malformed. */
  function RowRecords(m: Manifest, row: seq<Entry>, targets: set<Script>): (r: Option<seq<Entry>>)
    ensures r.Some? ==> forall e | e in r.value :: RecordOk(m, e)
  {
    if row == [] then Some([])
    else
      var last := row[|row| - 1];
      var head :- RowRecords(m, row[..|row| - 1], targets);
      if last.script !in targets then Some(head)
      else if (exists e :: e in head && e.script == last.script) || !RecordOk(m, last) then None
      else Some(head + [last])
  }

  /** Records of all rows in the order the rows are visited; each must be held. */
  function Records(m: Manifest, held: Rows, order: seq<nat>, targets: set<Script>): (r: Option<seq<Entry>>)
    requires forall i :: 0 <= i < |order| ==> order[i] in held.directory
    ensures r.Some? ==> forall e | e in r.value :: RecordOk(m, e)
  {
    if order == [] then Some([])
    else
      var row := order[|order| - 1];
      var head :- Records(m, held, order[..|order| - 1], targets);
      if |held.directory[row]| > SLOTS then None
      else
        var found :- RowRecords(m, held.directory[row], targets);
        if (exists e :: e in found && m.bucket(e.script) != row)
           || (exists a, b :: a in head && b in found && a.script == b.script) then None
        else Some(head + found)
  }

  /** Identity, position, size and height bounds of one page. */
  predicate PageOk(m: Manifest, e: Entry, i: nat, page: Page) {
    && page.Page?
    && page.script == e.script && page.index == i && page.count == e.pages
    && |page.events| > 0
    && e.total >= |e.inline|
    && (|page.events| == if m.capacity < e.total - |e.inline| - i * m.capacity then m.capacity
                         else e.total - |e.inline| - i * m.capacity)
    && AscendingHeights(page.events)
    && page.low == page.events[0].height && page.high == page.events[|page.events| - 1].height
    && m.start <= page.low && page.high <= m.end
  }

  predicate HasPage(held: Rows, e: Entry, i: nat) {
    e.first + i in held.pages
  }

  predicate HasPages(held: Rows, e: Entry, from: nat) {
    forall i: nat | from <= i < e.pages :: HasPage(held, e, i)
  }

  function PageAt(held: Rows, e: Entry, i: nat): (p: Page)
    requires HasPage(held, e, i)
  {
    held.pages[e.first + i]
  }

  /** The pages a binary search reads, and where it ends; `None` when it meets a bad page. */
  datatype SearchResult = SearchResult(probes: seq<nat>, start: Option<nat>)

  function Search(m: Manifest, held: Rows, e: Entry, checkpoint: nat, lo: nat, hi: nat): (r: SearchResult)
    requires HasPages(held, e, 0) && lo <= hi <= e.pages
    ensures forall i :: 0 <= i < |r.probes| ==> r.probes[i] < e.pages
    ensures r.start.Some? ==> lo <= r.start.value <= hi
    decreases hi - lo
  {
    if lo == hi then SearchResult([], Some(lo))
    else
      var mid := (lo + hi) / 2;
      assert HasPage(held, e, mid);
      var page := PageAt(held, e, mid);
      if !PageOk(m, e, mid, page) then SearchResult([mid], None)
      else
        var rest := if page.high <= checkpoint then Search(m, held, e, checkpoint, mid + 1, hi)
                    else Search(m, held, e, checkpoint, lo, mid);
        SearchResult([mid] + rest.probes, rest.start)
  }

  /** Each probe halves the interval: fewer than `2^k` pages take at most `k` probes. */
  lemma {:induction false} SearchHalves(m: Manifest, held: Rows, e: Entry, checkpoint: nat, lo: nat, hi: nat, k: nat)
    requires HasPages(held, e, 0) && lo <= hi <= e.pages && hi - lo < Pow2(k)
    ensures |Search(m, held, e, checkpoint, lo, hi).probes| <= k
    decreases k
  {
    hide PageOk;
    if lo < hi {
      var mid := (lo + hi) / 2;
      SearchHalves(m, held, e, checkpoint, mid + 1, hi, k - 1);
      SearchHalves(m, held, e, checkpoint, lo, mid, k - 1);
    }
  }

  /** Events of the pages from `start` on. */
  function PagesFrom(held: Rows, e: Entry, start: nat): (s: seq<Event>)
    requires HasPages(held, e, start) && start <= e.pages
    decreases e.pages - start
  {
    if start == e.pages then []
    else
      assert HasPage(held, e, start);
      (if PageAt(held, e, start).Page? then PageAt(held, e, start).events else []) + PagesFrom(held, e, start + 1)
  }

  /** Every page held is good and none starts below the end of an earlier one. */
  predicate ObservedOk(m: Manifest, held: Rows, e: Entry) {
    && (forall i: nat | i < e.pages && HasPage(held, e, i) :: PageOk(m, e, i, PageAt(held, e, i)))
    && (forall i: nat, j: nat | i < j < e.pages && HasPage(held, e, i) && HasPage(held, e, j) ::
          PageAt(held, e, i).Page? && PageAt(held, e, j).Page? && PageAt(held, e, i).high <= PageAt(held, e, j).low)
  }

  /** No page held reaches above the first inline event. */
  predicate InlineOk(held: Rows, e: Entry) {
    && AscendingHeights(e.inline)
    && (e.inline != [] ==> forall i: nat | i < e.pages && HasPage(held, e, i) ::
          PageAt(held, e, i).Page? && PageAt(held, e, i).high <= e.inline[0].height)
  }

  /** The record's events above the checkpoint, or `None` when a final check fails. */
  function FinishRecord(m: Manifest, held: Rows, e: Entry, start: nat, checkpoint: nat): (r: Option<seq<Event>>)
    requires RecordOk(m, e) && start <= e.pages && HasPages(held, e, start)
  {
    var history := PagesFrom(held, e, start) + e.inline;
    var paged := e.total - |e.inline|;
    var skipped := if start * m.capacity < paged then start * m.capacity else paged;
    if !ObservedOk(m, held, e) || !InlineOk(held, e)
       || |history| != e.total - skipped || !Distinct(history)
       || (exists x :: x in history && !(m.start <= x.height <= m.end)) then None
    else Some(Filter(history, (x: Event) => x.height > checkpoint))
  }

  // ---- nothing is lost ----

  /** Page `i` of history `k` sits where its directory record says. */
  lemma {:induction false} PageLocated(histories: seq<History>, capacity: nat, k: nat, i: nat)
    requires capacity > 0 && k < |histories| && i < PageCount(|Older(histories[k].events)|, capacity)
    ensures var first := |AllPages(histories[..k], capacity)|;
      && first + PageCount(|Older(histories[k].events)|, capacity) <= |AllPages(histories, capacity)|
      && AllPages(histories, capacity)[first + i] == PageOf(histories[k], capacity, i)
    decreases |histories|
  {
    hide PageOf;
    var n := |histories| - 1;
    if k < n {
      PageLocated(histories[..n], capacity, k, i);
      assert histories[..n][..k] == histories[..k];
    }
  }

  lemma {:induction false} PagesPrefix(histories: seq<History>, capacity: nat, k: nat)
    requires capacity > 0 && k < |histories|
    ensures |AllPages(histories[..k], capacity)| + PageCount(|Older(histories[k].events)|, capacity) <= |AllPages(histories, capacity)|
    decreases |histories|
  {
    hide PageOf;
    var n := |histories| - 1;
    if k < n {
      PagesPrefix(histories[..n], capacity, k);
      assert histories[..n][..k] == histories[..k];
    }
  }

  lemma BuiltRecordOk(histories: seq<History>, g: Generation, k: nat)
    requires Built(histories, g) && k < |histories|
    ensures RecordOk(g.m, EntryOf(histories, g.m.capacity, k))
  {
    hide ValidHistories, AllPages, RowEntries, RowIndices;
    PagesPrefix(histories, g.m.capacity, k);
  }

  lemma PartHeights(events: seq<Event>, capacity: nat, i: nat)
    requires capacity > 0 && AscendingHeights(events) && i < PageCount(|Older(events)|, capacity)
    ensures AscendingHeights(Part(Older(events), capacity, i)) && Part(Older(events), capacity, i) != []
    ensures forall x | x in Part(Older(events), capacity, i) :: x in events
  {
    hide Cut, PageCount;
    var length := |Older(events)|;
    CutAdvances(length, capacity, i);
    SliceAscends(events, Cut(length, capacity, i), Cut(length, capacity, i + 1));
    PartIsSlice(events, capacity, i);
    PartSize(events, capacity, i);
  }

  lemma SliceAscends(events: seq<Event>, from: nat, to: nat)
    requires from <= to <= |events| && AscendingHeights(events)
    ensures AscendingHeights(events[from..to]) && forall x | x in events[from..to] :: x in events
  {
  }

  lemma PartIsSlice(events: seq<Event>, capacity: nat, i: nat)
    requires capacity > 0
    ensures var length := |Older(events)|;
      && Cut(length, capacity, i) <= Cut(length, capacity, i + 1)
      && Part(Older(events), capacity, i) == events[Cut(length, capacity, i)..Cut(length, capacity, i + 1)]
  {
    hide Cut;
    CutAdvances(|Older(events)|, capacity, i);
  }

  lemma BuiltPageOk(histories: seq<History>, g: Generation, k: nat, i: nat)
    requires Built(histories, g) && k < |histories| && RecordOk(g.m, EntryOf(histories, g.m.capacity, k))
    requires i < EntryOf(histories, g.m.capacity, k).pages
    ensures EntryOf(histories, g.m.capacity, k).first + i < |g.pages|
    ensures g.pages[EntryOf(histories, g.m.capacity, k).first + i] == PageOf(histories[k], g.m.capacity, i)
    ensures PageOk(g.m, EntryOf(histories, g.m.capacity, k), i, PageOf(histories[k], g.m.capacity, i))
  {
    hide AllPages, RowEntries, RowIndices, Part, PageCount, Cut;
    var h := histories[k];
    PageLocated(histories, g.m.capacity, k, i);
    PartHeights(h.events, g.m.capacity, i);
    PartSize(h.events, g.m.capacity, i);
    var part := Part(Older(h.events), g.m.capacity, i);
    assert part[0] in part && part[|part| - 1] in part;
  }

  /** A page held of a built generation is the page its layout puts there. */
  lemma HeldPage(histories: seq<History>, g: Generation, held: Rows, k: nat, i: nat)
    requires Built(histories, g) && Within(held, g) && k < |histories| && RecordOk(g.m, EntryOf(histories, g.m.capacity, k))
    requires i < EntryOf(histories, g.m.capacity, k).pages && HasPage(held, EntryOf(histories, g.m.capacity, k), i)
    ensures PageAt(held, EntryOf(histories, g.m.capacity, k), i) == PageOf(histories[k], g.m.capacity, i)
    ensures PageOk(g.m, EntryOf(histories, g.m.capacity, k), i, PageOf(histories[k], g.m.capacity, i))
  {
    hide Built, PageOf, PageOk, EntryOf;
    BuiltPageOk(histories, g, k, i);
  }

  lemma PartSize(events: seq<Event>, capacity: nat, i: nat)
    requires capacity > 0 && i < PageCount(|Older(events)|, capacity)
    ensures |Part(Older(events), capacity, i)| > 0
    ensures |Part(Older(events), capacity, i)|
      == if capacity < |Older(events)| - i * capacity then capacity else |Older(events)| - i * capacity
  {
    hide PageCount;
    CutAdvances(|Older(events)|, capacity, i);
  }

  /** The height of the last event of page `i`. */
  function High(h: History, capacity: nat, i: nat): (n: nat)
    requires capacity > 0 && i < PageCount(|Older(h.events)|, capacity)
  {
    CutAdvances(|Older(h.events)|, capacity, i);
    h.events[Cut(|Older(h.events)|, capacity, i + 1) - 1].height
  }

  lemma PageEnds(h: History, capacity: nat, i: nat)
    requires capacity > 0 && i < PageCount(|Older(h.events)|, capacity)
    ensures PageOf(h, capacity, i).high == High(h, capacity, i)
    ensures PageOf(h, capacity, i).low == h.events[Cut(|Older(h.events)|, capacity, i)].height
    ensures PageOf(h, capacity, i).events == h.events[Cut(|Older(h.events)|, capacity, i)..Cut(|Older(h.events)|, capacity, i + 1)]
  {
    hide PageCount, Cut;
    var older := Older(h.events);
    var from, to := Cut(|older|, capacity, i), Cut(|older|, capacity, i + 1);
    CutAdvances(|older|, capacity, i);
    assert Part(older, capacity, i) == older[from..to] == h.events[from..to];
  }

  lemma PagesInOrder(h: History, capacity: nat, i: nat, j: nat)
    requires capacity > 0 && i < j < PageCount(|Older(h.events)|, capacity) && AscendingHeights(h.events)
    ensures PageOf(h, capacity, i).high <= PageOf(h, capacity, j).low
    ensures High(h, capacity, i) <= High(h, capacity, j)
  {
    hide PageCount, Cut, PageOf;
    PageEnds(h, capacity, i);
    PageEnds(h, capacity, j);
    var n := |Older(h.events)|;
    CutAdvances(n, capacity, i);
    CutAdvances(n, capacity, j);
    CutsAscend(n, capacity, i + 1, j);
  }

  /** Binary search ends at the first page that reaches above the checkpoint. */
  lemma {:induction false} SearchExact(histories: seq<History>, g: Generation, held: Rows, k: nat, checkpoint: nat,
                                       lo: nat, hi: nat)
    requires Built(histories, g) && Within(held, g) && k < |histories| && RecordOk(g.m, EntryOf(histories, g.m.capacity, k))
    requires lo <= hi <= EntryOf(histories, g.m.capacity, k).pages && HasPages(held, EntryOf(histories, g.m.capacity, k), 0)
    requires forall i :: 0 <= i < lo ==> High(histories[k], g.m.capacity, i) <= checkpoint
    requires forall i :: hi <= i < EntryOf(histories, g.m.capacity, k).pages ==> High(histories[k], g.m.capacity, i) > checkpoint
    ensures var e := EntryOf(histories, g.m.capacity, k);
      var start := Search(g.m, held, e, checkpoint, lo, hi).start;
      && start.Some?
      && (forall i :: 0 <= i < start.value ==> High(histories[k], g.m.capacity, i) <= checkpoint)
      && (forall i :: start.value <= i < e.pages ==> High(histories[k], g.m.capacity, i) > checkpoint)
    decreases hi - lo
  {
    hide High, PageOf, PageOk, AllPages, Built, PageCount, Older, Newest;
    BuiltHistory(histories, g, k);
    if lo < hi {
      var e, mid, h := EntryOf(histories, g.m.capacity, k), (lo + hi) / 2, histories[k];
      assert HasPage(held, e, mid);
      HeldPage(histories, g, held, k, mid);
      PageEnds(h, g.m.capacity, mid);
      if High(h, g.m.capacity, mid) <= checkpoint {
        forall i | 0 <= i < mid
          ensures High(h, g.m.capacity, i) <= checkpoint
        {
          PagesInOrder(h, g.m.capacity, i, mid);
        }
        SearchExact(histories, g, held, k, checkpoint, mid + 1, hi);
      } else {
        forall i | mid < i < e.pages
          ensures High(h, g.m.capacity, i) > checkpoint
        {
          PagesInOrder(h, g.m.capacity, mid, i);
        }
        SearchExact(histories, g, held, k, checkpoint, lo, mid);
      }
    }
  }

  lemma {:induction false} PagesFromExact(histories: seq<History>, g: Generation, held: Rows, k: nat, start: nat)
    requires Built(histories, g) && Within(held, g) && k < |histories| && RecordOk(g.m, EntryOf(histories, g.m.capacity, k))
    requires start <= EntryOf(histories, g.m.capacity, k).pages && HasPages(held, EntryOf(histories, g.m.capacity, k), start)
    ensures var older := Older(histories[k].events);
      PagesFrom(held, EntryOf(histories, g.m.capacity, k), start) == older[Cut(|older|, g.m.capacity, start)..]
    decreases EntryOf(histories, g.m.capacity, k).pages - start
  {
    hide Built, AllPages, PageOf, PageOk, PageCount, Cut, Older, Newest;
    var e, h := EntryOf(histories, g.m.capacity, k), histories[k];
    var older := Older(h.events);
    CutAdvances(|older|, g.m.capacity, start);
    if start < e.pages {
      assert HasPage(held, e, start);
      HeldPage(histories, g, held, k, start);
      PageEnds(h, g.m.capacity, start);
      PagesFromExact(histories, g, held, k, start + 1);
      SliceSplit(h.events, older, Cut(|older|, g.m.capacity, start), Cut(|older|, g.m.capacity, start + 1));
    }
  }

  lemma SliceSplit(events: seq<Event>, older: seq<Event>, a: nat, b: nat)
    requires a <= b <= |older| && older == Older(events)
    ensures older[a..] == events[a..b] + older[b..]
  {
  }

  lemma {:induction false} FilterNone(events: seq<Event>, checkpoint: nat)
    requires forall x | x in events :: x.height <= checkpoint
    ensures Filter(events, (x: Event) => x.height > checkpoint) == []
  {
    if events != [] {
      FilterNone(events[1..], checkpoint);
    }
  }

  /** Events below the chosen page are all at or below the checkpoint, so skipping them loses nothing. */
  lemma SkippedAreOld(h: History, capacity: nat, start: nat, checkpoint: nat)
    requires capacity > 0 && start <= PageCount(|Older(h.events)|, capacity) && AscendingHeights(h.events)
    requires forall i :: 0 <= i < start ==> High(h, capacity, i) <= checkpoint
    ensures var c := Cut(|Older(h.events)|, capacity, start);
      var above := (x: Event) => x.height > checkpoint;
      c <= |h.events| && Filter(h.events[c..], above) == Filter(h.events, above)
  {
    hide PageCount, Cut;
    var c := Cut(|Older(h.events)|, capacity, start);
    var above := (x: Event) => x.height > checkpoint;
    if start > 0 {
      CutAdvances(|Older(h.events)|, capacity, start - 1);
      assert High(h, capacity, start - 1) <= checkpoint;
      FilterNone(h.events[..c], checkpoint);
    } else {
      CutAdvances(|Older(h.events)|, capacity, 0);
      assert h.events[..c] == [];
    }
    assert h.events == h.events[..c] + h.events[c..];
    FilterAppend(h.events[..c], h.events[c..], above);
  }

  lemma HistoryFrom(histories: seq<History>, g: Generation, held: Rows, k: nat, start: nat)
    requires Built(histories, g) && Within(held, g) && k < |histories| && RecordOk(g.m, EntryOf(histories, g.m.capacity, k))
    requires start <= EntryOf(histories, g.m.capacity, k).pages && HasPages(held, EntryOf(histories, g.m.capacity, k), start)
    ensures var e, h := EntryOf(histories, g.m.capacity, k), histories[k];
      PagesFrom(held, e, start) + e.inline == h.events[Cut(|Older(h.events)|, g.m.capacity, start)..]
  {
    hide Built, AllPages, PageCount, Cut, PagesFrom;
    PagesFromExact(histories, g, held, k, start);
    var h := histories[k];
    var older := Older(h.events);
    var c := Cut(|older|, g.m.capacity, start);
    assert h.events == older + Newest(h.events);
    assert h.events[c..] == older[c..] + Newest(h.events);
  }

  lemma ObservedPagesOk(histories: seq<History>, g: Generation, held: Rows, k: nat)
    requires Built(histories, g) && Within(held, g) && k < |histories| && RecordOk(g.m, EntryOf(histories, g.m.capacity, k))
    ensures ObservedOk(g.m, held, EntryOf(histories, g.m.capacity, k))
    ensures InlineOk(held, EntryOf(histories, g.m.capacity, k))
  {
    hide Built, AllPages, PageCount, PageOk, PageOf, PageAt, HasPage, AscendingHeights;
    var e, h := EntryOf(histories, g.m.capacity, k), histories[k];
    BuiltHistory(histories, g, k);
    NewestAscends(h.events);
    forall i: nat | i < e.pages && HasPage(held, e, i)
      ensures PageAt(held, e, i) == PageOf(h, g.m.capacity, i) && PageOk(g.m, e, i, PageAt(held, e, i))
    {
      HeldPage(histories, g, held, k, i);
    }
    forall i: nat, j: nat | i < j < e.pages
      ensures PageOf(h, g.m.capacity, i).high <= PageOf(h, g.m.capacity, j).low
    {
      PagesInOrder(h, g.m.capacity, i, j);
    }
    forall i: nat | i < e.pages && e.inline != []
      ensures PageOf(h, g.m.capacity, i).high <= e.inline[0].height
    {
      PageBelowInline(h, g.m.capacity, i);
    }
  }

  lemma NewestAscends(events: seq<Event>)
    requires AscendingHeights(events)
    ensures AscendingHeights(Newest(events))
  {
  }

  lemma PageBelowInline(h: History, capacity: nat, i: nat)
    requires capacity > 0 && i < PageCount(|Older(h.events)|, capacity) && AscendingHeights(h.events)
    requires Newest(h.events) != []
    ensures PageOf(h, capacity, i).high <= Newest(h.events)[0].height
  {
    hide PageCount, PageOf;
    PageEnds(h, capacity, i);
    CutAdvances(|Older(h.events)|, capacity, i);
    assert Newest(h.events)[0] == h.events[|Older(h.events)|];
  }

  lemma OlderLength(events: seq<Event>)
    ensures |Older(events)| == |events| - InlineCount(|events|) && |Newest(events)| == InlineCount(|events|)
  {
  }

  lemma BuiltHistory(histories: seq<History>, g: Generation, k: nat)
    requires Built(histories, g) && k < |histories|
    ensures AscendingHeights(histories[k].events)
  {
  }

  lemma BuiltTail(histories: seq<History>, g: Generation, k: nat, c: nat)
    requires Built(histories, g) && k < |histories| && c <= |histories[k].events|
    ensures var events := histories[k].events;
      && Distinct(events[c..]) && AscendingHeights(Newest(events))
      && forall x | x in events[c..] :: g.m.start <= x.height <= g.m.end
  {
    hide AllPages, RowEntries, RowIndices;
    var events := histories[k].events;
    assert AscendingHeights(events) && Distinct(events);
    assert forall x | x in events[c..] :: x in events;
  }

  /** A finished record yields exactly its script's events above the checkpoint. */
  lemma FinishExact(histories: seq<History>, g: Generation, held: Rows, k: nat, start: nat, checkpoint: nat)
    requires Built(histories, g) && Within(held, g) && k < |histories| && RecordOk(g.m, EntryOf(histories, g.m.capacity, k))
    requires start <= EntryOf(histories, g.m.capacity, k).pages && HasPages(held, EntryOf(histories, g.m.capacity, k), start)
    requires forall i :: 0 <= i < start ==> High(histories[k], g.m.capacity, i) <= checkpoint
    ensures FinishRecord(g.m, held, EntryOf(histories, g.m.capacity, k), start, checkpoint)
      == Some(Filter(histories[k].events, (x: Event) => x.height > checkpoint))
  {
    hide Built, AllPages, PageCount, ObservedOk, InlineOk, PagesFrom, High, Distinct, AscendingHeights, Older, Newest, PageAt;
    var e, h := EntryOf(histories, g.m.capacity, k), histories[k];
    var c := Cut(|Older(h.events)|, g.m.capacity, start);
    HistoryFrom(histories, g, held, k, start);
    ObservedPagesOk(histories, g, held, k);
    BuiltHistory(histories, g, k);
    OlderLength(h.events);
    BuiltTail(histories, g, k, c);
    SkippedAreOld(h, g.m.capacity, start, checkpoint);
  }

  // ---- the directory finds every target ----

  /** The indices whose script is a target, in order. */
  function KeepTargets(histories: seq<History>, targets: set<Script>, indices: seq<nat>): (r: seq<nat>)
    requires forall i :: 0 <= i < |indices| ==> indices[i] < |histories|
    ensures forall i :: 0 <= i < |r| ==> r[i] < |histories| && r[i] in indices && histories[r[i]].script in targets
    ensures forall i :: 0 <= i < |indices| && histories[indices[i]].script in targets ==> indices[i] in r
    ensures Distinct(indices) ==> Distinct(r)
  {
    if indices == [] then []
    else
      var n := |indices| - 1;
      var head := KeepTargets(histories, targets, indices[..n]);
      if histories[indices[n]].script in targets then head + [indices[n]] else head
  }

  /** Histories of the targets found in the visited rows, in visiting order. */
  ghost function TargetIndices(histories: seq<History>, bucket: Script -> nat, targets: set<Script>, rows: seq<nat>): (s: seq<nat>)
    ensures forall i :: 0 <= i < |s| ==> s[i] < |histories| && histories[s[i]].script in targets
  {
    if rows == [] then []
    else
      TargetIndices(histories, bucket, targets, rows[..|rows| - 1])
        + KeepTargets(histories, targets, RowIndices(histories, bucket, rows[|rows| - 1]))
  }

  lemma {:induction false} TargetsFound(histories: seq<History>, bucket: Script -> nat, targets: set<Script>, rows: seq<nat>)
    requires Distinct(rows)
    ensures Distinct(TargetIndices(histories, bucket, targets, rows))
    ensures forall i :: 0 <= i < |TargetIndices(histories, bucket, targets, rows)| ==>
      bucket(histories[TargetIndices(histories, bucket, targets, rows)[i]].script) in rows
    ensures forall k: nat | k < |histories| && histories[k].script in targets && bucket(histories[k].script) in rows ::
      k in TargetIndices(histories, bucket, targets, rows)
  {
    if rows != [] {
      var n := |rows| - 1;
      TargetsFound(histories, bucket, targets, rows[..n]);
      assert rows == rows[..n] + [rows[n]];
      var head := TargetIndices(histories, bucket, targets, rows[..n]);
      var row := RowIndices(histories, bucket, rows[n]);
      var tail := KeepTargets(histories, targets, row);
      AscendingDistinct(row);
      assert rows[n] !in rows[..n];
      forall i | 0 <= i < |tail|
        ensures bucket(histories[tail[i]].script) == rows[n]
      {
        assert tail[i] in row;
      }
      forall k: nat | k < |histories| && histories[k].script in targets && bucket(histories[k].script) in rows
        ensures k in head + tail
      {
        if bucket(histories[k].script) == rows[n] {
          assert k in row;
        }
      }
    }
  }

  lemma AscendingDistinct(s: seq<nat>)
    requires forall i, j :: 0 <= i < j < |s| ==> s[i] < s[j]
    ensures Distinct(s)
  {
  }

  lemma RowEntriesAppend(histories: seq<History>, capacity: nat, a: seq<nat>, b: seq<nat>)
    requires capacity > 0
    requires (forall i :: 0 <= i < |a| ==> a[i] < |histories|) && (forall i :: 0 <= i < |b| ==> b[i] < |histories|)
    ensures RowEntries(histories, capacity, a + b) == RowEntries(histories, capacity, a) + RowEntries(histories, capacity, b)
  {
    hide EntryOf;
  }

  /** No record of the listed histories belongs to another script. */
  lemma NoSuchScript(histories: seq<History>, g: Generation, indices: seq<nat>, k: nat)
    requires Built(histories, g) && g.m.capacity > 0 && k < |histories| && k !in indices
    requires forall i :: 0 <= i < |indices| ==> indices[i] < |histories|
    ensures forall e | e in RowEntries(histories, g.m.capacity, indices) :: e.script != histories[k].script
  {
    hide Built, EntryOf;
    BuiltScripts(histories, g);
    EntryScript(histories, g.m.capacity);
    var entries := RowEntries(histories, g.m.capacity, indices);
    forall e | e in entries
      ensures e.script != histories[k].script
    {
      var i :| 0 <= i < |entries| && entries[i] == e;
      assert indices[i] in indices;
    }
  }

  lemma {:induction false} RowRecordsBuilt(histories: seq<History>, g: Generation, targets: set<Script>, indices: seq<nat>)
    requires Built(histories, g) && g.m.capacity > 0 && Distinct(indices)
    requires forall i :: 0 <= i < |indices| ==> indices[i] < |histories|
    ensures RowRecords(g.m, RowEntries(histories, g.m.capacity, indices), targets)
      == Some(RowEntries(histories, g.m.capacity, KeepTargets(histories, targets, indices)))
  {
    hide Built, EntryOf, RecordOk, RowEntries;
    if indices == [] {
      NoEntries(histories, g.m.capacity);
    } else {
      var n := |indices| - 1;
      var k, head := indices[n], indices[..n];
      RowRecordsBuilt(histories, g, targets, head);
      var kept := KeepTargets(histories, targets, head);
      assert indices == head + [k];
      assert k !in head && k !in kept;
      BuiltRecordOk(histories, g, k);
      NoSuchScript(histories, g, kept, k);
      EntryScript(histories, g.m.capacity);
      RowEntriesLast(histories, g.m.capacity, head, k);
      RowEntriesLast(histories, g.m.capacity, kept, k);
      RowRecordsStep(g.m, RowEntries(histories, g.m.capacity, head), EntryOf(histories, g.m.capacity, k), targets);
    }
  }

  lemma NoEntries(histories: seq<History>, capacity: nat)
    requires capacity > 0
    ensures RowEntries(histories, capacity, []) == []
  {
  }

  lemma RowEntriesLast(histories: seq<History>, capacity: nat, a: seq<nat>, k: nat)
    requires capacity > 0 && k < |histories| && forall i :: 0 <= i < |a| ==> a[i] < |histories|
    ensures RowEntries(histories, capacity, a + [k]) == RowEntries(histories, capacity, a) + [EntryOf(histories, capacity, k)]
  {
    hide EntryOf;
  }

  lemma RowRecordsStep(m: Manifest, head: seq<Entry>, last: Entry, targets: set<Script>)
    requires RowRecords(m, head, targets).Some? && RecordOk(m, last)
    requires forall e | e in RowRecords(m, head, targets).value :: e.script != last.script
    ensures RowRecords(m, head + [last], targets)
      == Some(RowRecords(m, head, targets).value + if last.script in targets then [last] else [])
  {
    hide RecordOk;
    var row := head + [last];
    assert row[..|row| - 1] == head && row[|row| - 1] == last;
    var found := RowRecords(m, head, targets).value;
    assert found + [] == found;
  }

  lemma EntryScript(histories: seq<History>, capacity: nat)
    requires capacity > 0
    ensures forall k :: 0 <= k < |histories| ==> EntryOf(histories, capacity, k).script == histories[k].script
  {
  }

  lemma BuiltScripts(histories: seq<History>, g: Generation)
    requires Built(histories, g)
    ensures forall i, j :: 0 <= i < |histories| && 0 <= j < |histories| && histories[i].script == histories[j].script ==> i == j
  {
  }

  lemma BuiltRow(histories: seq<History>, g: Generation, r: nat)
    requires Built(histories, g) && r < |g.directory|
    ensures |g.directory[r]| <= SLOTS && g.m.capacity > 0
    ensures g.directory[r] == RowEntries(histories, g.m.capacity, RowIndices(histories, g.m.bucket, r))
  {
  }

  /** The records found in one row are its targets', and belong to its bucket. */
  lemma RowFound(histories: seq<History>, g: Generation, targets: set<Script>, row: nat, tail: seq<nat>)
    requires Built(histories, g) && g.m.capacity > 0 && row < |g.directory|
    requires tail == KeepTargets(histories, targets, RowIndices(histories, g.m.bucket, row))
    ensures |g.directory[row]| <= SLOTS
    ensures RowRecords(g.m, g.directory[row], targets) == Some(RowEntries(histories, g.m.capacity, tail))
    ensures forall e | e in RowEntries(histories, g.m.capacity, tail) :: g.m.bucket(e.script) == row
  {
    hide Built, EntryOf, RowRecords, RecordOk;
    var indices := RowIndices(histories, g.m.bucket, row);
    BuiltRow(histories, g, row);
    AscendingDistinct(indices);
    RowRecordsBuilt(histories, g, targets, indices);
    EntryScript(histories, g.m.capacity);
    assert forall i :: 0 <= i < |tail| ==> tail[i] in indices;
  }

  /** Records found in other rows belong to other buckets. */
  lemma EarlierElsewhere(histories: seq<History>, g: Generation, targets: set<Script>, rows: seq<nat>, row: nat)
    requires g.m.capacity > 0 && Distinct(rows) && row !in rows
    ensures forall e | e in RowEntries(histories, g.m.capacity, TargetIndices(histories, g.m.bucket, targets, rows)) ::
      g.m.bucket(e.script) != row
  {
    hide EntryOf;
    TargetsFound(histories, g.m.bucket, targets, rows);
    EntryScript(histories, g.m.capacity);
  }

  /** Visiting the targets' rows yields exactly the targets' records, without complaint. */
  lemma {:induction false} RecordsBuilt(histories: seq<History>, g: Generation, held: Rows, targets: set<Script>, rows: seq<nat>)
    requires Built(histories, g) && Within(held, g) && g.m.capacity > 0 && Distinct(rows)
    requires forall i :: 0 <= i < |rows| ==> rows[i] in held.directory
    ensures Records(g.m, held, rows, targets)
      == Some(RowEntries(histories, g.m.capacity, TargetIndices(histories, g.m.bucket, targets, rows)))
  {
    hide Built, EntryOf, RowRecords, RecordOk, RowEntries, RowIndices, KeepTargets;
    if rows != [] {
      var n := |rows| - 1;
      var head := TargetIndices(histories, g.m.bucket, targets, rows[..n]);
      var tail := KeepTargets(histories, targets, RowIndices(histories, g.m.bucket, rows[n]));
      RecordsBuilt(histories, g, held, targets, rows[..n]);
      RowFound(histories, g, targets, rows[n], tail);
      EarlierElsewhere(histories, g, targets, rows[..n], rows[n]);
      RowEntriesAppend(histories, g.m.capacity, head, tail);
    }
  }

  // ---- what a wallet accepts of any rows ----

  /** A directory record's counts: at most two events inline, the rest in full pages and a last one, all within the page table. */
  ghost predicate CountsFit(m: Manifest, e: Entry) {
    var paged := e.total - |e.inline|;
    && m.capacity > 0 && |e.inline| <= 2 && (e.total <= 2 ==> |e.inline| == e.total) && (e.total > 2 ==> |e.inline| == 2)
    && paged <= e.pages * m.capacity && (e.pages > 0 ==> (e.pages - 1) * m.capacity < paged)
    && e.first + e.pages <= m.pageRows
  }

  lemma RecordExactly(m: Manifest, e: Entry)
    ensures RecordOk(m, e) <==> CountsFit(m, e)
  {
    if m.capacity > 0 && |e.inline| <= e.total {
      CeilingIs(e.total - |e.inline|, m.capacity, e.pages);
    }
  }

  lemma CeilingIs(n: nat, d: nat, k: nat)
    requires d > 0
    ensures PageCount(n, d) == k <==> n <= k * d && (k > 0 ==> (k - 1) * d < n)
  {
    var c := PageCount(n, d);
    assert n <= c * d < n + d by {
      var r := (n + d - 1) % d;
      assert n + d - 1 == c * d + r;
    }
    if c < k {
      MulMonotone(c, k - 1, d);
    }
    if k < c {
      MulMonotone(k, c - 1, d);
      MulSuccessor(c - 1, d);
    }
    if c > 0 {
      MulSuccessor(c - 1, d);
    }
  }

  /** A page belongs to the record at this index: its script, number and count, as many events as are left for it, and true bounds in the range. */
  ghost predicate Belongs(m: Manifest, e: Entry, i: nat, page: Page) {
    var left := e.total - |e.inline| - i * m.capacity;
    && page != Blank && page.script == e.script && page.index == i && page.count == e.pages && page.events != []
    && |e.inline| <= e.total
    && (left <= m.capacity ==> |page.events| == left) && (left > m.capacity ==> |page.events| == m.capacity)
    && (forall a, b :: 0 <= a < b < |page.events| ==> page.events[a].height <= page.events[b].height)
    && (forall x | x in page.events :: m.start <= x.height <= m.end && page.low <= x.height <= page.high)
    && (exists x :: x in page.events && x.height == page.low) && (exists x :: x in page.events && x.height == page.high)
  }

  lemma PageExactly(m: Manifest, e: Entry, i: nat, page: Page)
    ensures PageOk(m, e, i, page) <==> Belongs(m, e, i, page)
  {
    if page.Page? && page.events != [] && AscendingHeights(page.events) {
      var s := page.events;
      assert s[0] in s && s[|s| - 1] in s;
      assert forall x | x in s :: s[0].height <= x.height <= s[|s| - 1].height;
    }
  }

  /** Every page held belongs, and no event of an earlier page, or of any page, is above one that comes after it. */
  ghost predicate Orderly(m: Manifest, held: Rows, e: Entry) {
    && (forall i: nat | i < e.pages && HasPage(held, e, i) :: Belongs(m, e, i, PageAt(held, e, i)))
    && (forall i: nat, j: nat | i < j < e.pages && HasPage(held, e, i) && HasPage(held, e, j) :: NoneAbove(held, e, i, j))
    && (forall a, b :: 0 <= a < b < |e.inline| ==> e.inline[a].height <= e.inline[b].height)
    && (forall i: nat | i < e.pages && HasPage(held, e, i) :: NoneAboveInline(held, e, i))
  }

  ghost predicate NoneAbove(held: Rows, e: Entry, i: nat, j: nat)
    requires HasPage(held, e, i) && HasPage(held, e, j)
  {
    PageAt(held, e, i).Page? && PageAt(held, e, j).Page?
    && forall x, y | x in PageAt(held, e, i).events && y in PageAt(held, e, j).events :: x.height <= y.height
  }

  ghost predicate NoneAboveInline(held: Rows, e: Entry, i: nat)
    requires HasPage(held, e, i)
  {
    e.inline != [] ==> PageAt(held, e, i).Page? && forall x, y | x in PageAt(held, e, i).events && y in e.inline :: x.height <= y.height
  }

  /** The events a record is finished with: those of its pages from the start on, then the inline ones. */
  ghost predicate Whole(m: Manifest, e: Entry, start: nat, history: seq<Event>) {
    var paged := e.total - |e.inline|;
    && (start * m.capacity <= paged ==> |history| == e.total - start * m.capacity)
    && (start * m.capacity > paged ==> |history| == |e.inline|)
    && (forall a, b :: 0 <= a < b < |history| ==> history[a] != history[b])
    && (forall x | x in history :: m.start <= x.height <= m.end)
  }

  lemma PairExactly(m: Manifest, held: Rows, e: Entry, i: nat, j: nat)
    requires HasPage(held, e, i) && HasPage(held, e, j) && Belongs(m, e, i, PageAt(held, e, i)) && Belongs(m, e, j, PageAt(held, e, j))
    ensures PageAt(held, e, i).high <= PageAt(held, e, j).low <==> NoneAbove(held, e, i, j)
  {
  }

  lemma InlineExactly(m: Manifest, held: Rows, e: Entry, i: nat)
    requires HasPage(held, e, i) && Belongs(m, e, i, PageAt(held, e, i)) && AscendingHeights(e.inline) && e.inline != []
    ensures PageAt(held, e, i).high <= e.inline[0].height <==> NoneAboveInline(held, e, i)
  {
    assert e.inline[0] in e.inline;
    assert forall y | y in e.inline :: e.inline[0].height <= y.height;
  }

  lemma OrderlyExactly(m: Manifest, held: Rows, e: Entry)
    ensures ObservedOk(m, held, e) && InlineOk(held, e) <==> Orderly(m, held, e)
  {
    hide PageOk, Belongs, NoneAbove, NoneAboveInline, PageAt;
    forall i: nat | i < e.pages && HasPage(held, e, i)
      ensures PageOk(m, e, i, PageAt(held, e, i)) <==> Belongs(m, e, i, PageAt(held, e, i))
      ensures Belongs(m, e, i, PageAt(held, e, i)) ==> PageAt(held, e, i).Page?
    {
      PageExactly(m, e, i, PageAt(held, e, i));
      BelongingPage(m, e, i, PageAt(held, e, i));
    }
    if forall i: nat | i < e.pages && HasPage(held, e, i) :: Belongs(m, e, i, PageAt(held, e, i)) {
      forall i: nat, j: nat | i < j < e.pages && HasPage(held, e, i) && HasPage(held, e, j)
        ensures PageAt(held, e, i).high <= PageAt(held, e, j).low <==> NoneAbove(held, e, i, j)
      {
        PairExactly(m, held, e, i, j);
      }
      if AscendingHeights(e.inline) {
        forall i: nat | i < e.pages && HasPage(held, e, i)
          ensures NoneAboveInline(held, e, i) <==> e.inline == [] || PageAt(held, e, i).high <= e.inline[0].height
        {
          if e.inline != [] {
            InlineExactly(m, held, e, i);
          } else {
            NothingInline(held, e, i);
          }
        }
      }
    }
  }

  lemma BelongingPage(m: Manifest, e: Entry, i: nat, page: Page)
    ensures Belongs(m, e, i, page) ==> page.Page?
  {
  }

  lemma NothingInline(held: Rows, e: Entry, i: nat)
    requires HasPage(held, e, i) && e.inline == []
    ensures NoneAboveInline(held, e, i)
  {
  }

  /** A record of any rows is finished exactly when they are orderly and whole, with the events above the checkpoint. */
  lemma FinishedExactly(m: Manifest, held: Rows, e: Entry, start: nat, checkpoint: nat)
    requires RecordOk(m, e) && start <= e.pages && HasPages(held, e, start)
    ensures var history, r := PagesFrom(held, e, start) + e.inline, FinishRecord(m, held, e, start, checkpoint);
      && (r.Some? <==> Orderly(m, held, e) && Whole(m, e, start, history))
      && (r.Some? ==> r.value == Filter(history, (x: Event) => x.height > checkpoint))
  {
    hide ObservedOk, InlineOk, Orderly, PagesFrom, RecordOk;
    OrderlyExactly(m, held, e);
    InlineFits(m, e);
  }

  lemma InlineFits(m: Manifest, e: Entry)
    requires RecordOk(m, e)
    ensures |e.inline| <= e.total
  {
  }

  /** The records of one row are taken when every target's counts fit and no target is listed twice. */
  /** Every target's counts fit and no target is listed twice. */
  ghost predicate FitsOnce(m: Manifest, row: seq<Entry>, targets: set<Script>) {
    && (forall e | e in row && e.script in targets :: CountsFit(m, e))
    && (forall a, b :: 0 <= a < b < |row| && row[a].script in targets ==> row[a].script != row[b].script)
  }

  lemma {:induction false} RowExactly(m: Manifest, row: seq<Entry>, targets: set<Script>)
    ensures RowRecords(m, row, targets).Some? <==> FitsOnce(m, row, targets)
    ensures RowRecords(m, row, targets).Some? ==> forall e :: e in RowRecords(m, row, targets).value <==> e in row && e.script in targets
  {
    hide RecordOk, CountsFit, FitsOnce;
    var n := |row| - 1;
    if row == [] {
      NothingTwice(m, row, targets);
    } else {
      RowExactly(m, row[..n], targets);
      RecordExactly(m, row[n]);
      FitsOnceMore(m, row, targets);
      assert row == row[..n] + [row[n]];
      var head := RowRecords(m, row[..n], targets);
      if head.Some? && row[n].script in targets {
        TwiceInRow(row, n, targets, head.value);
      }
    }
  }

  lemma NothingTwice(m: Manifest, row: seq<Entry>, targets: set<Script>)
    requires row == []
    ensures FitsOnce(m, row, targets)
  {
  }

  lemma FitsOnceMore(m: Manifest, row: seq<Entry>, targets: set<Script>)
    requires row != []
    ensures var n := |row| - 1;
      FitsOnce(m, row, targets) <==>
        (FitsOnce(m, row[..n], targets)
         && (row[n].script in targets ==> CountsFit(m, row[n]) && !(exists a :: 0 <= a < n && row[a].script == row[n].script)))
  {
    hide CountsFit;
    var n := |row| - 1;
    assert row == row[..n] + [row[n]];
  }

  lemma TwiceInRow(row: seq<Entry>, n: nat, targets: set<Script>, head: seq<Entry>)
    requires n < |row| && row[n].script in targets && forall e :: e in head <==> e in row[..n] && e.script in targets
    ensures (exists e :: e in head && e.script == row[n].script) <==> exists a :: 0 <= a < n && row[a].script == row[n].script
  {
    if a :| 0 <= a < n && row[a].script == row[n].script {
      assert row[..n][a] == row[a];
      assert row[a] in head;
    }
    if e :| e in head && e.script == row[n].script {
      var a :| 0 <= a < n && row[..n][a] == e;
      assert row[a] == e;
    }
  }

  /** A row of at most thirteen records in which every target fits once. */
  ghost predicate CleanRow(m: Manifest, row: seq<Entry>, targets: set<Script>) {
    |row| <= 13 && FitsOnce(m, row, targets)
  }

  ghost predicate Listed(held: Rows, order: seq<nat>, targets: set<Script>, r: nat, e: Entry)
    requires forall i :: 0 <= i < |order| ==> order[i] in held.directory
  {
    r in order && e in held.directory[r] && e.script in targets
  }

  /** Directory rows are accepted when each is clean, every target is in its own bucket's row, and none is in two. */
  ghost predicate CleanRows(m: Manifest, held: Rows, order: seq<nat>, targets: set<Script>)
    requires forall i :: 0 <= i < |order| ==> order[i] in held.directory
  {
    && (forall r | r in order :: CleanRow(m, held.directory[r], targets))
    && (forall r, e | Listed(held, order, targets, r, e) :: m.bucket(e.script) == r)
  }

  lemma {:induction false} RecordsExactly(m: Manifest, held: Rows, order: seq<nat>, targets: set<Script>)
    requires Distinct(order) && forall i :: 0 <= i < |order| ==> order[i] in held.directory
    ensures Records(m, held, order, targets).Some? <==> CleanRows(m, held, order, targets)
    ensures Records(m, held, order, targets).Some? ==> ListsAll(held, order, targets, Records(m, held, order, targets).value)
    decreases |order|
  {
    hide RowRecords, CountsFit, RecordOk, ListsAll;
    if order == [] {
      NothingListed(held, targets);
    } else {
      var n := |order| - 1;
      var before, row := order[..n], order[n];
      assert order == before + [row];
      assert row !in before;
      RecordsExactly(m, held, before, targets);
      RowExactly(m, held.directory[row], targets);
      CleanRowsMore(m, held, before, row, targets);
      var head, found := Records(m, held, before, targets), RowRecords(m, held.directory[row], targets);
      if head.Some? && found.Some? {
        NoClash(m, held, before, row, targets, head.value, found.value);
        ListsMore(held, before, row, targets, head.value, found.value);
      }
    }
  }

  /** The entries are exactly the targets' ones in the rows visited. */
  ghost predicate ListsAll(held: Rows, order: seq<nat>, targets: set<Script>, entries: seq<Entry>)
    requires forall i :: 0 <= i < |order| ==> order[i] in held.directory
  {
    forall e :: e in entries <==> exists r :: Listed(held, order, targets, r, e)
  }

  lemma NothingListed(held: Rows, targets: set<Script>)
    ensures ListsAll(held, [], targets, [])
  {
  }

  lemma ListedMore(held: Rows, before: seq<nat>, row: nat, targets: set<Script>, r: nat, e: Entry)
    requires (forall i :: 0 <= i < |before| ==> before[i] in held.directory) && row in held.directory
    ensures Listed(held, before + [row], targets, r, e)
      <==> Listed(held, before, targets, r, e) || (r == row && e in held.directory[row] && e.script in targets)
  {
  }

  lemma ListsMore(held: Rows, before: seq<nat>, row: nat, targets: set<Script>, head: seq<Entry>, found: seq<Entry>)
    requires (forall i :: 0 <= i < |before| ==> before[i] in held.directory) && row in held.directory
    requires ListsAll(held, before, targets, head) && forall e :: e in found <==> e in held.directory[row] && e.script in targets
    ensures ListsAll(held, before + [row], targets, head + found)
  {
    hide Listed;
    var order := before + [row];
    forall e
      ensures e in head + found <==> exists r :: Listed(held, order, targets, r, e)
    {
      if e in found {
        ListedMore(held, before, row, targets, row, e);
        assert Listed(held, order, targets, row, e);
      }
      if e in head {
        var r :| Listed(held, before, targets, r, e);
        ListedMore(held, before, row, targets, r, e);
        assert Listed(held, order, targets, r, e);
      }
      if r :| Listed(held, order, targets, r, e) {
        ListedMore(held, before, row, targets, r, e);
      }
    }
  }

  lemma CleanRowsMore(m: Manifest, held: Rows, before: seq<nat>, row: nat, targets: set<Script>)
    requires (forall i :: 0 <= i < |before| ==> before[i] in held.directory) && row in held.directory
    ensures CleanRows(m, held, before + [row], targets)
      <==> (&& CleanRows(m, held, before, targets) && CleanRow(m, held.directory[row], targets)
            && forall e | e in held.directory[row] && e.script in targets :: m.bucket(e.script) == row)
  {
    hide CleanRow, Listed;
    var order := before + [row];
    forall r, e
      ensures Listed(held, order, targets, r, e)
        <==> Listed(held, before, targets, r, e) || (r == row && e in held.directory[row] && e.script in targets)
    {
      ListedMore(held, before, row, targets, r, e);
    }
    if CleanRows(m, held, order, targets) {
      assert row in order;
      forall r | r in before
        ensures CleanRow(m, held.directory[r], targets)
      {
        assert r in order;
      }
      forall r, e | Listed(held, before, targets, r, e)
        ensures m.bucket(e.script) == r
      {
        assert Listed(held, order, targets, r, e);
      }
      forall e | e in held.directory[row] && e.script in targets
        ensures m.bucket(e.script) == row
      {
        assert Listed(held, order, targets, row, e);
      }
    }
  }

  /** Targets in their own buckets' rows are not in two rows. */
  lemma NoClash(m: Manifest, held: Rows, before: seq<nat>, row: nat, targets: set<Script>, head: seq<Entry>, found: seq<Entry>)
    requires (forall i :: 0 <= i < |before| ==> before[i] in held.directory) && row in held.directory && row !in before
    requires CleanRows(m, held, before, targets) && ListsAll(held, before, targets, head)
    ensures (forall e | e in found :: m.bucket(e.script) == row) ==> !exists a, b :: a in head && b in found && a.script == b.script
  {
    hide CleanRow;
    forall a | a in head
      ensures m.bucket(a.script) != row
    {
      var r :| Listed(held, before, targets, r, a);
    }
  }
}
