/** The record journal: fixed-size records, an atomic manifest, and exactly-once block ingest. */
module Journal {
  import opened Bytes
  import opened Results
  import opened Arithmetic

  type Record = seq<byte>

  datatype BlockEntry = BlockEntry(height: nat, hash: string, firstPosition: nat, actionCount: nat)
  datatype Manifest = Manifest(treeSize: nat, blocks: seq<BlockEntry>)
  datatype Disk = Disk(records: seq<byte>, manifest: Option<Manifest>)

  /** The files, and the manifest the process holds. */
  datatype State = State(disk: Disk, manifest: Manifest)

  /** A block as the chain source delivers it: its records and the tree size after it. */
  datatype Block = Block(height: nat, hash: string, records: seq<Record>, treeSize: nat)

  datatype JournalError = OutOfOrder | BadRecord | Overflow | ExceedsTree | Discontinuous | SizeMismatch

  const FRESH := Manifest(0, [])

  function Flat(records: seq<Record>): (s: seq<byte>) {
    if records == [] then [] else Flat(records[..|records| - 1]) + records[|records| - 1]
  }

  predicate Sized(width: nat, records: seq<Record>) {
    forall i :: 0 <= i < |records| ==> |records[i]| == width
  }

  function Committed(disk: Disk): (m: Manifest) {
    if disk.manifest.Some? then disk.manifest.value else FRESH
  }

  // ---- operations ----

  /** Cuts the records file back to the committed length; refuses a shorter file. */
  function Open(width: nat, disk: Disk): (r: Option<State>) {
    var m := Committed(disk);
    if m.treeSize * width >= U64_LIMIT || |disk.records| < m.treeSize * width then None
    else Some(State(Disk(disk.records[..m.treeSize * width], Some(m)), m))
  }

  function Appended(width: nat, s: State, height: nat, hash: string, records: seq<Record>)
    : (r: (State, Result<(), JournalError>))
  {
    var m := s.manifest;
    if m.blocks != [] && height != m.blocks[|m.blocks| - 1].height + 1 then (s, Err(OutOfOrder))
    else if !Sized(width, records) then (s, Err(BadRecord))
    else
      var written := s.disk.(records := s.disk.records + Flat(records));
      if m.treeSize + |records| >= U64_LIMIT then (s.(disk := written), Err(Overflow))
      else
        var n := Manifest(m.treeSize + |records|, m.blocks + [BlockEntry(height, hash, m.treeSize, |records|)]);
        (State(written.(manifest := Some(n)), n), Ok(()))
  }

  /** Re-delivered blocks are ignored; a new one must continue the tree. */
  function Ingested(width: nat, s: State, block: Block): (r: (State, Result<(), JournalError>)) {
    var m := s.manifest;
    if m.blocks != [] && m.blocks[|m.blocks| - 1].height >= block.height then (s, Ok(()))
    else if block.treeSize < |block.records| then (s, Err(ExceedsTree))
    else
      var first := block.treeSize - |block.records|;
      if m.treeSize < first || m.treeSize > block.treeSize then (s, Err(Discontinuous))
      else
        var (n, r) := Appended(width, s, block.height, block.hash, block.records[m.treeSize - first..]);
        if r.Err? then (n, r)
        else if n.manifest.treeSize != block.treeSize then (n, Err(SizeMismatch))
        else (n, r)
  }

  /** Index of the first block above `height`. */
  function Keep(blocks: seq<BlockEntry>, height: nat): (k: nat)
    ensures k <= |blocks|
    ensures forall i :: 0 <= i < k ==> blocks[i].height <= height
    ensures k < |blocks| ==> blocks[k].height > height
  {
    if blocks == [] || blocks[0].height > height then 0 else 1 + Keep(blocks[1..], height)
  }

  function KeptSize(blocks: seq<BlockEntry>, keep: nat): (n: nat)
    requires keep <= |blocks|
  {
    if keep < |blocks| then blocks[keep].firstPosition
    else if blocks == [] then 0
    else blocks[|blocks| - 1].firstPosition + blocks[|blocks| - 1].actionCount
  }

  function KeepFor(blocks: seq<BlockEntry>, height: Option<nat>): (k: nat)
    ensures k <= |blocks|
  {
    if height.None? then 0 else Keep(blocks, height.value)
  }

  /** Setting a file's length cuts it or pads it with zeros. */
  function Resized(bytes: seq<byte>, length: nat): (s: seq<byte>)
    ensures |s| == length
  {
    if length <= |bytes| then bytes[..length] else bytes + Zeros(length - |bytes|)
  }

  /** The first of a rewind's two writes: the records file is cut before the manifest is replaced. */
  function Truncated(width: nat, s: State, height: Option<nat>): (n: State) {
    var size := KeptSize(s.manifest.blocks, KeepFor(s.manifest.blocks, height));
    s.(disk := s.disk.(records := Resized(s.disk.records, size * width)))
  }

  function Rewound(width: nat, s: State, height: Option<nat>): (n: State) {
    var keep := KeepFor(s.manifest.blocks, height);
    var m := Manifest(KeptSize(s.manifest.blocks, keep), s.manifest.blocks[..keep]);
    State(Truncated(width, s, height).disk.(manifest := Some(m)), m)
  }

  // ---- the clean journal of a block sequence ----

  function AllRecords(blocks: seq<Block>): (r: seq<Record>) {
    if blocks == [] then [] else AllRecords(blocks[..|blocks| - 1]) + blocks[|blocks| - 1].records
  }

  function Entries(blocks: seq<Block>): (e: seq<BlockEntry>)
    ensures |e| == |blocks|
  {
    if blocks == [] then []
    else
      var n := |blocks| - 1;
      var b := blocks[n];
      Entries(blocks[..n]) + [BlockEntry(b.height, b.hash, |AllRecords(blocks[..n])|, |b.records|)]
  }

  /** What one uninterrupted pass over `blocks` leaves behind. */
  function Clean(blocks: seq<Block>): (s: State) {
    var m := Manifest(|AllRecords(blocks)|, Entries(blocks));
    State(Disk(Flat(AllRecords(blocks)), Some(m)), m)
  }

  /** Consecutive heights, tree sizes that count the records so far, and records of one width. */
  ghost predicate Consistent(width: nat, blocks: seq<Block>) {
    && (forall i, j :: 0 <= i < j < |blocks| ==> blocks[j].height == blocks[i].height + (j - i))
    && (forall i :: 0 <= i < |blocks| ==> Sized(width, blocks[i].records))
    && (forall i :: 0 <= i < |blocks| ==> blocks[i].treeSize == |AllRecords(blocks[..i + 1])|)
    && |AllRecords(blocks)| < U64_LIMIT && |AllRecords(blocks)| * width < U64_LIMIT
  }

  lemma {:induction false} AllRecordsSplit(blocks: seq<Block>, n: nat)
    requires n <= |blocks|
    ensures AllRecords(blocks[..n]) <= AllRecords(blocks)
    decreases |blocks|
  {
    if n < |blocks| {
      var m := |blocks| - 1;
      assert blocks[..m][..n] == blocks[..n];
      AllRecordsSplit(blocks[..m], n);
    } else {
      assert blocks[..n] == blocks;
    }
  }

  lemma {:induction false} FlatAppend(a: seq<Record>, b: seq<Record>)
    ensures Flat(a + b) == Flat(a) + Flat(b)
    decreases |b|
  {
    if b == [] {
      assert a + b == a;
    } else {
      var n := |b| - 1;
      assert (a + b)[..|a + b| - 1] == a + b[..n];
      FlatAppend(a, b[..n]);
    }
  }

  lemma {:induction false} FlatLength(width: nat, records: seq<Record>)
    requires Sized(width, records)
    ensures |Flat(records)| == |records| * width
  {
    if records != [] {
      var n := |records| - 1;
      FlatLength(width, records[..n]);
      MulSuccessor(n, width);
    }
  }

  /** Position to offset: the p-th record sits at byte `p * width`. */
  lemma {:induction false} FlatAt(width: nat, records: seq<Record>, p: nat)
    requires Sized(width, records) && p < |records|
    ensures p * width + width <= |Flat(records)| == |records| * width
    ensures Flat(records)[p * width..p * width + width] == records[p]
  {
    var n := |records| - 1;
    FlatLength(width, records);
    FlatLength(width, records[..n]);
    if p < n {
      FlatAt(width, records[..n], p);
      SliceHead(Flat(records[..n]), records[n], p * width, p * width + width);
    } else {
      SliceTail(Flat(records[..n]), records[n], n * width, n * width + width);
    }
  }

  lemma SliceHead(a: seq<byte>, b: seq<byte>, from: nat, to: nat)
    requires from <= to <= |a|
    ensures (a + b)[from..to] == a[from..to]
  {
  }

  lemma SliceTail(a: seq<byte>, b: seq<byte>, from: nat, to: nat)
    requires from == |a| && to == |a| + |b|
    ensures (a + b)[from..to] == b
  {
  }

  lemma {:induction false} EntriesAt(blocks: seq<Block>, i: nat)
    requires i < |blocks|
    ensures Entries(blocks)[i] == BlockEntry(blocks[i].height, blocks[i].hash, |AllRecords(blocks[..i])|, |blocks[i].records|)
    decreases |blocks|
  {
    var m := |blocks| - 1;
    if i < m {
      EntriesAt(blocks[..m], i);
      assert blocks[..m][..i] == blocks[..i];
    }
  }

  lemma {:induction false} EntriesPrefix(blocks: seq<Block>, n: nat)
    requires n <= |blocks|
    ensures Entries(blocks)[..n] == Entries(blocks[..n])
    decreases |blocks|
  {
    if n < |blocks| {
      var m := |blocks| - 1;
      EntriesPrefix(blocks[..m], n);
      assert blocks[..m][..n] == blocks[..n];
    } else {
      assert blocks[..n] == blocks;
    }
  }

  lemma {:induction false} AllSized(width: nat, blocks: seq<Block>)
    requires forall i :: 0 <= i < |blocks| ==> Sized(width, blocks[i].records)
    ensures Sized(width, AllRecords(blocks))
  {
    if blocks != [] {
      AllSized(width, blocks[..|blocks| - 1]);
    }
  }

  lemma {:induction false} ConsistentPrefix(width: nat, blocks: seq<Block>, n: nat)
    requires Consistent(width, blocks) && n <= |blocks|
    ensures Consistent(width, blocks[..n])
  {
    AllRecordsSplit(blocks, n);
    var kept := blocks[..n];
    forall i | 0 <= i < n
      ensures kept[i].treeSize == |AllRecords(kept[..i + 1])|
    {
      assert kept[..i + 1] == blocks[..i + 1];
    }
    MulMonotone(|AllRecords(kept)|, |AllRecords(blocks)|, width);
  }

  // ---- exactly-once ingest ----

  /** The size check after an append can never fail, whatever the journal and the block. */
  lemma SizeCheckNeverFires(width: nat, s: State, block: Block)
    ensures Ingested(width, s, block).1 != Err(SizeMismatch)
    ensures Ingested(width, s, block).1.Ok? && Ingested(width, s, block).0 != s
            ==> Ingested(width, s, block).0.manifest.treeSize == block.treeSize
  {
  }

  lemma IngestNext(width: nat, blocks: seq<Block>, n: nat)
    requires Consistent(width, blocks) && n < |blocks|
    ensures Ingested(width, Clean(blocks[..n]), blocks[n]) == (Clean(blocks[..n + 1]), Ok(()))
  {
    hide Flat;
    var block, before, after := blocks[n], blocks[..n], blocks[..n + 1];
    assert after[..n] == before && after[n] == block;
    assert AllRecords(after) == AllRecords(before) + block.records;
    FlatAppend(AllRecords(before), block.records);
    AllRecordsSplit(blocks, n + 1);
    assert block.records[0..] == block.records;
    if n > 0 {
      EntriesAt(before, n - 1);
    }
  }

  lemma IngestEarlier(width: nat, blocks: seq<Block>, n: nat, k: nat)
    requires Consistent(width, blocks) && k < n <= |blocks|
    ensures Ingested(width, Clean(blocks[..n]), blocks[k]) == (Clean(blocks[..n]), Ok(()))
  {
    hide Flat, AllRecords;
    EntriesAt(blocks[..n], n - 1);
    assert blocks[n - 1].height >= blocks[k].height;
  }

  /**
   A block that skips ahead is refused and changes nothing, except on an empty journal, where it is
   accepted exactly when every skipped block has no records; the skipped blocks are then missing from
   the manifest, but no record is.
   */
  lemma IngestLater(width: nat, blocks: seq<Block>, n: nat, k: nat)
    requires Consistent(width, blocks) && n < k < |blocks|
    ensures var (s, r) := Ingested(width, Clean(blocks[..n]), blocks[k]);
      && (r.Ok? <==> n == 0 && AllRecords(blocks[..k]) == [])
      && (r.Err? ==> s == Clean(blocks[..n]))
      && (r.Ok? ==> s.disk.records == Flat(AllRecords(blocks[..k + 1])) && |s.manifest.blocks| == 1)
  {
    hide Flat, AllRecords, Entries, Ingested;
    if n > 0 {
      IngestSkip(width, blocks, n, k);
    } else {
      IngestFirst(width, blocks, k);
      assert blocks[..0] == [];
    }
  }

  lemma IngestSkip(width: nat, blocks: seq<Block>, n: nat, k: nat)
    requires Consistent(width, blocks) && 0 < n < k < |blocks|
    ensures Ingested(width, Clean(blocks[..n]), blocks[k]).1.Err?
    ensures Ingested(width, Clean(blocks[..n]), blocks[k]).0 == Clean(blocks[..n])
  {
    hide Flat, AllRecords, Sized;
    EntriesAt(blocks[..n], n - 1);
    assert blocks[k].height == blocks[n - 1].height + (k - (n - 1));
  }

  lemma IngestFirst(width: nat, blocks: seq<Block>, k: nat)
    requires Consistent(width, blocks) && k < |blocks|
    ensures var (s, r) := Ingested(width, Clean([]), blocks[k]);
      && (r.Ok? <==> AllRecords(blocks[..k]) == [])
      && (r.Err? ==> s == Clean([]))
      && (r.Ok? ==> s.disk.records == Flat(AllRecords(blocks[..k + 1])) && |s.manifest.blocks| == 1)
  {
    hide Flat;
    var block := blocks[k];
    assert blocks[..k + 1][..k] == blocks[..k];
    assert AllRecords(blocks[..k + 1]) == AllRecords(blocks[..k]) + block.records;
    AllRecordsSplit(blocks, k + 1);
    FlatLength(width, []);
    assert Clean([]) == State(Disk([], Some(FRESH)), FRESH);
    if AllRecords(blocks[..k]) == [] {
      assert block.records[0..] == block.records;
      assert [] + block.records == block.records && [] + Flat(block.records) == Flat(block.records);
    }
  }

  /** Whatever was written after the last committed manifest is discarded on open. */
  lemma OpenRecovers(width: nat, blocks: seq<Block>, bytes: seq<byte>)
    requires Consistent(width, blocks) && Clean(blocks).disk.records <= bytes
    ensures Open(width, Clean(blocks).disk.(records := bytes)) == Some(Clean(blocks))
  {
    AllSized(width, blocks);
    FlatLength(width, AllRecords(blocks));
    var clean := Clean(blocks);
    assert bytes[..|clean.disk.records|] == clean.disk.records;
    assert Committed(clean.disk.(records := bytes)) == clean.manifest;
  }

  /** Number of blocks a rewind keeps. */
  function KeptBlocks(blocks: seq<Block>, height: Option<nat>): (n: nat)
    ensures n <= |blocks|
  {
    KeepFor(Entries(blocks), height)
  }

  /** A completed rewind is the journal of replaying only the kept blocks. */
  lemma RewindIsReplay(width: nat, blocks: seq<Block>, height: Option<nat>)
    requires Consistent(width, blocks)
    ensures Rewound(width, Clean(blocks), height) == Clean(blocks[..KeptBlocks(blocks, height)])
    ensures forall i :: 0 <= i < |blocks| ==>
      (i < KeptBlocks(blocks, height) <==> height.Some? && blocks[i].height <= height.value)
  {
    var entries, keep := Entries(blocks), KeptBlocks(blocks, height);
    forall i | 0 <= i < |blocks|
      ensures i < keep <==> height.Some? && blocks[i].height <= height.value
    {
      EntriesAt(blocks, i);
      if i >= keep && height.Some? {
        EntriesAt(blocks, keep);
        assert i > keep ==> blocks[i].height == blocks[keep].height + (i - keep);
      }
    }
    KeptSizeIsTotal(blocks, keep);
    EntriesPrefix(blocks, keep);
    FlatPrefix(width, blocks, keep);
  }

  lemma FlatPrefix(width: nat, blocks: seq<Block>, n: nat)
    requires Consistent(width, blocks) && n <= |blocks|
    ensures |AllRecords(blocks[..n])| * width == |Flat(AllRecords(blocks[..n]))|
    ensures Flat(AllRecords(blocks[..n])) <= Flat(AllRecords(blocks))
  {
    hide Flat;
    var kept := AllRecords(blocks[..n]);
    AllRecordsSplit(blocks, n);
    AllSized(width, blocks[..n]);
    FlatLength(width, kept);
    assert AllRecords(blocks) == kept + AllRecords(blocks)[|kept|..];
    FlatAppend(kept, AllRecords(blocks)[|kept|..]);
  }

  lemma KeptSizeIsTotal(blocks: seq<Block>, keep: nat)
    requires keep <= |blocks|
    ensures KeptSize(Entries(blocks), keep) == |AllRecords(blocks[..keep])|
  {
    if keep < |blocks| {
      EntriesAt(blocks, keep);
    } else {
      assert blocks[..keep] == blocks;
      if blocks != [] {
        EntriesAt(blocks, |blocks| - 1);
      }
    }
  }

  /** A crash between a rewind's two writes is recoverable exactly when the dropped blocks hold no bytes. */
  lemma RewindWindow(width: nat, blocks: seq<Block>, height: Option<nat>)
    requires Consistent(width, blocks) && width > 0
    ensures Open(width, Truncated(width, Clean(blocks), height).disk).Some?
            <==> AllRecords(blocks[..KeptBlocks(blocks, height)]) == AllRecords(blocks)
  {
    var keep := KeptBlocks(blocks, height);
    KeptSizeIsTotal(blocks, keep);
    AllRecordsSplit(blocks, keep);
    AllSized(width, blocks);
    FlatLength(width, AllRecords(blocks));
    var a, b := |AllRecords(blocks[..keep])|, |AllRecords(blocks)|;
    assert a < b ==> a * width + width <= b * width by {
      if a < b {
        MulMonotone(a + 1, b, width);
        MulSuccessor(a, width);
      }
    }
    if a == b {
      assert AllRecords(blocks[..keep]) == AllRecords(blocks);
    }
  }

  // ---- runs ----

  /** The chain source's current branch, and how many of its blocks the journal holds. */
  datatype Feed = Feed(blocks: seq<Block>, done: nat)

  /** Deliveries, crashes inside an append (after `written` bytes, then reopened), and completed rewinds onto a branch. */
  datatype Event =
    | Deliver(block: nat)
    | CrashDuring(block: nat, written: nat)
    | Rewind(height: Option<nat>, branch: seq<Block>)

  /** The one skip the code accepts: onto an empty journal, past blocks without records. */
  ghost predicate UnnoticedSkip(f: Feed, block: nat) {
    f.done == 0 && 0 < block < |f.blocks| && AllRecords(f.blocks[..block]) == []
  }

  /**
   Blocks of the branch arrive in any order and any number of times, except for the unnoticed skip.
   A rewind may be followed by another consistent branch that shares the blocks it kept.
   */
  ghost predicate Allowed(width: nat, f: Feed, event: Event)
    requires f.done <= |f.blocks|
  {
    match event
    case Deliver(k) => k < |f.blocks| && !UnnoticedSkip(f, k)
    case CrashDuring(k, written) => k < |f.blocks| && !UnnoticedSkip(f, k)
    case Rewind(height, branch) =>
      var keep := KeptBlocks(f.blocks[..f.done], height);
      Consistent(width, branch) && keep <= |branch| && branch[..keep] == f.blocks[..keep]
  }

  function Progress(f: Feed, event: Event): (n: Feed)
    requires f.done <= |f.blocks|
  {
    match event
    case Deliver(k) => if k == f.done then f.(done := f.done + 1) else f
    case CrashDuring(k, written) => f
    case Rewind(height, branch) => Feed(branch, KeptBlocks(f.blocks[..f.done], height))
  }

  /** The file when only `written` of the bytes beyond `before` reached it. */
  function Torn(before: seq<byte>, after: seq<byte>, written: nat): (s: seq<byte>)
    ensures before <= after ==> before <= s
  {
    if |before| + written <= |after| then after[..|before| + written] else after
  }

  /** One event on the real journal; a crash is followed by a reopen. */
  function Step(width: nat, f: Feed, s: State, event: Event): (n: Option<State>)
    requires event.Rewind? || event.block < |f.blocks|
  {
    match event
    case Deliver(k) => Some(Ingested(width, s, f.blocks[k]).0)
    case CrashDuring(k, written) =>
      Open(width, s.disk.(records := Torn(s.disk.records, Ingested(width, s, f.blocks[k]).0.disk.records, written)))
    case Rewind(height, branch) => Some(Rewound(width, s, height))
  }

  /** The journal holds exactly the clean journal of the blocks the feed says it does. */
  ghost predicate InStep(width: nat, f: Feed, s: State) {
    Consistent(width, f.blocks) && f.done <= |f.blocks| && s == Clean(f.blocks[..f.done])
  }

  /** Any delivery that is not the next block, nor the unnoticed skip, changes nothing. */
  lemma DeliveryIgnored(width: nat, f: Feed, k: nat)
    requires Consistent(width, f.blocks) && f.done <= |f.blocks| && k < |f.blocks| && k != f.done && !UnnoticedSkip(f, k)
    ensures Ingested(width, Clean(f.blocks[..f.done]), f.blocks[k]).0 == Clean(f.blocks[..f.done])
  {
    hide Ingested, Clean, Consistent;
    if k < f.done {
      IngestEarlier(width, f.blocks, f.done, k);
    } else {
      IngestLater(width, f.blocks, f.done, k);
    }
  }

  lemma StepExact(width: nat, f: Feed, s: State, event: Event)
    requires InStep(width, f, s) && Allowed(width, f, event)
    ensures Step(width, f, s, event).Some? && InStep(width, Progress(f, event), Step(width, f, s, event).value)
  {
    hide Ingested, Clean, Consistent;
    match event
    case Deliver(k) =>
      if k == f.done {
        IngestNext(width, f.blocks, f.done);
      } else {
        DeliveryIgnored(width, f, k);
      }
    case CrashDuring(k, written) => CrashExact(width, f, k, written);
    case Rewind(height, branch) =>
      ConsistentPrefix(width, f.blocks, f.done);
      RewindIsReplay(width, f.blocks[..f.done], height);
      var keep := KeptBlocks(f.blocks[..f.done], height);
      assert f.blocks[..f.done][..keep] == f.blocks[..keep];
  }

  lemma CrashExact(width: nat, f: Feed, k: nat, written: nat)
    requires Consistent(width, f.blocks) && f.done <= |f.blocks| && k < |f.blocks| && !UnnoticedSkip(f, k)
    ensures Step(width, f, Clean(f.blocks[..f.done]), CrashDuring(k, written)) == Some(Clean(f.blocks[..f.done]))
  {
    hide Ingested, Open, Clean, Consistent, Torn;
    var clean := Clean(f.blocks[..f.done]);
    ConsistentPrefix(width, f.blocks, f.done);
    if k == f.done {
      IngestNext(width, f.blocks, f.done);
      CleanGrows(f.blocks, f.done);
    } else {
      DeliveryIgnored(width, f, k);
    }
    var after := Ingested(width, clean, f.blocks[k]).0.disk.records;
    OpenRecovers(width, f.blocks[..f.done], Torn(clean.disk.records, after, written));
  }

  lemma CleanGrows(blocks: seq<Block>, n: nat)
    requires n < |blocks|
    ensures Clean(blocks[..n]).disk.records <= Clean(blocks[..n + 1]).disk.records
  {
    assert blocks[..n + 1][..n] == blocks[..n];
    FlatAppend(AllRecords(blocks[..n]), blocks[n].records);
  }

  ghost predicate AllAllowed(width: nat, f: Feed, events: seq<Event>)
    decreases |events|
  {
    f.done <= |f.blocks|
    && (events != [] ==> Allowed(width, f, events[0]) && AllAllowed(width, Progress(f, events[0]), events[1..]))
  }

  /** The branch and how much of it is kept after all events. */
  ghost function FeedAfter(width: nat, f: Feed, events: seq<Event>): (n: Feed)
    requires AllAllowed(width, f, events)
    decreases |events|
  {
    if events == [] then f else FeedAfter(width, Progress(f, events[0]), events[1..])
  }

  /** The journal after all events, none as soon as a reopen fails. */
  ghost function Run(width: nat, f: Feed, s: State, events: seq<Event>): (n: Option<State>)
    requires AllAllowed(width, f, events)
    decreases |events|
  {
    if events == [] then Some(s)
    else
      var next :- Step(width, f, s, events[0]);
      Run(width, Progress(f, events[0]), next, events[1..])
  }

  /**
   Exactly-once ingest: in any run of deliveries in any order, re-deliveries, crashes inside append, and
   rewinds onto other branches no reopen fails, and the journal is that of one clean pass over exactly the
   blocks kept.
   */
  lemma {:induction false} RunExact(width: nat, f: Feed, s: State, events: seq<Event>)
    requires InStep(width, f, s) && AllAllowed(width, f, events)
    ensures Run(width, f, s, events).Some?
    ensures InStep(width, FeedAfter(width, f, events), Run(width, f, s, events).value)
    decreases |events|
  {
    hide Step, InStep, Progress;
    if events != [] {
      StepExact(width, f, s, events[0]);
      RunExact(width, Progress(f, events[0]), Step(width, f, s, events[0]).value, events[1..]);
    }
  }

  /** An empty journal is in step with any branch. */
  lemma FreshInStep(width: nat, blocks: seq<Block>)
    requires Consistent(width, blocks)
    ensures Open(width, Disk([], None)).Some? && InStep(width, Feed(blocks, 0), Open(width, Disk([], None)).value)
  {
    assert blocks[..0] == [];
  }

  // ---- the calls in plain terms ----

  /** A block can be appended: the next height, or any on an empty journal; whole records; and no overflow of the count. */
  ghost predicate Extends(width: nat, m: Manifest, height: nat, records: seq<Record>) {
    && (m.blocks == [] || height == m.blocks[|m.blocks| - 1].height + 1)
    && (forall x | x in records :: |x| == width)
    && m.treeSize + |records| < 0x1_0000_0000_0000_0000
  }

  /** Then the records follow the file, and the manifest lists the block with its first position and count. */
  ghost predicate ExtendedBy(s: State, n: State, height: nat, hash: string, records: seq<Record>) {
    && n.disk.records == s.disk.records + Flat(records) && n.disk.manifest == Some(n.manifest)
    && n.manifest.treeSize == s.manifest.treeSize + |records|
    && |n.manifest.blocks| == |s.manifest.blocks| + 1 && n.manifest.blocks[..|s.manifest.blocks|] == s.manifest.blocks
    && n.manifest.blocks[|s.manifest.blocks|] == BlockEntry(height, hash, s.manifest.treeSize, |records|)
  }

  lemma AppendExactly(width: nat, s: State, height: nat, hash: string, records: seq<Record>)
    ensures var (n, r) := Appended(width, s, height, hash, records);
      && (r.Ok? <==> Extends(width, s.manifest, height, records))
      && (r.Ok? ==> ExtendedBy(s, n, height, hash, records))
      && (r.Err? ==> n.manifest == s.manifest && n.disk.manifest == s.disk.manifest && s.disk.records <= n.disk.records)
  {
    hide Flat;
    assert Sized(width, records) <==> forall x | x in records :: |x| == width;
  }

  /** The block is already there: the journal's last block is at its height or above. */
  ghost predicate Known(m: Manifest, height: nat) {
    m.blocks != [] && height <= m.blocks[|m.blocks| - 1].height
  }

  /** The records of the block that the journal lacks. */
  ghost function Lacking(m: Manifest, block: Block): (r: seq<Record>)
    requires m.treeSize <= block.treeSize <= m.treeSize + |block.records|
  {
    block.records[|block.records| - (block.treeSize - m.treeSize)..]
  }

  lemma IngestExactly(width: nat, s: State, block: Block)
    ensures var (n, r) := Ingested(width, s, block);
      var m := s.manifest;
      if Known(m, block.height) then n == s && r == Ok(())
      else if block.treeSize < |block.records| then n == s && r == Err(ExceedsTree)
      else if !(m.treeSize <= block.treeSize <= m.treeSize + |block.records|) then n == s && r == Err(Discontinuous)
      else
        && (r.Ok? <==> Extends(width, m, block.height, Lacking(m, block)))
        && (r.Ok? ==> ExtendedBy(s, n, block.height, block.hash, Lacking(m, block)) && n.manifest.treeSize == block.treeSize)
        && (r.Err? ==> n.manifest == m)
  {
    hide Appended, Extends, ExtendedBy;
    var m := s.manifest;
    if m.treeSize <= block.treeSize <= m.treeSize + |block.records| && !Known(m, block.height) && block.treeSize >= |block.records| {
      SizeCheckNeverFires(width, s, block);
      AppendExactly(width, s, block.height, block.hash, Lacking(m, block));
      SizesAdd(s, Appended(width, s, block.height, block.hash, Lacking(m, block)).0, block.height, block.hash, Lacking(m, block));
    }
  }

  lemma SizesAdd(s: State, n: State, height: nat, hash: string, records: seq<Record>)
    ensures ExtendedBy(s, n, height, hash, records) ==> n.manifest.treeSize == s.manifest.treeSize + |records|
  {
  }

  /** A rewind keeps the leading blocks at or below the height, and none without one. */
  ghost predicate KeepsUpTo(before: seq<BlockEntry>, after: seq<BlockEntry>, height: Option<nat>) {
    && after <= before && (height.None? ==> after == [])
    && (height.Some? ==>
          && (forall i :: 0 <= i < |after| ==> after[i].height <= height.value)
          && (|after| < |before| ==> before[|after|].height > height.value))
  }

  /** A journal opens when its file holds every record its manifest counts, and the byte count fits a word. */
  ghost predicate Complete(width: nat, disk: Disk) {
    disk.manifest.Some? ==>
      disk.manifest.value.treeSize * width < 0x1_0000_0000_0000_0000 && disk.manifest.value.treeSize * width <= |disk.records|
  }

  lemma OpenExactly(width: nat, disk: Disk)
    ensures Open(width, disk).Some? <==> Complete(width, disk)
    ensures Open(width, disk).Some? ==>
      var n := Open(width, disk).value;
      && n.manifest == (if disk.manifest.Some? then disk.manifest.value else Manifest(0, []))
      && n.disk.records <= disk.records && |n.disk.records| == n.manifest.treeSize * width && n.disk.manifest == Some(n.manifest)
  {
  }

  /** A crash can leave any length between the file before the append and the one after it. */
  lemma TornReaches(before: seq<byte>, after: seq<byte>, n: nat)
    requires before <= after && |before| <= n <= |after|
    ensures Torn(before, after, n - |before|) == after[..n]
  {
  }

  // ---- the journal object ----

  class RecordJournal {
    const width: nat
    var disk: Disk
    var manifest: Manifest

    ghost function Now(): (s: State)
      reads this
    {
      State(disk, manifest)
    }

    constructor (width: nat, s: State)
      ensures this.width == width && Now() == s
    {
      this.width := width;
      disk := s.disk;
      manifest := s.manifest;
    }

    /** Checks first, then writes record by record, then replaces the manifest. */
    method AppendBlock(height: nat, hash: string, records: seq<Record>) returns (r: Result<(), JournalError>)
      modifies this
      ensures (Now(), r) == Appended(width, old(Now()), height, hash, records)
      ensures r.Ok? <==> Extends(width, old(manifest), height, records)
      ensures r.Ok? ==> ExtendedBy(old(Now()), Now(), height, hash, records)
      ensures r.Err? ==> manifest == old(manifest)
    {
      AppendExactly(width, Now(), height, hash, records);
      if manifest.blocks != [] && height != manifest.blocks[|manifest.blocks| - 1].height + 1 {
        return Err(OutOfOrder);
      }
      if exists i :: 0 <= i < |records| && |records[i]| != width {
        return Err(BadRecord);
      }
      var bytes := disk.records;
      assert disk.records + Flat(records[..0]) == disk.records;
      for i := 0 to |records|
        invariant bytes == disk.records + Flat(records[..i])
      {
        assert records[..i + 1][..i] == records[..i];
        bytes := bytes + records[i];
      }
      assert records[..|records|] == records;
      disk := disk.(records := bytes);
      if manifest.treeSize + |records| >= U64_LIMIT {
        return Err(Overflow);
      }
      manifest := Manifest(manifest.treeSize + |records|,
                           manifest.blocks + [BlockEntry(height, hash, manifest.treeSize, |records|)]);
      disk := disk.(manifest := Some(manifest));
      return Ok(());
    }

    method Ingest(block: Block) returns (r: Result<(), JournalError>)
      modifies this
      ensures (Now(), r) == Ingested(width, old(Now()), block)
      ensures r != Err(SizeMismatch)
      ensures Known(old(manifest), block.height) ==> r.Ok? && Now() == old(Now())
      ensures !Known(old(manifest), block.height) ==>
        (r.Ok? <==> (&& |block.records| <= block.treeSize && old(manifest).treeSize <= block.treeSize <= old(manifest).treeSize + |block.records|
                     && Extends(width, old(manifest), block.height, Lacking(old(manifest), block))))
      ensures !Known(old(manifest), block.height) && r.Ok? ==>
        manifest.treeSize == block.treeSize && ExtendedBy(old(Now()), Now(), block.height, block.hash, Lacking(old(manifest), block))
    {
      hide Extends, ExtendedBy, Appended;
      IngestExactly(width, Now(), block);
      SizeCheckNeverFires(width, Now(), block);
      if manifest.blocks != [] && manifest.blocks[|manifest.blocks| - 1].height >= block.height {
        return Ok(());
      }
      if block.treeSize < |block.records| {
        return Err(ExceedsTree);
      }
      var first := block.treeSize - |block.records|;
      if manifest.treeSize < first || manifest.treeSize > block.treeSize {
        return Err(Discontinuous);
      }
      r := AppendBlock(block.height, block.hash, block.records[manifest.treeSize - first..]);
      if r.Ok? && manifest.treeSize != block.treeSize {
        return Err(SizeMismatch);
      }
    }

    /** Cuts the records file, then the manifest. */
    method RewindToHeight(height: Option<nat>)
      modifies this
      ensures Now() == Rewound(width, old(Now()), height)
      ensures KeepsUpTo(old(manifest).blocks, manifest.blocks, height) && disk.manifest == Some(manifest)
      ensures |disk.records| == manifest.treeSize * width
    {
      var keep := KeepFor(manifest.blocks, height);
      var size := KeptSize(manifest.blocks, keep);
      disk := disk.(records := Resized(disk.records, size * width));
      manifest := Manifest(size, manifest.blocks[..keep]);
      disk := disk.(manifest := Some(manifest));
    }
  }

  method OpenJournal(width: nat, disk: Disk) returns (r: Option<RecordJournal>)
    ensures r.Some? <==> Open(width, disk).Some?
    ensures r.Some? ==> fresh(r.value) && r.value.width == width && r.value.Now() == Open(width, disk).value
    ensures r.Some? <==> Complete(width, disk)
    ensures r.Some? ==> r.value.disk.records <= disk.records && |r.value.disk.records| == r.value.manifest.treeSize * width
  {
    OpenExactly(width, disk);
    var m := Committed(disk);
    if m.treeSize * width >= U64_LIMIT || |disk.records| < m.treeSize * width {
      return None;
    }
    var journal := new RecordJournal(width, State(Disk(disk.records[..m.treeSize * width], Some(m)), m));
    return Some(journal);
  }
}
