/** Database geometry: positions to rows, rows to shards, and shards to the logical table. */
module Positions {
  import opened Bytes
  import opened Results
  import opened Journal
  import opened Arithmetic

  const SHARDS_PER_GROUP: nat := 6

  datatype Layout = Layout(recordBytes: nat, recordsPerRow: nat, shardRows: nat) {
    function RowBytes(): (n: nat) {
      recordBytes * recordsPerRow
    }

    function ShardPositions(): (n: nat) {
      shardRows * recordsPerRow
    }

    function ShardBytes(): (n: nat) {
      shardRows * RowBytes()
    }

    /** Records fill rows, and a shard holds a power of two of them. */
    ghost predicate Valid() {
      recordBytes > 0 && recordsPerRow > 0 && PowerOfTwo(shardRows)
    }
  }

  const ENHANCE_LAYOUT := Layout(725, 9, 8192)

  ghost predicate PowerOfTwo(n: nat) {
    exists e: nat :: n == Exp2(e)
  }

  function Exp2(e: nat): (n: nat)
    ensures n > 0
  {
    if e == 0 then 1 else 2 * Exp2(e - 1)
  }

  lemma EnhanceLayoutValid()
    ensures ENHANCE_LAYOUT.Valid()
  {
    assert Exp2(4) == 16;
    assert Exp2(8) == 16 * Exp2(4);
    assert Exp2(13) == 32 * Exp2(8);
  }

  // ---- geometry ----

  function UsedRows(layout: Layout, positions: nat): (n: nat)
    requires layout.recordsPerRow > 0
  {
    (positions + layout.recordsPerRow - 1) / layout.recordsPerRow
  }

  /** The least power of two that is at least `n`. */
  function NextPowerOfTwo(n: nat): (r: nat) {
    NextFrom(n, 0)
  }

  function NextFrom(n: nat, e: nat): (r: nat)
    decreases n - e
  {
    if Exp2(e) >= n || e >= n then Exp2(e) else NextFrom(n, e + 1)
  }

  function LogicalRows(layout: Layout, usedRows: nat): (n: nat) {
    NextPowerOfTwo(if usedRows > layout.shardRows then usedRows else layout.shardRows)
  }

  /** Row and slot of a position, as the client computes them. */
  function RowForPosition(layout: Layout, treeSize: nat, logicalRows: nat, position: nat): (r: Option<(nat, nat)>)
    requires layout.recordsPerRow > 0
  {
    if position >= treeSize || position / layout.recordsPerRow >= logicalRows then None
    else Some((position / layout.recordsPerRow, position % layout.recordsPerRow))
  }

  function ShardCount(layout: Layout, treeSize: nat): (n: nat)
    requires layout.ShardPositions() > 0
  {
    (if treeSize == 0 then 0 else treeSize - 1) / layout.ShardPositions() + 1
  }

  function Populated(layout: Layout, treeSize: nat, shard: nat): (n: nat) {
    var start := shard * layout.ShardPositions();
    var left := if treeSize > start then treeSize - start else 0;
    if left < layout.ShardPositions() then left else layout.ShardPositions()
  }

  function GroupIndexForShard(shard: nat, groups: nat): (r: Option<nat>) {
    if groups == 0 then None
    else if groups == 1 then Some(0)
    else if shard / SHARDS_PER_GROUP < groups then Some(shard / SHARDS_PER_GROUP) else None
  }

  /** `length` bytes of a file, zero padded to `size`. */
  function PaddedSlice(bytes: seq<byte>, from: nat, length: nat, size: nat): (r: Option<seq<byte>>) {
    if from + length > |bytes| || length > size then None
    else Some(bytes[from..from + length] + Zeros(size - length))
  }

  /** The full padded shard. */
  function ShardRows(layout: Layout, bytes: seq<byte>, treeSize: nat, shard: nat): (r: Option<seq<byte>>) {
    var start := shard * layout.ShardPositions();
    if start >= treeSize then None
    else PaddedSlice(bytes, start * layout.recordBytes, Populated(layout, treeSize, shard) * layout.recordBytes, layout.ShardBytes())
  }

  /** A slice of a slice, `None` outside it. */
  function Within(s: seq<byte>, from: nat, length: nat, inner: nat, size: nat): (r: Option<seq<byte>>) {
    if from + length > |s| || inner + size > length then None else Some(s[from..from + length][inner..inner + size])
  }

  /** The record at a row and slot of a table. */
  function RecordInRow(layout: Layout, table: seq<byte>, row: nat, slot: nat): (r: Option<Record>) {
    Within(table, row * layout.RowBytes(), layout.RowBytes(), slot * layout.recordBytes, layout.recordBytes)
  }

  /** The shards' rows one after another, for the first `n` shards. */
  ghost function Joined(layout: Layout, bytes: seq<byte>, treeSize: nat, n: nat): (r: Option<seq<byte>>) {
    if n == 0 then Some([])
    else
      var head :- Joined(layout, bytes, treeSize, n - 1);
      var last :- ShardRows(layout, bytes, treeSize, n - 1);
      Some(head + last)
  }

  ghost function TotalPopulated(layout: Layout, treeSize: nat, n: nat): (t: nat) {
    if n == 0 then 0 else TotalPopulated(layout, treeSize, n - 1) + Populated(layout, treeSize, n - 1)
  }

  // ---- every shard lies inside the logical rows ----

  lemma {:induction false} ExpMonotone(a: nat, b: nat)
    requires a <= b
    ensures Exp2(a) <= Exp2(b)
    ensures exists k: nat :: Exp2(b) == k * Exp2(a)
    decreases b
  {
    if a < b {
      ExpMonotone(a, b - 1);
      var k: nat :| Exp2(b - 1) == k * Exp2(a);
      assert Exp2(b) == (2 * k) * Exp2(a);
    } else {
      assert Exp2(b) == 1 * Exp2(a);
    }
  }

  lemma {:induction false} ExpExceeds(e: nat)
    ensures Exp2(e) > e
  {
    if e > 0 {
      ExpExceeds(e - 1);
    }
  }

  lemma {:induction false} NextFromIsPower(n: nat, e: nat)
    ensures NextFrom(n, e) >= n
    ensures exists f: nat :: f >= e && NextFrom(n, e) == Exp2(f)
    decreases n - e
  {
    if Exp2(e) >= n || e >= n {
      ExpExceeds(e);
    } else {
      NextFromIsPower(n, e + 1);
    }
  }

  /** It is the least such power: every power of two that is at least `n` is at least as large. */
  lemma {:induction false} NextFromLeast(n: nat, e: nat, f: nat)
    requires e <= f && Exp2(f) >= n
    ensures NextFrom(n, e) <= Exp2(f)
    decreases n - e
  {
    if Exp2(e) >= n || e >= n {
      ExpMonotone(e, f);
    } else {
      assert e != f;
      NextFromLeast(n, e + 1, f);
    }
  }

  lemma {:induction false} DivideBound(n: nat, size: nat, blocks: nat)
    requires size > 0 && 0 < n <= blocks * size
    ensures (n - 1) / size < blocks
  {
    if (n - 1) / size >= blocks {
      var d := (n - 1) / size;
      assert d * size <= n - 1;
      MulMonotone(blocks, d, size);
    }
  }

  lemma ShardSize(layout: Layout)
    requires layout.Valid()
    ensures layout.ShardPositions() > 0
    ensures layout.ShardBytes() == layout.ShardPositions() * layout.recordBytes
  {
    var s, r, b := layout.shardRows, layout.recordsPerRow, layout.recordBytes;
    assert s > 0;
    MulMonotone(1, s, r);
    assert s * (b * r) == (s * r) * b;
  }

  lemma DivideCovers(t: nat, r: nat)
    requires r > 0
    ensures t <= (t + r - 1) / r * r
  {
    var d := (t + r - 1) / r;
    assert t + r - 1 == d * r + (t + r - 1) % r;
  }

  lemma LogicalIsMultiple(layout: Layout, used: nat)
    requires layout.Valid()
    ensures LogicalRows(layout, used) >= used
    ensures exists k: nat :: LogicalRows(layout, used) == k * layout.shardRows
  {
    var n := if used > layout.shardRows then used else layout.shardRows;
    var a: nat :| layout.shardRows == Exp2(a);
    NextFromIsPower(n, 0);
    var f: nat :| f >= 0 && NextFrom(n, 0) == Exp2(f);
    if f < a {
      ExpMonotone(f + 1, a);
      assert false;
    }
    ExpMonotone(a, f);
  }

  /** Every published shard's row range lies inside the logical rows. */
  lemma ShardsFit(layout: Layout, treeSize: nat)
    requires layout.Valid() && treeSize > 0
    ensures layout.ShardPositions() > 0
    ensures ShardCount(layout, treeSize) * layout.shardRows <= LogicalRows(layout, UsedRows(layout, treeSize))
  {
    hide LogicalRows, UsedRows;
    ShardSize(layout);
    var s, r, used := layout.shardRows, layout.recordsPerRow, UsedRows(layout, treeSize);
    var logical := LogicalRows(layout, used);
    LogicalIsMultiple(layout, used);
    var k: nat :| logical == k * s;
    UsedCovers(layout, treeSize);
    MulMonotone(used, logical, r);
    assert logical * r == k * (s * r);
    DivideBound(treeSize, s * r, k);
    MulMonotone(ShardCount(layout, treeSize), k, s);
  }

  lemma UsedCovers(layout: Layout, treeSize: nat)
    requires layout.recordsPerRow > 0
    ensures treeSize <= UsedRows(layout, treeSize) * layout.recordsPerRow
  {
    DivideCovers(treeSize, layout.recordsPerRow);
  }

  // ---- shards joined are the records, zero padded ----

  lemma ShardBounds(layout: Layout, treeSize: nat)
    requires layout.Valid() && treeSize > 0
    ensures layout.ShardPositions() > 0
    ensures var n, sp := ShardCount(layout, treeSize), layout.ShardPositions();
      n > 0 && (n - 1) * sp < treeSize <= n * sp && n * sp == (n - 1) * sp + sp
  {
    ShardSize(layout);
    var n, sp := ShardCount(layout, treeSize), layout.ShardPositions();
    assert treeSize - 1 == (n - 1) * sp + (treeSize - 1) % sp;
    MulSuccessor(n - 1, sp);
  }

  /** All shards but the last are full; the last holds the rest. */
  lemma PopulatedShards(layout: Layout, treeSize: nat, shard: nat)
    requires layout.Valid() && treeSize > 0 && layout.ShardPositions() > 0 && shard < ShardCount(layout, treeSize)
    ensures var sp := layout.ShardPositions();
      && shard * sp < treeSize
      && Populated(layout, treeSize, shard)
           == if shard + 1 < ShardCount(layout, treeSize) then sp else treeSize - shard * sp
  {
    var n, sp := ShardCount(layout, treeSize), layout.ShardPositions();
    ShardBounds(layout, treeSize);
    MulMonotone(shard, n - 1, sp);
    if shard + 1 < n {
      MulMonotone(shard + 1, n - 1, sp);
      MulSuccessor(shard, sp);
    }
  }

  lemma {:induction false} FullShardsCount(layout: Layout, treeSize: nat, m: nat)
    requires layout.Valid() && treeSize > 0 && layout.ShardPositions() > 0 && m < ShardCount(layout, treeSize)
    ensures TotalPopulated(layout, treeSize, m) == m * layout.ShardPositions()
    decreases m
  {
    hide Populated, ShardCount;
    if m > 0 {
      FullShardsCount(layout, treeSize, m - 1);
      PopulatedShards(layout, treeSize, m - 1);
      MulSuccessor(m - 1, layout.ShardPositions());
    }
  }

  /** The populated counts over the published shards sum to the number of records. */
  lemma PopulatedSums(layout: Layout, treeSize: nat)
    requires layout.Valid() && treeSize > 0
    ensures layout.ShardPositions() > 0
    ensures TotalPopulated(layout, treeSize, ShardCount(layout, treeSize)) == treeSize
  {
    hide Populated;
    ShardSize(layout);
    var n := ShardCount(layout, treeSize);
    FullShardsCount(layout, treeSize, n - 1);
    PopulatedShards(layout, treeSize, n - 1);
  }

  /** Byte offsets of a shard in the records file. */
  lemma ShardOffsets(layout: Layout, treeSize: nat, shard: nat)
    requires layout.Valid() && treeSize > 0 && layout.ShardPositions() > 0 && shard < ShardCount(layout, treeSize)
    ensures var size, last, total := layout.ShardBytes(), shard + 1 == ShardCount(layout, treeSize), treeSize * layout.recordBytes;
      var length := Populated(layout, treeSize, shard) * layout.recordBytes;
      && shard * layout.ShardPositions() * layout.recordBytes == shard * size
      && length <= size
      && shard * size + length <= total
      && (if last then shard * size + length == total else length == size)
  {
    hide ShardCount;
    var sp, b := layout.ShardPositions(), layout.recordBytes;
    var count := Populated(layout, treeSize, shard);
    ShardSize(layout);
    PopulatedShards(layout, treeSize, shard);
    MulAssociative(shard, sp, b);
    MulDistributes(shard * sp, count, b);
    MulMonotone(shard * sp + count, treeSize, b);
    MulMonotone(count, sp, b);
  }

  lemma ShardSlice(layout: Layout, bytes: seq<byte>, treeSize: nat, shard: nat, from: nat)
    requires layout.Valid() && treeSize > 0 && layout.ShardPositions() > 0 && shard < ShardCount(layout, treeSize)
    requires |bytes| == treeSize * layout.recordBytes && from == shard * layout.ShardBytes()
    ensures var size, last := layout.ShardBytes(), shard + 1 == ShardCount(layout, treeSize);
      && from <= |bytes|
      && (if last then |bytes| <= from + size else from + size <= |bytes|)
      && ShardRows(layout, bytes, treeSize, shard)
           == Some(if last then bytes[from..] + Zeros(from + size - |bytes|) else bytes[from..from + size])
  {
    hide ShardCount, Populated;
    ShardOffsets(layout, treeSize, shard);
    PopulatedShards(layout, treeSize, shard);
    var length := Populated(layout, treeSize, shard) * layout.recordBytes;
    SliceCases(bytes, from, length, layout.ShardBytes());
  }

  lemma SliceCases(bytes: seq<byte>, from: nat, length: nat, size: nat)
    requires length <= size && from + length <= |bytes|
    ensures from + length == |bytes| ==> PaddedSlice(bytes, from, length, size) == Some(bytes[from..] + Zeros(from + size - |bytes|))
    ensures length == size ==> PaddedSlice(bytes, from, length, size) == Some(bytes[from..from + size])
  {
    var part := bytes[from..from + length];
    assert from + length == |bytes| ==> part == bytes[from..];
    assert part + Zeros(0) == part;
  }

  /** Full shards joined are a prefix of the records file. */
  lemma {:induction false} JoinedPrefix(layout: Layout, bytes: seq<byte>, treeSize: nat, m: nat)
    requires layout.Valid() && treeSize > 0 && layout.ShardPositions() > 0 && m < ShardCount(layout, treeSize)
    requires |bytes| == treeSize * layout.recordBytes
    ensures m * layout.ShardBytes() <= |bytes|
    ensures Joined(layout, bytes, treeSize, m) == Some(bytes[..m * layout.ShardBytes()])
    decreases m
  {
    hide ShardRows, ShardCount, Joined;
    var size := layout.ShardBytes();
    ShardSlice(layout, bytes, treeSize, m, m * size);
    if m > 0 {
      JoinedPrefix(layout, bytes, treeSize, m - 1);
      ShardSlice(layout, bytes, treeSize, m - 1, (m - 1) * size);
      MulSuccessor(m - 1, size);
      assert m - 1 + 1 != ShardCount(layout, treeSize);
      JoinedStep(layout, bytes, treeSize, m, (m - 1) * size, m * size);
    } else {
      assert m * size == 0;
      assert bytes[..0] == [];
      JoinedNone(layout, bytes, treeSize);
    }
  }

  lemma JoinedNone(layout: Layout, bytes: seq<byte>, treeSize: nat)
    ensures Joined(layout, bytes, treeSize, 0) == Some([])
  {
  }

  lemma JoinedStep(layout: Layout, bytes: seq<byte>, treeSize: nat, m: nat, from: nat, to: nat)
    requires m > 0 && from <= to <= |bytes|
    requires Joined(layout, bytes, treeSize, m - 1) == Some(bytes[..from]) && ShardRows(layout, bytes, treeSize, m - 1) == Some(bytes[from..to])
    ensures Joined(layout, bytes, treeSize, m) == Some(bytes[..to])
  {
    hide ShardRows;
    assert bytes[..from] + bytes[from..to] == bytes[..to];
  }

  /** The published shards in order are the records file followed by zeros. */
  lemma JoinedIsPaddedFile(layout: Layout, bytes: seq<byte>, treeSize: nat)
    requires layout.Valid() && treeSize > 0 && |bytes| == treeSize * layout.recordBytes
    ensures layout.ShardPositions() > 0
    ensures var whole := ShardCount(layout, treeSize) * layout.ShardBytes();
      && |bytes| <= whole
      && Joined(layout, bytes, treeSize, ShardCount(layout, treeSize)) == Some(bytes + Zeros(whole - |bytes|))
  {
    hide ShardRows, Zeros;
    ShardSize(layout);
    var n, size := ShardCount(layout, treeSize), layout.ShardBytes();
    MulSuccessor(n - 1, size);
    JoinedPrefix(layout, bytes, treeSize, n - 1);
    ShardSlice(layout, bytes, treeSize, n - 1, (n - 1) * size);
    TailJoin(bytes, (n - 1) * size, Zeros(n * size - |bytes|));
  }

  lemma TailJoin(bytes: seq<byte>, from: nat, zeros: seq<byte>)
    requires from <= |bytes|
    ensures bytes[..from] + (bytes[from..] + zeros) == bytes + zeros
  {
  }

  // ---- positions pick out records ----

  lemma PositionSplit(layout: Layout, p: nat, t: nat, rows: nat)
    requires layout.Valid() && p < t <= rows * layout.recordsPerRow
    ensures var row, slot := p / layout.recordsPerRow, p % layout.recordsPerRow;
      && row < rows && slot < layout.recordsPerRow
      && row * layout.RowBytes() + slot * layout.recordBytes == p * layout.recordBytes
      && slot * layout.recordBytes + layout.recordBytes <= layout.RowBytes()
      && row * layout.RowBytes() + layout.RowBytes() <= rows * layout.RowBytes()
  {
    var r, b := layout.recordsPerRow, layout.recordBytes;
    var row, slot := p / r, p % r;
    assert p == row * r + slot;
    if row >= rows {
      MulMonotone(rows, row, r);
      assert false;
    }
    assert row * (b * r) + slot * b == (row * r + slot) * b;
    MulMonotone(slot + 1, r, b);
    MulSuccessor(slot, b);
    assert r * b == b * r;
    MulMonotone(row + 1, rows, b * r);
    MulSuccessor(row, b * r);
  }

  /**
   Position addressing: for every journal and every populated position, the client's row and slot pick
   exactly the record appended at that position out of the joined, padded shards.
   */
  lemma PositionPicksRecord(layout: Layout, records: seq<Record>, p: nat)
    requires layout.Valid() && Sized(layout.recordBytes, records) && p < |records|
    ensures layout.ShardPositions() > 0
    ensures var t := |records|;
      var table := Joined(layout, Flat(records), t, ShardCount(layout, t));
      var at := RowForPosition(layout, t, LogicalRows(layout, UsedRows(layout, t)), p);
      table.Some? && at.Some? && RecordInRow(layout, table.value, at.value.0, at.value.1) == Some(records[p])
  {
    hide Joined, LogicalRows, UsedRows, Flat, Zeros, ShardCount, RowForPosition, RecordInRow;
    var t, b := |records|, layout.recordBytes;
    ShardSize(layout);
    FlatAt(b, records, p);
    JoinedIsPaddedFile(layout, Flat(records), t);
    ShardsFit(layout, t);
    var n := ShardCount(layout, t);
    RowsAndBytes(layout, t, n);
    var table := Joined(layout, Flat(records), t, n).value;
    PositionIsByte(layout, table, t, n * layout.shardRows, LogicalRows(layout, UsedRows(layout, t)), p);
    SliceHead(Flat(records), Zeros(n * layout.ShardBytes() - |Flat(records)|), p * b, p * b + b);
  }

  lemma PositionIsByte(layout: Layout, table: seq<byte>, t: nat, rows: nat, logicalRows: nat, p: nat)
    requires layout.Valid() && p < t <= rows * layout.recordsPerRow && rows <= logicalRows
    requires |table| == rows * layout.RowBytes() && p * layout.recordBytes + layout.recordBytes <= |table|
    ensures var at := RowForPosition(layout, t, logicalRows, p);
      && at.Some?
      && RecordInRow(layout, table, at.value.0, at.value.1)
           == Some(table[p * layout.recordBytes..p * layout.recordBytes + layout.recordBytes])
  {
    hide RowForPosition, RecordInRow;
    RowExists(layout, t, rows, logicalRows, p);
    var (row, slot) := RowForPosition(layout, t, logicalRows, p).value;
    PickAt(layout, table, row, slot, p);
  }

  lemma PickAt(layout: Layout, table: seq<byte>, row: nat, slot: nat, p: nat)
    requires row * layout.RowBytes() + slot * layout.recordBytes == p * layout.recordBytes
    requires slot * layout.recordBytes + layout.recordBytes <= layout.RowBytes()
    requires row * layout.RowBytes() + layout.RowBytes() <= |table|
    ensures p * layout.recordBytes + layout.recordBytes <= |table|
    ensures RecordInRow(layout, table, row, slot)
            == Some(table[p * layout.recordBytes..p * layout.recordBytes + layout.recordBytes])
  {
    var b := layout.recordBytes;
    NestedSlice(table, row * layout.RowBytes(), layout.RowBytes(), slot * b, b, p * b);
  }

  lemma RowExists(layout: Layout, t: nat, rows: nat, logicalRows: nat, p: nat)
    requires layout.Valid() && p < t <= rows * layout.recordsPerRow && rows <= logicalRows
    ensures var at := RowForPosition(layout, t, logicalRows, p);
      && at.Some?
      && at.value.0 * layout.RowBytes() + at.value.1 * layout.recordBytes == p * layout.recordBytes
      && at.value.1 * layout.recordBytes + layout.recordBytes <= layout.RowBytes()
      && at.value.0 * layout.RowBytes() + layout.RowBytes() <= rows * layout.RowBytes()
  {
    PositionSplit(layout, p, t, rows);
  }

  lemma RowsAndBytes(layout: Layout, t: nat, n: nat)
    requires layout.Valid() && t > 0 && layout.ShardPositions() > 0 && n == ShardCount(layout, t)
    ensures t <= n * layout.shardRows * layout.recordsPerRow
    ensures n * layout.ShardBytes() == n * layout.shardRows * layout.RowBytes()
  {
    ShardBounds(layout, t);
    MulAssociative(n, layout.shardRows, layout.recordsPerRow);
    MulAssociative(n, layout.shardRows, layout.RowBytes());
  }

  lemma NestedSlice(s: seq<byte>, from: nat, length: nat, inner: nat, size: nat, at: nat)
    requires inner + size <= length && from + length <= |s| && at == from + inner
    ensures Within(s, from, length, inner, size) == Some(s[at..at + size])
  {
    var x, y := s[from..from + length][inner..inner + size], s[at..at + size];
    forall j | 0 <= j < size
      ensures x[j] == y[j]
    {
      assert x[j] == s[from..from + length][inner + j];
    }
    assert x == y;
  }

  /** The used rows are the fewest that hold the records. */
  lemma UsedRowsLeast(layout: Layout, positions: nat, rows: nat)
    requires layout.recordsPerRow > 0
    ensures positions <= rows * layout.recordsPerRow <==> UsedRows(layout, positions) <= rows
  {
    var r, u := layout.recordsPerRow, UsedRows(layout, positions);
    DivideCovers(positions, r);
    if u <= rows {
      MulMonotone(u, rows, r);
    } else {
      assert u * r <= positions + r - 1;
      MulMonotone(rows + 1, u, r);
      MulSuccessor(rows, r);
    }
  }

  /** The logical rows are the least power of two that holds the used rows and a whole shard. */
  lemma LogicalRowsLeast(layout: Layout, used: nat, n: nat)
    requires PowerOfTwo(n)
    ensures PowerOfTwo(LogicalRows(layout, used))
    ensures n >= used && n >= layout.shardRows <==> LogicalRows(layout, used) <= n
  {
    var least := if used > layout.shardRows then used else layout.shardRows;
    NextFromIsPower(least, 0);
    var f: nat :| n == Exp2(f);
    if n >= least {
      NextFromLeast(least, 0, f);
    }
  }

  /** A position has a row exactly when it is in the tree and the table; row and slot then count the records before it. */
  lemma RowExactly(layout: Layout, treeSize: nat, logicalRows: nat, position: nat)
    requires layout.recordsPerRow > 0
    ensures var r := RowForPosition(layout, treeSize, logicalRows, position);
      && (r.Some? <==> position < treeSize && position < logicalRows * layout.recordsPerRow)
      && (r.Some? ==> r.value.0 * layout.recordsPerRow + r.value.1 == position && r.value.1 < layout.recordsPerRow)
  {
    var n := layout.recordsPerRow;
    var row := position / n;
    assert position == row * n + position % n;
    if row < logicalRows {
      MulMonotone(row + 1, logicalRows, n);
      MulSuccessor(row, n);
    } else {
      MulMonotone(logicalRows, row, n);
    }
  }

  /** Each group owns a contiguous run of six shards; with several groups, the excess is refused. */
  lemma GroupsAreRuns(shard: nat, groups: nat, group: nat)
    requires groups > 1
    ensures GroupIndexForShard(shard, groups) == Some(group)
            <==> group < groups && 6 * group <= shard < 6 * (group + 1)
    ensures GroupIndexForShard(shard, groups).None? <==> shard >= 6 * groups
    ensures GroupIndexForShard(shard, 1) == Some(0) && GroupIndexForShard(shard, 0).None?
  {
    SixFold(shard, groups);
    SixFold(shard, group);
    SixFold(shard, group + 1);
  }

  lemma SixFold(shard: nat, n: nat)
    ensures shard / 6 < n <==> shard < 6 * n
  {
    assert 6 * (shard / 6) <= shard < 6 * (shard / 6) + 6;
  }

  // ---- reading a shard ----

  /** Fills a zeroed buffer with part of the file. */
  method CopyPadded(bytes: seq<byte>, from: nat, length: nat, size: nat) returns (r: Option<seq<byte>>)
    ensures r == PaddedSlice(bytes, from, length, size)
  {
    if from + length > |bytes| || length > size {
      return None;
    }
    var rows := new byte[size](_ => 0);
    for i := 0 to length
      invariant forall k :: 0 <= k < i ==> rows[k] == bytes[from + k]
      invariant forall k :: i <= k < rows.Length ==> rows[k] == 0
    {
      rows[i] := bytes[from + i];
    }
    assert rows[..] == bytes[from..from + length] + Zeros(size - length);
    return Some(rows[..]);
  }

  method ReadShardRows(layout: Layout, journal: RecordJournal, shard: nat) returns (r: Option<seq<byte>>)
    ensures r == ShardRows(layout, journal.disk.records, journal.manifest.treeSize, shard)
  {
    hide PaddedSlice;
    var positions := layout.ShardPositions();
    var start := shard * positions;
    if start >= journal.manifest.treeSize {
      return None;
    }
    var left := journal.manifest.treeSize - start;
    var available := if left < positions then left else positions;
    r := CopyPadded(journal.disk.records, start * layout.recordBytes, available * layout.recordBytes, layout.ShardBytes());
  }
}
