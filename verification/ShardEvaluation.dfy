/** First-dimension evaluation: row shards, vectors modulo q, and the sum of every worker's partial. */
module ShardEvaluation {
  import opened Bytes
  import opened Results
  import opened Sorting
  import opened Arithmetic

  type Vector = seq<u64>

  /** A shard's plaintext coefficients, one vector per row. */
  type Matrix = seq<Vector>

  type Group = string

  datatype EvaluationError = BadModulus | WidthMismatch | NotReduced | QueryShape | NoPartials | Unavailable

  /** A published shard: its number, first global row and owning worker group. */
  datatype Slot = Slot(id: nat, start: nat, group: Group)

  datatype ShardQuery = ShardQuery(id: nat, coefficients: Vector)

  // ---- vectors modulo q ----

  predicate Canonical(q: u64, v: Vector) {
    forall i :: 0 <= i < |v| ==> v[i] < q
  }

  function ZeroVector(cols: nat): (v: Vector)
    ensures |v| == cols && forall i :: 0 <= i < cols ==> v[i] == 0
  {
    seq(cols, _ => 0)
  }

  function AddMod(q: u64, a: Vector, b: Vector): (v: Vector)
    requires q > 0 && |a| == |b|
    ensures |v| == |a| && Canonical(q, v)
  {
    seq(|a|, i requires 0 <= i < |a| => (a[i] + b[i]) % q)
  }

  /** Vectors added one by one into a zero accumulator. */
  function Fold(q: u64, cols: nat, vectors: seq<Vector>): (v: Vector)
    requires q > 0 && forall i :: 0 <= i < |vectors| ==> |vectors[i]| == cols
    ensures |v| == cols && Canonical(q, v)
  {
    if vectors == [] then ZeroVector(cols)
    else AddMod(q, Fold(q, cols, vectors[..|vectors| - 1]), vectors[|vectors| - 1])
  }

  predicate Addable(q: u64, a: Vector, b: Vector) {
    q >= 2 && |a| == |b| && Canonical(q, a) && Canonical(q, b)
  }

  /** Adds in place; refuses a modulus below two, different widths and any unreduced coefficient. */
  method AddIntermediateAssignMod(accumulator: array<u64>, contribution: Vector, modulus: u64)
    returns (r: Result<(), EvaluationError>)
    modifies accumulator
    ensures r.Ok? <==> Addable(modulus, old(accumulator[..]), contribution)
    ensures r.Ok? ==> accumulator[..] == AddMod(modulus, old(accumulator[..]), contribution)
    ensures r.Ok? <==>
      (modulus >= 2 && accumulator.Length == |contribution|
       && forall i :: 0 <= i < accumulator.Length ==> old(accumulator[i]) < modulus && contribution[i] < modulus)
    ensures r.Ok? ==> forall i :: 0 <= i < accumulator.Length ==> accumulator[i] == (old(accumulator[i]) + contribution[i]) % modulus
    ensures r.Err? ==> r.error == if modulus < 2 then BadModulus
                                  else if accumulator.Length != |contribution| then WidthMismatch
                                  else NotReduced
  {
    if modulus < 2 {
      return Err(BadModulus);
    }
    if accumulator.Length != |contribution| {
      return Err(WidthMismatch);
    }
    ghost var before := accumulator[..];
    for i := 0 to accumulator.Length
      invariant forall k :: 0 <= k < i ==> before[k] < modulus && contribution[k] < modulus
      invariant forall k :: 0 <= k < i ==> accumulator[k] == (before[k] + contribution[k]) % modulus
      invariant forall k :: i <= k < |before| ==> accumulator[k] == before[k]
    {
      if accumulator[i] >= modulus || contribution[i] >= modulus {
        assert before[i] >= modulus || contribution[i] >= modulus;
        return Err(NotReduced);
      }
      accumulator[i] := (accumulator[i] + contribution[i]) % modulus;
    }
    assert accumulator[..] == AddMod(modulus, before, contribution);
    return Ok(());
  }

  // ---- matrix-vector products ----

  function Cell(row: Vector, col: nat): (x: nat) {
    if col < |row| then row[col] else 0
  }

  /** One column of query times matrix, over the integers. */
  function Dot(query: Vector, rows: Matrix, col: nat): (x: nat)
    requires |query| == |rows|
  {
    if rows == [] then 0
    else query[0] * Cell(rows[0], col) + Dot(query[1..], rows[1..], col)
  }

  /** The whole product modulo q. */
  function Product(q: u64, cols: nat, query: Vector, rows: Matrix): (v: Vector)
    requires q > 0 && |query| == |rows|
    ensures |v| == cols && Canonical(q, v)
  {
    seq(cols, col requires 0 <= col < cols => Dot(query, rows, col) % q)
  }

  /** A shard refuses a query of the wrong length or with an unreduced coefficient. */
  function Evaluate(q: u64, cols: nat, query: Vector, rows: Matrix): (r: Result<Vector, EvaluationError>)
    requires q > 0
    ensures r.Ok? <==> |query| == |rows| && Canonical(q, query)
    ensures r.Ok? ==> |r.value| == cols && Canonical(q, r.value)
  {
    if |query| != |rows| then Err(QueryShape)
    else if !Canonical(q, query) then Err(NotReduced)
    else Ok(Product(q, cols, query, rows))
  }

  /** Everything one query is evaluated with: parameters, the decoded query and each shard's rows. */
  datatype Evaluation = Evaluation(q: u64, cols: nat, shardRows: nat, query: Vector, contents: map<nat, Matrix>)

  predicate Sliceable(query: Vector, shardRows: nat, slots: seq<Slot>) {
    forall k :: 0 <= k < |slots| ==> slots[k].start + shardRows <= |query|
  }

  function Slice(query: Vector, shardRows: nat, slot: Slot): (v: Vector)
    requires slot.start + shardRows <= |query|
  {
    query[slot.start..slot.start + shardRows]
  }

  /** The slices one group is asked for, in manifest order. */
  function Requests(query: Vector, shardRows: nat, slots: seq<Slot>, group: Group): (r: seq<ShardQuery>)
    requires Sliceable(query, shardRows, slots)
  {
    if slots == [] then []
    else
      var n := |slots| - 1;
      var head := Requests(query, shardRows, slots[..n], group);
      if slots[n].group == group then head + [ShardQuery(slots[n].id, Slice(query, shardRows, slots[n]))] else head
  }

  predicate Answerable(e: Evaluation, requests: seq<ShardQuery>) {
    && e.q > 0
    && forall k :: 0 <= k < |requests| ==>
         requests[k].id in e.contents && |requests[k].coefficients| == |e.contents[requests[k].id]|
  }

  function Partials(e: Evaluation, requests: seq<ShardQuery>): (r: seq<Vector>)
    requires Answerable(e, requests)
    ensures |r| == |requests| && forall k :: 0 <= k < |r| ==> |r[k]| == e.cols
  {
    seq(|requests|, k requires 0 <= k < |requests| =>
      Product(e.q, e.cols, requests[k].coefficients, e.contents[requests[k].id]))
  }

  /** What a worker returns for its shards. */
  function WorkerSum(e: Evaluation, requests: seq<ShardQuery>): (v: Vector)
    requires Answerable(e, requests)
    ensures |v| == e.cols && Canonical(e.q, v)
  {
    Fold(e.q, e.cols, Partials(e, requests))
  }

  /** Groups the query's slices by owner, as the coordinator does before it contacts workers. */
  method SliceByGroup(query: Vector, shardRows: nat, slots: seq<Slot>) returns (r: Option<map<Group, seq<ShardQuery>>>)
    ensures r.Some? <==> Sliceable(query, shardRows, slots)
    ensures r.Some? ==> r.value.Keys == set k | 0 <= k < |slots| :: slots[k].group
    ensures r.Some? ==> forall g | g in r.value :: r.value[g] == Requests(query, shardRows, slots, g)
    ensures r.Some? ==> forall g | g !in r.value :: Requests(query, shardRows, slots, g) == []
  {
    var byGroup: map<Group, seq<ShardQuery>> := map[];
    for i := 0 to |slots|
      invariant Sliceable(query, shardRows, slots[..i])
      invariant byGroup.Keys == set k | 0 <= k < i :: slots[k].group
      invariant forall g | g in byGroup :: byGroup[g] == Requests(query, shardRows, slots[..i], g)
      invariant forall g | g !in byGroup :: Requests(query, shardRows, slots[..i], g) == []
    {
      var slot := slots[i];
      if slot.start + shardRows > |query| {
        return None;
      }
      assert slots[..i + 1][..i] == slots[..i];
      var earlier := if slot.group in byGroup then byGroup[slot.group] else [];
      byGroup := byGroup[slot.group := earlier + [ShardQuery(slot.id, Slice(query, shardRows, slot))]];
    }
    assert slots[..|slots|] == slots;
    return Some(byGroup);
  }

  // ---- the sum of partials is the whole product ----

  lemma {:induction false} ModShift(x: nat, q: nat, k: nat)
    requires q > 0
    ensures (x + q * k) % q == x % q
    decreases k
  {
    if k > 0 {
      ModShift(x, q, k - 1);
      assert x + q * k == (x + q * (k - 1)) + q;
      ModStep(x + q * (k - 1), q);
    }
  }

  lemma ModStep(y: nat, q: nat)
    requires q > 0
    ensures (y + q) % q == y % q
  {
    var d := y / q;
    assert y == d * q + y % q;
    MulSuccessor(d, q);
    ModUnique(y + q, q, d + 1, y % q);
  }

  /** Reducing the summands first does not change a sum modulo q. */
  lemma ModAdd(a: nat, b: nat, q: nat)
    requires q > 0
    ensures (a % q + b % q) % q == (a + b) % q
  {
    var x := a % q + b % q;
    assert a + b == x + q * (a / q + b / q);
    ModShift(x, q, a / q + b / q);
  }

  lemma {:induction false} DotSplit(query: Vector, rows: Matrix, at: nat, col: nat)
    requires |query| == |rows| && at <= |rows|
    ensures Dot(query, rows, col) == Dot(query[..at], rows[..at], col) + Dot(query[at..], rows[at..], col)
  {
    if at > 0 {
      DotSplit(query[1..], rows[1..], at - 1, col);
      assert query[..at][1..] == query[1..][..at - 1] && rows[..at][1..] == rows[1..][..at - 1];
      assert query[1..][at - 1..] == query[at..] && rows[1..][at - 1..] == rows[at..];
    } else {
      assert query[0..] == query && rows[0..] == rows;
    }
  }

  ghost predicate ZeroRows(rows: Matrix) {
    forall k, c :: 0 <= k < |rows| ==> Cell(rows[k], c) == 0
  }

  lemma {:induction false} DotOfZeros(query: Vector, rows: Matrix, col: nat)
    requires |query| == |rows| && ZeroRows(rows)
    ensures Dot(query, rows, col) == 0
  {
    if rows != [] {
      DotOfZeros(query[1..], rows[1..], col);
      assert Cell(rows[0], col) == 0;
    }
  }

  /**
   The published database: shard k's rows sit at rows [k * S, (k + 1) * S) of the whole, and every
   row no shard covers is zero padding.
   */
  ghost predicate Whole(e: Evaluation, slots: seq<Slot>, whole: Matrix) {
    && |slots| * e.shardRows <= |whole| == |e.query|
    && (forall k :: 0 <= k < |slots| ==> Placed(e, slots, whole, k))
    && ZeroRows(whole[|slots| * e.shardRows..])
  }

  ghost predicate Placed(e: Evaluation, slots: seq<Slot>, whole: Matrix, k: nat)
    requires k < |slots|
  {
    && slots[k].start == k * e.shardRows
    && slots[k].start + e.shardRows <= |whole|
    && slots[k].id in e.contents
    && e.contents[slots[k].id] == whole[slots[k].start..slots[k].start + e.shardRows]
  }

  function SlotDot(e: Evaluation, slot: Slot, col: nat): (x: nat)
    requires slot.start + e.shardRows <= |e.query|
    requires slot.id in e.contents && |e.contents[slot.id]| == e.shardRows
  {
    Dot(Slice(e.query, e.shardRows, slot), e.contents[slot.id], col)
  }

  ghost predicate Usable(e: Evaluation, slots: seq<Slot>) {
    && Sliceable(e.query, e.shardRows, slots)
    && forall k :: 0 <= k < |slots| ==> slots[k].id in e.contents && |e.contents[slots[k].id]| == e.shardRows
  }

  /** The integer sum of the shards one group owns, in one column. */
  ghost function GroupDots(e: Evaluation, slots: seq<Slot>, group: Group, col: nat): (x: nat)
    requires Usable(e, slots)
  {
    if slots == [] then 0
    else
      var n := |slots| - 1;
      GroupDots(e, slots[..n], group, col) + if slots[n].group == group then SlotDot(e, slots[n], col) else 0
  }

  ghost function AllDots(e: Evaluation, slots: seq<Slot>, col: nat): (x: nat)
    requires Usable(e, slots)
  {
    if slots == [] then 0
    else AllDots(e, slots[..|slots| - 1], col) + SlotDot(e, slots[|slots| - 1], col)
  }

  lemma {:induction false} RequestsAnswerable(e: Evaluation, slots: seq<Slot>, group: Group)
    requires Usable(e, slots) && e.q > 0
    ensures Answerable(e, Requests(e.query, e.shardRows, slots, group))
  {
    if slots != [] {
      var n := |slots| - 1;
      RequestsAnswerable(e, slots[..n], group);
      var head := Requests(e.query, e.shardRows, slots[..n], group);
      assert forall k :: 0 <= k < |head| ==> head[k].id in e.contents;
    }
  }

  /** A group's answer is its integer sum, reduced. */
  lemma {:induction false} GroupAnswer(e: Evaluation, slots: seq<Slot>, group: Group, col: nat)
    requires Usable(e, slots) && e.q > 0 && col < e.cols
    ensures Answerable(e, Requests(e.query, e.shardRows, slots, group))
    ensures WorkerSum(e, Requests(e.query, e.shardRows, slots, group))[col] == GroupDots(e, slots, group, col) % e.q
  {
    hide Dot, Answerable, WorkerSum, Requests, GroupDots, SlotDot;
    RequestsAnswerable(e, slots, group);
    if slots == [] {
      NothingAsked(e, group, col);
    } else {
      var n := |slots| - 1;
      GroupAnswer(e, slots[..n], group, col);
      GroupStep(e, slots, group, col);
      if slots[n].group == group {
        WorkerSumMore(e, Requests(e.query, e.shardRows, slots[..n], group), ShardQuery(slots[n].id, Slice(e.query, e.shardRows, slots[n])), col);
        ModAdd(GroupDots(e, slots[..n], group, col), SlotDot(e, slots[n], col), e.q);
      }
    }
  }

  lemma GroupStep(e: Evaluation, slots: seq<Slot>, group: Group, col: nat)
    requires Usable(e, slots) && slots != []
    ensures var n := |slots| - 1;
      var slot, head := slots[n], Requests(e.query, e.shardRows, slots[..n], group);
      && Requests(e.query, e.shardRows, slots, group)
           == (if slot.group == group then head + [ShardQuery(slot.id, Slice(e.query, e.shardRows, slot))] else head)
      && GroupDots(e, slots, group, col) == GroupDots(e, slots[..n], group, col) + (if slot.group == group then SlotDot(e, slot, col) else 0)
      && SlotDot(e, slot, col) == Dot(Slice(e.query, e.shardRows, slot), e.contents[slot.id], col)
  {
    hide Dot;
  }

  lemma NothingAsked(e: Evaluation, group: Group, col: nat)
    requires e.q > 0 && col < e.cols
    ensures Requests(e.query, e.shardRows, [], group) == [] && Answerable(e, []) && WorkerSum(e, [])[col] == 0
    ensures Usable(e, []) && GroupDots(e, [], group, col) == 0
  {
  }

  /** One more shard adds its own column. */
  lemma WorkerSumMore(e: Evaluation, head: seq<ShardQuery>, last: ShardQuery, col: nat)
    requires Answerable(e, head) && Answerable(e, head + [last]) && col < e.cols
    ensures last.id in e.contents && |last.coefficients| == |e.contents[last.id]|
    ensures WorkerSum(e, head + [last])[col]
         == (WorkerSum(e, head)[col] + Dot(last.coefficients, e.contents[last.id], col) % e.q) % e.q
  {
    hide Dot;
    var all := head + [last];
    assert all[|head|] == last;
    assert Partials(e, all)[..|head|] == Partials(e, head);
  }

  ghost function SumOver(e: Evaluation, slots: seq<Slot>, order: seq<Group>, col: nat): (x: nat)
    requires Usable(e, slots)
  {
    if order == [] then 0
    else SumOver(e, slots, order[..|order| - 1], col) + GroupDots(e, slots, order[|order| - 1], col)
  }

  lemma {:induction false} SumOverNoSlots(e: Evaluation, order: seq<Group>, col: nat)
    requires Usable(e, [])
    ensures SumOver(e, [], order, col) == 0
  {
    if order != [] {
      SumOverNoSlots(e, order[..|order| - 1], col);
    }
  }

  /** One more slot adds its product to exactly the group that owns it. */
  lemma {:induction false} SumOverStep(e: Evaluation, slots: seq<Slot>, order: seq<Group>, col: nat)
    requires Usable(e, slots) && slots != [] && Distinct(order)
    ensures var last := slots[|slots| - 1];
      SumOver(e, slots, order, col)
        == SumOver(e, slots[..|slots| - 1], order, col) + if last.group in order then SlotDot(e, last, col) else 0
  {
    hide SlotDot;
    if order != [] {
      var m := |order| - 1;
      SumOverStep(e, slots, order[..m], col);
      assert order == order[..m] + [order[m]];
      assert order[m] !in order[..m];
    }
  }

  /** Every slot is counted once, whichever group owns it and in whatever order the groups come. */
  lemma {:induction false} GroupsPartition(e: Evaluation, slots: seq<Slot>, order: seq<Group>, col: nat)
    requires Usable(e, slots) && Distinct(order)
    requires forall k :: 0 <= k < |slots| ==> slots[k].group in order
    ensures SumOver(e, slots, order, col) == AllDots(e, slots, col)
  {
    if slots == [] {
      SumOverNoSlots(e, order, col);
    } else {
      GroupsPartition(e, slots[..|slots| - 1], order, col);
      SumOverStep(e, slots, order, col);
    }
  }

  lemma WholeUsable(e: Evaluation, slots: seq<Slot>, whole: Matrix)
    requires Whole(e, slots, whole)
    ensures Usable(e, slots)
  {
    forall k | 0 <= k < |slots|
      ensures slots[k].start + e.shardRows <= |e.query|
      ensures slots[k].id in e.contents && |e.contents[slots[k].id]| == e.shardRows
    {
      assert Placed(e, slots, whole, k);
    }
  }

  lemma {:induction false} PrefixDots(e: Evaluation, slots: seq<Slot>, whole: Matrix, n: nat, col: nat)
    requires Whole(e, slots, whole) && Usable(e, slots) && n <= |slots| && n * e.shardRows <= |whole|
    ensures AllDots(e, slots[..n], col) == Dot(e.query[..n * e.shardRows], whole[..n * e.shardRows], col)
  {
    hide Dot, ZeroRows;
    if n == 0 {
      assert slots[..0] == [];
      EmptyDot(e.query[..0], whole[..0], col);
    } else {
      var from, to := (n - 1) * e.shardRows, n * e.shardRows;
      assert to == from + e.shardRows;
      PrefixDots(e, slots, whole, n - 1, col);
      assert slots[..n][..n - 1] == slots[..n - 1];
      assert Placed(e, slots, whole, n - 1);
      DotSplit(e.query[..to], whole[..to], from, col);
      assert e.query[..to][..from] == e.query[..from] && whole[..to][..from] == whole[..from];
      assert e.query[..to][from..] == e.query[from..to] && whole[..to][from..] == whole[from..to];
    }
  }

  lemma EmptyDot(query: Vector, rows: Matrix, col: nat)
    requires query == [] && rows == []
    ensures Dot(query, rows, col) == 0
  {
  }

  lemma ShardsAreWhole(e: Evaluation, slots: seq<Slot>, whole: Matrix, col: nat)
    requires Whole(e, slots, whole) && Usable(e, slots)
    ensures AllDots(e, slots, col) == Dot(e.query, whole, col)
  {
    hide Dot;
    var end := |slots| * e.shardRows;
    PrefixDots(e, slots, whole, |slots|, col);
    assert slots[..|slots|] == slots;
    DotSplit(e.query, whole, end, col);
    DotOfZeros(e.query[end..], whole[end..], col);
  }

  /** The partials in the order the groups' answers arrive. */
  ghost function Arrivals(e: Evaluation, slots: seq<Slot>, order: seq<Group>): (r: seq<Vector>)
    requires Usable(e, slots) && e.q > 0
    ensures |r| == |order| && forall i :: 0 <= i < |r| ==> |r[i]| == e.cols
  {
    seq(|order|, i requires 0 <= i < |order| =>
      RequestsAnswerable(e, slots, order[i]);
      WorkerSum(e, Requests(e.query, e.shardRows, slots, order[i])))
  }

  lemma OneArrival(e: Evaluation, slots: seq<Slot>, order: seq<Group>, col: nat)
    requires Usable(e, slots) && e.q > 0 && col < e.cols && order != []
    ensures var m := |order| - 1;
      Fold(e.q, e.cols, Arrivals(e, slots, order))[col]
      == (Fold(e.q, e.cols, Arrivals(e, slots, order[..m]))[col] + GroupDots(e, slots, order[m], col) % e.q) % e.q
  {
    hide WorkerSum, GroupDots, Requests;
    var m := |order| - 1;
    assert Arrivals(e, slots, order)[..m] == Arrivals(e, slots, order[..m]);
    GroupAnswer(e, slots, order[m], col);
  }

  lemma {:induction false} FoldArrivals(e: Evaluation, slots: seq<Slot>, order: seq<Group>, col: nat)
    requires Usable(e, slots) && e.q > 0 && col < e.cols
    ensures Fold(e.q, e.cols, Arrivals(e, slots, order))[col] == SumOver(e, slots, order, col) % e.q
  {
    hide GroupDots, Arrivals;
    if order != [] {
      var m := |order| - 1;
      FoldArrivals(e, slots, order[..m], col);
      OneArrival(e, slots, order, col);
      ModAdd(SumOver(e, slots, order[..m], col), GroupDots(e, slots, order[m], col), e.q);
    }
  }

  /**
   Distributed evaluation refines the monolithic one: whatever the assignment of shards to groups and
   the arrival order of the groups' partials, the combined vector is the query times the whole
   zero-padded database, and every coefficient is a canonical residue.
   */
  lemma DistributedEqualsMonolithic(e: Evaluation, slots: seq<Slot>, whole: Matrix, order: seq<Group>)
    requires e.q > 0 && Whole(e, slots, whole)
    requires Distinct(order) && forall k :: 0 <= k < |slots| ==> slots[k].group in order
    ensures Usable(e, slots)
    ensures Fold(e.q, e.cols, Arrivals(e, slots, order)) == Product(e.q, e.cols, e.query, whole)
  {
    hide Dot, Arrivals, Fold;
    WholeUsable(e, slots, whole);
    var combined, product := Fold(e.q, e.cols, Arrivals(e, slots, order)), Product(e.q, e.cols, e.query, whole);
    forall col | 0 <= col < e.cols
      ensures combined[col] == product[col]
    {
      FoldArrivals(e, slots, order, col);
      GroupsPartition(e, slots, order, col);
      ShardsAreWhole(e, slots, whole, col);
    }
  }

  // ---- queries that read one row ----

  /** The query that selects one row. */
  function Unit(n: nat, at: nat): (v: Vector)
    ensures |v| == n
  {
    seq(n, i => if i == at then 1 else 0)
  }

  lemma {:induction false} DotOfNothing(query: Vector, rows: Matrix, col: nat)
    requires |query| == |rows| && forall i :: 0 <= i < |query| ==> query[i] == 0
    ensures Dot(query, rows, col) == 0
  {
    if rows != [] {
      DotOfNothing(query[1..], rows[1..], col);
    }
  }

  lemma {:induction false} DotOfUnit(query: Vector, rows: Matrix, at: nat, col: nat)
    requires |query| == |rows| && at < |rows| && query[at] == 1
    requires forall i :: 0 <= i < |query| && i != at ==> query[i] == 0
    ensures Dot(query, rows, col) == Cell(rows[at], col)
  {
    if at == 0 {
      DotOfNothing(query[1..], rows[1..], col);
    } else {
      DotOfUnit(query[1..], rows[1..], at - 1, col);
    }
  }

  /** Slots do not overlap in the query. */
  ghost predicate Disjoint(slots: seq<Slot>, shardRows: nat) {
    forall i, j :: 0 <= i < j < |slots| ==> slots[i].start + shardRows <= slots[j].start
  }

  lemma UnitSlot(e: Evaluation, slots: seq<Slot>, k: nat, j: nat, row: nat, col: nat)
    requires Usable(e, slots) && Disjoint(slots, e.shardRows) && k < |slots| && j < |slots| && row < e.shardRows
    requires e.query == Unit(|e.query|, slots[k].start + row)
    ensures SlotDot(e, slots[j], col) == if j == k then Cell(e.contents[slots[k].id][row], col) else 0
  {
    hide Dot;
    var slice := Slice(e.query, e.shardRows, slots[j]);
    if j == k {
      DotOfUnit(slice, e.contents[slots[j].id], row, col);
    } else {
      DotOfNothing(slice, e.contents[slots[j].id], col);
    }
  }

  /** A group that owns the selected row's shard returns that row; the sum of the others is zero. */
  lemma {:induction false} UnitGroup(e: Evaluation, slots: seq<Slot>, n: nat, group: Group, k: nat, row: nat, col: nat)
    requires Usable(e, slots) && Disjoint(slots, e.shardRows) && k < |slots| && n <= |slots| && row < e.shardRows
    requires e.query == Unit(|e.query|, slots[k].start + row) && slots[k].group == group
    ensures GroupDots(e, slots[..n], group, col) == if k < n then Cell(e.contents[slots[k].id][row], col) else 0
    decreases n
  {
    hide SlotDot, Cell;
    if n > 0 {
      UnitGroup(e, slots, n - 1, group, k, row, col);
      assert slots[..n][..n - 1] == slots[..n - 1];
      UnitSlot(e, slots, k, n - 1, row, col);
    }
  }

  /** A group's answer to such a query, column by column. */
  lemma UnitAnswer(e: Evaluation, slots: seq<Slot>, group: Group, k: nat, row: nat, col: nat)
    requires Usable(e, slots) && Disjoint(slots, e.shardRows) && k < |slots| && row < e.shardRows && col < e.cols && e.q > 0
    requires e.query == Unit(|e.query|, slots[k].start + row) && slots[k].group == group
    ensures Answerable(e, Requests(e.query, e.shardRows, slots, group))
    ensures WorkerSum(e, Requests(e.query, e.shardRows, slots, group))[col] == Cell(e.contents[slots[k].id][row], col) % e.q
  {
    hide Cell, GroupDots, Requests;
    GroupAnswer(e, slots, group, col);
    UnitGroup(e, slots, |slots|, group, k, row, col);
    assert slots[..|slots|] == slots;
  }

  // ---- one partial is its own sum ----

  lemma FoldOne(q: u64, cols: nat, v: Vector)
    requires q > 0 && |v| == cols && Canonical(q, v)
    ensures Fold(q, cols, [v]) == v
  {
    assert [v][..0] == [];
    assert Fold(q, cols, [v][..0]) == ZeroVector(cols);
    assert Fold(q, cols, [v]) == AddMod(q, ZeroVector(cols), v);
    var sum := Fold(q, cols, [v]);
    forall i | 0 <= i < cols
      ensures sum[i] == v[i]
    {
      ModUnique(v[i], q, 0, v[i]);
    }
  }

  // ---- the coordinator's accumulation loop ----

  /** One column of the vectors, added up over the integers. */
  ghost function ColumnSum(vectors: seq<Vector>, col: nat): (x: nat)
    requires forall i :: 0 <= i < |vectors| ==> col < |vectors[i]|
  {
    if vectors == [] then 0 else ColumnSum(vectors[..|vectors| - 1], col) + vectors[|vectors| - 1][col]
  }

  lemma {:induction false} FoldColumn(q: u64, cols: nat, vectors: seq<Vector>, col: nat)
    requires q > 0 && (forall i :: 0 <= i < |vectors| ==> |vectors[i]| == cols) && col < cols
    ensures Fold(q, cols, vectors)[col] == ColumnSum(vectors, col) % q
  {
    if vectors != [] {
      var n := |vectors| - 1;
      FoldColumn(q, cols, vectors[..n], col);
      ModAddRight(ColumnSum(vectors[..n], col), vectors[n][col], q);
    }
  }

  lemma ModAddRight(a: nat, b: nat, q: nat)
    requires q > 0
    ensures (a % q + b) % q == (a + b) % q
  {
    ModAdd(a % q, b, q);
    ModAdd(a, b, q);
    ModUnique(a % q, q, 0, a % q);
  }

  predicate Acceptable(q: u64, cols: nat, arrivals: seq<Result<Vector, EvaluationError>>) {
    forall i :: 0 <= i < |arrivals| ==> arrivals[i].Ok? && |arrivals[i].value| == cols && Canonical(q, arrivals[i].value)
  }

  function Values(arrivals: seq<Result<Vector, EvaluationError>>): (r: seq<Vector>)
    requires forall i :: 0 <= i < |arrivals| ==> arrivals[i].Ok?
    ensures |r| == |arrivals| && forall i :: 0 <= i < |r| ==> r[i] == arrivals[i].value
  {
    seq(|arrivals|, i requires 0 <= i < |arrivals| => arrivals[i].value)
  }

  /** One failed or malformed partial fails the query; otherwise the answer is the sum of all of them. */
  method Combine(q: u64, cols: nat, arrivals: seq<Result<Vector, EvaluationError>>)
    returns (r: Result<Vector, EvaluationError>)
    requires q >= 2
    ensures r.Ok? <==> arrivals != [] && Acceptable(q, cols, arrivals)
    ensures r.Ok? ==> r.value == Fold(q, cols, Values(arrivals))
    ensures r.Ok? ==> |r.value| == cols && forall col :: 0 <= col < cols ==> r.value[col] == ColumnSum(Values(arrivals), col) % q
    ensures arrivals == [] ==> r == Err(NoPartials)
  {
    var combined := new u64[cols](_ => 0);
    assert combined[..] == ZeroVector(cols);
    for i := 0 to |arrivals|
      invariant Acceptable(q, cols, arrivals[..i])
      invariant combined[..] == Fold(q, cols, Values(arrivals[..i]))
    {
      if arrivals[i].Err? {
        return Err(arrivals[i].error);
      }
      assert Values(arrivals[..i + 1])[..i] == Values(arrivals[..i]);
      var added := AddIntermediateAssignMod(combined, arrivals[i].value, q);
      if added.Err? {
        return Err(added.error);
      }
    }
    forall col | 0 <= col < cols && arrivals != []
      ensures Fold(q, cols, Values(arrivals))[col] == ColumnSum(Values(arrivals), col) % q
    {
      FoldColumn(q, cols, Values(arrivals), col);
    }
    assert arrivals[..|arrivals|] == arrivals;
    if arrivals == [] {
      return Err(NoPartials);
    }
    return Ok(combined[..]);
  }
}
