/** When a replica answers right for a published generation, exactly. */
module Replicas {
  import opened Bytes
  import opened Results
  import opened ShardEvaluation
  import opened Worker
  import opened Arithmetic
  import opened Generations
  import opened Agreement
  import opened Answers

  /** Full-width rows of reduced plaintext coefficients, as the shard kernel reads them. */
  ghost predicate Plain(p: Parameters, table: Table, rows: Matrix) {
    && |rows| == p.shardRows(table)
    && forall r :: 0 <= r < |rows| ==> |rows[r]| == p.cols(table) && Canonical(p.q(table), rows[r])
  }

  ghost predicate PlainPlan(p: Parameters, table: Table, plan: Plan) {
    forall id | id in plan.contents :: Plain(p, table, plan.contents[id])
  }

  /** Whatever is asked of the activation's group, an answer is the sum over the rows its plan published. */
  ghost predicate RightAnswers(p: Parameters, s: Worker.State, b: Activation)
    requires p.Valid() && b.table in b.attempt.plans
  {
    var plan := b.attempt.plans[b.table];
    forall query: Vector | |query| == plan.logicalRows && Sliceable(query, p.shardRows(b.table), plan.slots) :: Right(p, s, b, query)
  }

  ghost predicate Right(p: Parameters, s: Worker.State, b: Activation, query: Vector)
    requires p.Valid() && b.table in b.attempt.plans && Sliceable(query, p.shardRows(b.table), b.attempt.plans[b.table].slots)
  {
    var plan := b.attempt.plans[b.table];
    var requests, e := Asked(p, b.table, plan, b.group, query), EvaluationOf(p, b.table, plan, query);
    var r := Evaluated(p, s.active, s.shards, b.table, b.attempt.generation, requests, false);
    r.Ok? ==> Answerable(e, requests) && r.value == WorkerSum(e, requests)
  }

  lemma HeldIsRight(p: Parameters, s: Worker.State, b: Activation)
    requires p.Valid() && Injective(p.digest) && Sound(p, s) && b.table in b.attempt.plans
    requires ValidPlan(p, b.table, b.attempt.plans[b.table]) && Holds(p, s, b)
    ensures RightAnswers(p, s, b)
  {
    hide Evaluated, Sound, Holds, ValidPlan, Sliceable, Asked, WorkerSum, Answerable, EvaluationOf, Injective;
    var plan := b.attempt.plans[b.table];
    forall query: Vector | |query| == plan.logicalRows && Sliceable(query, p.shardRows(b.table), plan.slots)
      ensures Right(p, s, b, query)
    {
      var r := Evaluated(p, s.active, s.shards, b.table, b.attempt.generation, Asked(p, b.table, plan, b.group, query), false);
      if r.Ok? {
        HeldAnswer(p, s, s, b, query, false, r.value);
      }
    }
  }

  lemma {:induction false} RequestsOfGroup(query: Vector, shardRows: nat, slots: seq<Slot>, group: Group, i: nat)
    requires Sliceable(query, shardRows, slots) && i < |Requests(query, shardRows, slots, group)|
    ensures exists k ::
      && 0 <= k < |slots| && slots[k].group == group
      && Requests(query, shardRows, slots, group)[i] == ShardQuery(slots[k].id, Slice(query, shardRows, slots[k]))
  {
    hide Slice;
    var n := |slots| - 1;
    var head := Requests(query, shardRows, slots[..n], group);
    if i < |head| {
      RequestsOfGroup(query, shardRows, slots[..n], group, i);
      var k :| 0 <= k < n && slots[..n][k].group == group
        && head[i] == ShardQuery(slots[..n][k].id, Slice(query, shardRows, slots[..n][k]));
      assert slots[..n][k] == slots[k];
    }
  }

  lemma {:induction false} RequestsDistinct(query: Vector, shardRows: nat, slots: seq<Slot>, group: Group)
    requires Sliceable(query, shardRows, slots) && forall k :: 0 <= k < |slots| ==> slots[k].id == k
    ensures forall i, j :: 0 <= i < j < |Requests(query, shardRows, slots, group)| ==>
      Requests(query, shardRows, slots, group)[i].id != Requests(query, shardRows, slots, group)[j].id
  {
    hide Slice;
    if slots != [] {
      var n := |slots| - 1;
      RequestsDistinct(query, shardRows, slots[..n], group);
      var head := Requests(query, shardRows, slots[..n], group);
      forall i | 0 <= i < |head|
        ensures head[i].id < n
      {
        RequestsOfGroup(query, shardRows, slots[..n], group, i);
      }
    }
  }

  /** A request of the group is complete for any assignment of the same shards. */
  lemma AskedComplete(p: Parameters, b: Activation, query: Vector, assignment: Assignment)
    requires b.table in b.attempt.plans && ValidPlan(p, b.table, b.attempt.plans[b.table])
    requires Sliceable(query, p.shardRows(b.table), b.attempt.plans[b.table].slots)
    requires assignment.Keys == Assigned(p, b).Keys
    ensures Complete(assignment, Asked(p, b.table, b.attempt.plans[b.table], b.group, query))
  {
    hide Requests, GroupShards, AssignmentOf, Sliceable;
    var plan := b.attempt.plans[b.table];
    var requests := Asked(p, b.table, plan, b.group, query);
    RequestsDistinct(query, p.shardRows(b.table), plan.slots, b.group);
    PlanIds(p, b.table, plan);
    forall i | 0 <= i < |requests|
      ensures requests[i].id in assignment
    {
      assert Names(requests, requests[i].id);
      RequestedIds(p, b.table, plan, plan.slots, b.group, query, requests[i].id);
    }
    forall id | id in assignment
      ensures exists i :: 0 <= i < |requests| && requests[i].id == id
    {
      RequestedIds(p, b.table, plan, plan.slots, b.group, query, id);
      assert Names(requests, id);
    }
  }

  /** With every shard cached and the query well shaped, the sum succeeds. */
  lemma {:induction false} SumSucceeds(p: Parameters, shards: map<ShardKey, Runtime>, table: Table, assignment: Assignment,
                                       requests: seq<ShardQuery>)
    requires p.q(table) >= 2 && forall i :: 0 <= i < |requests| ==> requests[i].id in assignment
    requires forall i :: 0 <= i < |requests| ==>
      var key := ShardKey(table, requests[i].id, assignment[requests[i].id]);
      && key in shards && |requests[i].coefficients| == |shards[key].rows| && Canonical(p.q(table), requests[i].coefficients)
    ensures SumShards(p, shards, table, assignment, requests).Ok?
  {
    hide Product;
    if requests != [] {
      SumSucceeds(p, shards, table, assignment, requests[..|requests| - 1]);
    }
  }

  /** Two different full-width matrices differ in some cell. */
  lemma PlainDiffer(p: Parameters, table: Table, one: Matrix, two: Matrix) returns (row: nat, col: nat)
    requires Plain(p, table, one) && Plain(p, table, two) && one != two
    ensures row < p.shardRows(table) && col < p.cols(table) && one[row][col] != two[row][col]
    ensures Cell(one[row], col) < p.q(table) && Cell(two[row], col) < p.q(table) && Cell(one[row], col) != Cell(two[row], col)
  {
    row :| 0 <= row < |one| && one[row] != two[row];
    col :| 0 <= col < |one[row]| && one[row][col] != two[row][col];
  }

  lemma {:induction false} AssignedSlot(p: Parameters, plan: Plan, slots: seq<Slot>, group: Group, id: nat)
    requires id in AssignmentOf(GroupShards(p, plan, slots, group))
    ensures exists k :: 0 <= k < |slots| && slots[k].id == id && slots[k].group == group
  {
    if slots != [] {
      var n := |slots| - 1;
      var head, all := GroupShards(p, plan, slots[..n], group), GroupShards(p, plan, slots, group);
      if all != head {
        assert all[..|all| - 1] == head;
      }
      if id in AssignmentOf(head) {
        AssignedSlot(p, plan, slots[..n], group, id);
        var k :| 0 <= k < n && slots[..n][k].id == id && slots[..n][k].group == group;
        assert slots[k].id == id && slots[k].group == group;
      }
    }
  }

  lemma PlanDisjoint(p: Parameters, table: Table, plan: Plan)
    requires ValidPlan(p, table, plan)
    ensures Disjoint(plan.slots, p.shardRows(table))
  {
    var size := p.shardRows(table);
    forall i, j | 0 <= i < j < |plan.slots|
      ensures plan.slots[i].start + size <= plan.slots[j].start
    {
      assert plan.slots[i].start == i * size && plan.slots[j].start == j * size;
      MulMonotone(i + 1, j, size);
      MulSuccessor(i, size);
    }
  }

  /** The published rows with the group's shards replaced by what another activation named. */
  ghost function Mixed(p: Parameters, a: Activation, b: Activation, query: Vector): (e: Evaluation)
    requires a.table in a.attempt.plans && b.table in b.attempt.plans
  {
    var mine := b.attempt.plans[b.table].contents;
    var theirs := a.attempt.plans[a.table].contents;
    EvaluationOf(p, b.table, b.attempt.plans[b.table], query).(
      contents := map id | id in mine :: if id in Assigned(p, b) && id in theirs then theirs[id] else mine[id])
  }

  /** What the worker then answers: the other activation's rows. */
  lemma OverwrittenAnswer(p: Parameters, s: Worker.State, a: Activation, b: Activation, query: Vector)
    requires p.Valid() && Injective(p.digest) && Sound(p, s)
    requires a.table in a.attempt.plans && b.table in b.attempt.plans && a.table == b.table
    requires a.attempt.generation == b.attempt.generation && Assigned(p, a).Keys == Assigned(p, b).Keys
    requires ValidPlan(p, a.table, a.attempt.plans[a.table]) && ValidPlan(p, b.table, b.attempt.plans[b.table])
    requires a.attempt.generation in s.active && a.table in s.active[a.attempt.generation]
    requires s.active[a.attempt.generation][a.table] == Assigned(p, a) && AllCached(s.shards, map[a.table := Assigned(p, a)])
    requires Sliceable(query, p.shardRows(b.table), b.attempt.plans[b.table].slots) && Canonical(p.q(b.table), query)
    ensures var requests := Asked(p, b.table, b.attempt.plans[b.table], b.group, query);
      && Answerable(Mixed(p, a, b, query), requests)
      && Evaluated(p, s.active, s.shards, b.table, b.attempt.generation, requests, false)
           == Ok(WorkerSum(Mixed(p, a, b, query), requests))
  {
    hide SumShards, Sliceable, WorkerSum, Complete, ValidPlan, Assigned, ShardsSound, ArtifactsSound, Faithful, Requests, Injective;
    var table, assignment := b.table, Assigned(p, a);
    var plan := b.attempt.plans[table];
    var requests := Asked(p, table, plan, b.group, query);
    AskedComplete(p, b, query, assignment);
    CompleteIn(assignment, requests);
    AssignedFaithful(p, a);
    FaithfulRows(p, s.shards, s.clock, table, assignment, a.attempt.plans[table]);
    AssignedFaithful(p, b);
    forall i | 0 <= i < |requests|
      ensures CachedShard(p, s, a, b, query, requests[i])
    {
      CachedFor(p, s, a, b, query, i);
    }
    SumSucceeds(p, s.shards, table, assignment, requests);
    SumShardsExact(p, s.shards, table, assignment, requests, Mixed(p, a, b, query));
  }

  ghost predicate CachedShard(p: Parameters, s: Worker.State, a: Activation, b: Activation, query: Vector, request: ShardQuery)
    requires a.table in a.attempt.plans && b.table in b.attempt.plans
  {
    && request.id in Assigned(p, a)
    && var key := ShardKey(b.table, request.id, Assigned(p, a)[request.id]);
    && key in s.shards && |request.coefficients| == |s.shards[key].rows| && Canonical(p.q(b.table), request.coefficients)
    && request.id in Mixed(p, a, b, query).contents && Mixed(p, a, b, query).contents[request.id] == s.shards[key].rows
  }

  lemma CachedFor(p: Parameters, s: Worker.State, a: Activation, b: Activation, query: Vector, i: nat)
    requires Injective(p.digest) && Sound(p, s)
    requires a.table in a.attempt.plans && b.table in b.attempt.plans && a.table == b.table
    requires a.attempt.generation == b.attempt.generation && Assigned(p, a).Keys == Assigned(p, b).Keys
    requires ValidPlan(p, a.table, a.attempt.plans[a.table]) && ValidPlan(p, b.table, b.attempt.plans[b.table])
    requires a.attempt.generation in s.active && a.table in s.active[a.attempt.generation]
    requires s.active[a.attempt.generation][a.table] == Assigned(p, a) && AllCached(s.shards, map[a.table := Assigned(p, a)])
    requires Sliceable(query, p.shardRows(b.table), b.attempt.plans[b.table].slots) && Canonical(p.q(b.table), query)
    requires i < |Asked(p, b.table, b.attempt.plans[b.table], b.group, query)|
    ensures CachedShard(p, s, a, b, query, Asked(p, b.table, b.attempt.plans[b.table], b.group, query)[i])
  {
    hide Requests, Assigned, Sound, Injective, ValidPlan, Sliceable, Asked;
    var requests := Asked(p, b.table, b.attempt.plans[b.table], b.group, query);
    RequestShape(p, b, query, i);
    CachedKey(p, s, a, requests[i].id);
    MixedAt(p, a, b, query, requests[i].id);
  }

  lemma RequestShape(p: Parameters, b: Activation, query: Vector, i: nat)
    requires b.table in b.attempt.plans && ValidPlan(p, b.table, b.attempt.plans[b.table])
    requires Sliceable(query, p.shardRows(b.table), b.attempt.plans[b.table].slots) && Canonical(p.q(b.table), query)
    requires i < |Asked(p, b.table, b.attempt.plans[b.table], b.group, query)|
    ensures var request := Asked(p, b.table, b.attempt.plans[b.table], b.group, query)[i];
      && request.id in Assigned(p, b)
      && |request.coefficients| == p.shardRows(b.table) && Canonical(p.q(b.table), request.coefficients)
  {
    hide Requests, Assigned, ValidPlan;
    var plan := b.attempt.plans[b.table];
    AskedComplete(p, b, query, Assigned(p, b));
    CompleteIn(Assigned(p, b), Asked(p, b.table, plan, b.group, query));
    RequestsOfGroup(query, p.shardRows(b.table), plan.slots, b.group, i);
  }

  lemma CachedKey(p: Parameters, s: Worker.State, a: Activation, id: nat)
    requires Injective(p.digest) && Sound(p, s) && a.table in a.attempt.plans && id in Assigned(p, a)
    requires ValidPlan(p, a.table, a.attempt.plans[a.table])
    requires a.attempt.generation in s.active && a.table in s.active[a.attempt.generation]
    requires s.active[a.attempt.generation][a.table] == Assigned(p, a) && AllCached(s.shards, map[a.table := Assigned(p, a)])
    ensures var key, plan := ShardKey(a.table, id, Assigned(p, a)[id]), a.attempt.plans[a.table];
      && key in s.shards && id in plan.contents && s.shards[key].rows == plan.contents[id]
      && |s.shards[key].rows| == p.shardRows(a.table)
  {
    hide ArtifactsSound, Injective, ShardsSound, Faithful, ValidPlan, GroupShards, AssignmentOf;
    var plan := a.attempt.plans[a.table];
    var tables: Tables := map[a.table := Assigned(p, a)];
    assert ShardKey(a.table, id, tables[a.table][id]) in s.shards;
    AssignedFaithful(p, a);
    FaithfulRows(p, s.shards, s.clock, a.table, Assigned(p, a), plan);
    ContentSize(p, a.table, plan, a.group, id);
  }

  lemma MixedAt(p: Parameters, a: Activation, b: Activation, query: Vector, id: nat)
    requires a.table in a.attempt.plans && b.table in b.attempt.plans && a.table == b.table
    requires id in Assigned(p, a) && id in Assigned(p, b)
    ensures id in Mixed(p, a, b, query).contents && id in a.attempt.plans[a.table].contents
    ensures Mixed(p, a, b, query).contents[id] == a.attempt.plans[a.table].contents[id]
  {
    hide Assigned;
    AssignedFaithful(p, a);
    AssignedFaithful(p, b);
  }

  /** The shards an activation names are whole shards of its plan. */
  lemma ContentSize(p: Parameters, table: Table, plan: Plan, group: Group, id: nat)
    requires ValidPlan(p, table, plan) && id in AssignmentOf(GroupShards(p, plan, plan.slots, group))
    ensures id < |plan.slots| && plan.slots[id].group == group && id in plan.contents && |plan.contents[id]| == p.shardRows(table)
  {
    hide GroupShards, AssignmentOf;
    AssignedSlot(p, plan, plan.slots, group, id);
  }

  lemma MixedUsable(p: Parameters, a: Activation, b: Activation, query: Vector)
    requires a.table in a.attempt.plans && b.table in b.attempt.plans && a.table == b.table
    requires Assigned(p, a).Keys == Assigned(p, b).Keys && |query| == b.attempt.plans[b.table].logicalRows
    requires ValidPlan(p, a.table, a.attempt.plans[a.table]) && ValidPlan(p, b.table, b.attempt.plans[b.table])
    ensures Usable(Mixed(p, a, b, query), b.attempt.plans[b.table].slots)
  {
    hide ValidPlan, GroupShards, AssignmentOf, Sliceable;
    var plan := b.attempt.plans[b.table];
    ValidPlanSliceable(p, b.table, plan, query);
    var e := Mixed(p, a, b, query);
    forall k | 0 <= k < |plan.slots|
      ensures plan.slots[k].id in e.contents && |e.contents[plan.slots[k].id]| == e.shardRows
    {
      var id := plan.slots[k].id;
      if id in Assigned(p, b) {
        MixedAt(p, a, b, query, id);
        ContentSize(p, a.table, a.attempt.plans[a.table], a.group, id);
      }
    }
  }

  /** The shard on which two activations of the same shards disagree. */
  lemma Disagreement(p: Parameters, a: Activation, b: Activation) returns (id: nat)
    requires a.table in a.attempt.plans && b.table in b.attempt.plans && !SameDigests(p, a, b)
    ensures a.attempt.generation == b.attempt.generation && a.table == b.table && Assigned(p, a).Keys == Assigned(p, b).Keys
    ensures id in Assigned(p, a) && id in Assigned(p, b)
    ensures id in a.attempt.plans[a.table].contents && id in b.attempt.plans[b.table].contents
    ensures a.attempt.plans[a.table].contents[id] != b.attempt.plans[b.table].contents[id]
  {
    hide Assigned;
    AssignedFaithful(p, a);
    AssignedFaithful(p, b);
    id :| id in Assigned(p, a) && Assigned(p, a)[id] != Assigned(p, b)[id];
  }

  /** A worker whose assignment was overwritten gives a wrong answer to some query. */
  lemma OverwrittenIsWrong(p: Parameters, s: Worker.State, a: Activation, b: Activation) returns (query: Vector)
    requires p.Valid() && Injective(p.digest) && Sound(p, s)
    requires a.table in a.attempt.plans && b.table in b.attempt.plans && !SameDigests(p, a, b)
    requires ValidPlan(p, a.table, a.attempt.plans[a.table]) && ValidPlan(p, b.table, b.attempt.plans[b.table])
    requires PlainPlan(p, a.table, a.attempt.plans[a.table]) && PlainPlan(p, b.table, b.attempt.plans[b.table])
    requires a.attempt.generation in s.active && a.table in s.active[a.attempt.generation]
    requires s.active[a.attempt.generation][a.table] == Assigned(p, a) && AllCached(s.shards, map[a.table := Assigned(p, a)])
    ensures |query| == b.attempt.plans[b.table].logicalRows
    ensures Sliceable(query, p.shardRows(b.table), b.attempt.plans[b.table].slots)
    ensures Evaluated(p, s.active, s.shards, b.table, b.attempt.generation,
                      Asked(p, b.table, b.attempt.plans[b.table], b.group, query), false).Ok?
    ensures !Right(p, s, b, query)
  {
    hide Evaluated, Asked, WorkerSum, ValidPlan, Assigned, Sound, Injective, Usable, Unit, Sliceable, SameDigests, Mixed, Cell;
    var table, plan := b.table, b.attempt.plans[b.table];
    var id := Disagreement(p, a, b);
    var mine, theirs := plan.contents[id], a.attempt.plans[a.table].contents[id];
    var row, col := PlainDiffer(p, table, theirs, mine);
    SlotOf(p, b, id);
    PlanDisjoint(p, table, plan);
    query := Unit(plan.logicalRows, plan.slots[id].start + row);
    UnitCanonical(p.q(table), plan.logicalRows, plan.slots[id].start + row);
    ValidPlanSliceable(p, table, plan, query);
    MixedUsable(p, a, b, query);
    MixedAt(p, a, b, query, id);
    OverwrittenAnswer(p, s, a, b, query);
    MixedShape(p, a, b, query);
    UnitAnswer(Mixed(p, a, b, query), plan.slots, b.group, id, row, col);
    UnitAnswer(EvaluationOf(p, table, plan, query), plan.slots, b.group, id, row, col);
    ModUnique(Cell(theirs[row], col), p.q(table), 0, Cell(theirs[row], col));
    ModUnique(Cell(mine[row], col), p.q(table), 0, Cell(mine[row], col));
    AskedIs(p, table, plan, b.group, query);
  }

  lemma AskedIs(p: Parameters, table: Table, plan: Plan, group: Group, query: Vector)
    requires Sliceable(query, p.shardRows(table), plan.slots)
    ensures Asked(p, table, plan, group, query) == Requests(query, p.shardRows(table), plan.slots, group)
  {
  }

  lemma MixedShape(p: Parameters, a: Activation, b: Activation, query: Vector)
    requires a.table in a.attempt.plans && b.table in b.attempt.plans
    ensures var e := Mixed(p, a, b, query);
      e.q == p.q(b.table) && e.cols == p.cols(b.table) && e.shardRows == p.shardRows(b.table) && e.query == query
  {
  }

  lemma UnitCanonical(q: u64, n: nat, at: nat)
    requires q >= 2
    ensures Canonical(q, Unit(n, at))
  {
  }

  lemma SlotOf(p: Parameters, b: Activation, id: nat)
    requires b.table in b.attempt.plans && ValidPlan(p, b.table, b.attempt.plans[b.table]) && id in Assigned(p, b)
    ensures var plan := b.attempt.plans[b.table];
      id < |plan.slots| && plan.slots[id].id == id && plan.slots[id].group == b.group
  {
    hide GroupShards, AssignmentOf;
    ContentSize(p, b.table, b.attempt.plans[b.table], b.group, id);
  }

  /** The worker lists the activation's table under its generation, and holds every shard listed. */
  ghost predicate Answering(s: Worker.State, b: Activation) {
    Lists(s, b) && AllCached(s.shards, map[b.table := s.active[b.attempt.generation][b.table]])
  }

  /** An evaluation that succeeds found every shard it needed. */
  lemma {:induction false} SumNeedsAll(p: Parameters, shards: map<ShardKey, Runtime>, table: Table, assignment: Assignment,
                                       requests: seq<ShardQuery>, i: nat)
    requires p.q(table) >= 2 && i < |requests| && forall i :: 0 <= i < |requests| ==> requests[i].id in assignment
    requires SumShards(p, shards, table, assignment, requests).Ok?
    ensures ShardKey(table, requests[i].id, assignment[requests[i].id]) in shards
    decreases |requests|
  {
    hide Evaluate;
    var n := |requests| - 1;
    if i < n {
      SumNeedsAll(p, shards, table, assignment, requests[..n], i);
    }
  }

  lemma OnlyAnsweringAnswers(p: Parameters, s: Worker.State, b: Activation, requests: seq<ShardQuery>)
    requires p.q(b.table) >= 2 && Evaluated(p, s.active, s.shards, b.table, b.attempt.generation, requests, false).Ok?
    ensures Answering(s, b)
  {
    hide SumShards;
    var assignment := s.active[b.attempt.generation][b.table];
    forall id | id in assignment
      ensures ShardKey(b.table, id, assignment[id]) in s.shards
    {
      var i :| 0 <= i < |requests| && requests[i].id == id;
      SumNeedsAll(p, s.shards, b.table, assignment, requests, i);
    }
  }

  ghost predicate AllPlain(p: Parameters, s: System) {
    forall a | a in s.sent :: a.table in a.attempt.plans && PlainPlan(p, a.table, a.attempt.plans[a.table])
  }

  /**
   The exact condition, in every reachable state and for every activation that reached its worker: each
   answer the replica gives for that generation and table is right if and only if it cannot answer, or
   the last request that took effect there names, for the same shards, the same digests.
   */
  lemma ReplicaExact(p: Parameters, s: System, b: Activation)
    requires p.Valid() && Injective(p.digest) && Inv(p, s) && AllPlain(p, s) && b in s.extended
    ensures Addressed(s, b)
    ensures RightAnswers(p, s.workers[b.worker], b) <==> (Answering(s.workers[b.worker], b) ==> Agrees(p, s, b))
  {
    hide Inv, Agrees, Holds, Right, Injective, PlainPlan, Evaluated, Answering;
    ExtendedFacts(p, s, b);
    var w := s.workers[b.worker];
    AgreesHolds(p, s, b);
    if Agrees(p, s, b) {
      HeldIsRight(p, w, b);
    } else if Answering(w, b) {
      WrongWhereDisagreed(p, s, b);
    } else {
      SilentIsRight(p, w, b);
    }
  }

  lemma ExtendedFacts(p: Parameters, s: System, b: Activation)
    requires Inv(p, s) && b in s.extended
    ensures b in s.sent && Addressed(s, b) && Sound(p, s.workers[b.worker]) && ValidPlan(p, b.table, b.attempt.plans[b.table])
  {
    hide Sound, ValidPlan, StandingTrue, Published, LatestValid;
  }

  lemma SilentIsRight(p: Parameters, s: Worker.State, b: Activation)
    requires p.Valid() && b.table in b.attempt.plans && !Answering(s, b)
    ensures RightAnswers(p, s, b)
  {
    hide Evaluated, Sliceable, Asked, WorkerSum, Answerable, EvaluationOf, Answering;
    var plan := b.attempt.plans[b.table];
    forall query: Vector | |query| == plan.logicalRows && Sliceable(query, p.shardRows(b.table), plan.slots)
      ensures Right(p, s, b, query)
    {
      var requests := Asked(p, b.table, plan, b.group, query);
      if Evaluated(p, s.active, s.shards, b.table, b.attempt.generation, requests, false).Ok? {
        OnlyAnsweringAnswers(p, s, b, requests);
      }
    }
  }

  lemma WrongWhereDisagreed(p: Parameters, s: System, b: Activation)
    requires p.Valid() && Injective(p.digest) && Inv(p, s) && AllPlain(p, s) && b in s.extended && Addressed(s, b)
    requires Answering(s.workers[b.worker], b) && !Agrees(p, s, b)
    ensures !RightAnswers(p, s.workers[b.worker], b)
  {
    hide Sound, ValidPlan, SameDigests, Right, Injective, PlainPlan, Assigned, GroupsReady, LatestValid, Published, AllCached, WorkersSound;
    var a := s.standing[Place(b)];
    ExtendedFacts(p, s, a);
    ExtendedFacts(p, s, b);
    var query := OverwrittenIsWrong(p, s.workers[b.worker], a, b);
    assert !Right(p, s.workers[b.worker], b, query);
  }
}
