/** Answering queries: replicas, retries and sums over a run of the generation lifecycle. */
module Answers {
  import opened Bytes
  import opened Results
  import opened Sorting
  import opened ShardEvaluation
  import opened Worker
  import opened Arithmetic
  import opened Generations
  import opened Agreement

  ghost predicate Injective(digest: Matrix -> Digest) {
    forall a, b :: digest(a) == digest(b) ==> a == b
  }

  function EvaluationOf(p: Parameters, table: Table, plan: Plan, query: Vector): (e: Evaluation) {
    Evaluation(p.q(table), p.cols(table), p.shardRows(table), query, plan.contents)
  }

  lemma {:induction false} ConcatenatedAt(p: Parameters, table: Table, plan: Plan, n: nat, k: nat)
    requires ValidPlan(p, table, plan) && k < n <= |plan.slots|
    ensures var size := p.shardRows(table);
      && |Concatenated(plan, n)| == n * size && 0 <= k * size && k * size + size <= n * size
      && Concatenated(plan, n)[k * size..k * size + size] == plan.contents[k]
    decreases n
  {
    var size := p.shardRows(table);
    assert |plan.contents[n - 1]| == size by {
      assert plan.slots[n - 1].id == n - 1;
    }
    MulSuccessor(n - 1, size);
    if n > 1 {
      ConcatenatedAt(p, table, plan, n - 1, if k < n - 1 then k else 0);
    }
    JoinSlices(Concatenated(plan, n - 1), plan.contents[n - 1], k * size, k * size + size);
  }

  lemma JoinSlices(a: Matrix, b: Matrix, from: nat, to: nat)
    requires from <= to
    ensures to <= |a| ==> (a + b)[from..to] == a[from..to]
    ensures from == |a| && to == |a + b| ==> (a + b)[from..to] == b
  {
  }

  lemma PlanIsWhole(p: Parameters, table: Table, plan: Plan, query: Vector)
    requires ValidPlan(p, table, plan) && |query| == plan.logicalRows
    ensures Whole(EvaluationOf(p, table, plan, query), plan.slots, Database(p, table, plan))
  {
    hide Concatenated;
    var e, whole, size := EvaluationOf(p, table, plan, query), Database(p, table, plan), p.shardRows(table);
    var rows := Concatenated(plan, |plan.slots|);
    ConcatenatedAt(p, table, plan, |plan.slots|, 0);
    forall k | 0 <= k < |plan.slots|
      ensures Placed(e, plan.slots, whole, k)
    {
      ConcatenatedAt(p, table, plan, |plan.slots|, k);
      assert plan.slots[k].id == k;
      assert whole[k * size..k * size + size] == rows[k * size..k * size + size];
    }
  }

  lemma ValidPlanSliceable(p: Parameters, table: Table, plan: Plan, query: Vector)
    requires ValidPlan(p, table, plan) && |query| == plan.logicalRows
    ensures Sliceable(query, p.shardRows(table), plan.slots)
    ensures Usable(EvaluationOf(p, table, plan, query), plan.slots)
  {
    PlanIsWhole(p, table, plan, query);
    WholeUsable(EvaluationOf(p, table, plan, query), plan.slots, Database(p, table, plan));
  }

  // ---- one replica ----

  /** The slices a group is asked for. */
  function Asked(p: Parameters, table: Table, plan: Plan, group: Group, query: Vector): (r: seq<ShardQuery>)
    requires Sliceable(query, p.shardRows(table), plan.slots)
  {
    Requests(query, p.shardRows(table), plan.slots, group)
  }

  predicate Names(requests: seq<ShardQuery>, id: nat) {
    exists i :: 0 <= i < |requests| && requests[i].id == id
  }

  lemma NamesMore(requests: seq<ShardQuery>, last: ShardQuery, id: nat)
    ensures Names(requests + [last], id) <==> Names(requests, id) || last.id == id
  {
    var all := requests + [last];
    if i :| 0 <= i < |requests| && requests[i].id == id {
      assert all[i].id == id;
    }
    assert all[|requests|].id == last.id;
  }

  lemma AssignsMore(shards: seq<ActivateShard>, last: ActivateShard, id: nat)
    ensures id in AssignmentOf(shards + [last]) <==> id in AssignmentOf(shards) || last.id == id
  {
    var all := shards + [last];
    assert all[..|all| - 1] == shards;
  }

  /** A request names exactly the shards an activation of its group names. */
  lemma {:induction false} RequestedIds(p: Parameters, table: Table, plan: Plan, slots: seq<Slot>, group: Group, query: Vector, id: nat)
    requires Sliceable(query, p.shardRows(table), slots)
    requires forall k :: 0 <= k < |slots| ==> slots[k].id in plan.contents
    ensures Names(Requests(query, p.shardRows(table), slots, group), id)
      <==> id in AssignmentOf(GroupShards(p, plan, slots, group))
  {
    hide Names, AssignmentOf, Slice;
    if slots == [] {
      NamesNone(id);
    } else {
      var n := |slots| - 1;
      RequestedIds(p, table, plan, slots[..n], group, query, id);
      if slots[n].group == group {
        NamesMore(Requests(query, p.shardRows(table), slots[..n], group),
                  ShardQuery(slots[n].id, Slice(query, p.shardRows(table), slots[n])), id);
        AssignsMore(GroupShards(p, plan, slots[..n], group), ActivateShard(slots[n].id, p.digest(plan.contents[slots[n].id])), id);
      }
    }
  }

  lemma NamesNone(id: nat)
    ensures !Names([], id) && id !in AssignmentOf([])
  {
  }

  lemma PlanIds(p: Parameters, table: Table, plan: Plan)
    requires ValidPlan(p, table, plan)
    ensures forall k :: 0 <= k < |plan.slots| ==> plan.slots[k].id in plan.contents
  {
    forall k | 0 <= k < |plan.slots|
      ensures plan.slots[k].id in plan.contents
    {
      assert plan.slots[k].id == k;
    }
  }

  /** A complete request and an activation of the same group name the same shards. */
  lemma CompleteKeys(p: Parameters, a: Activation, query: Vector, assignment: Assignment)
    requires a.table in a.attempt.plans && ValidPlan(p, a.table, a.attempt.plans[a.table])
    requires Sliceable(query, p.shardRows(a.table), a.attempt.plans[a.table].slots)
    requires Complete(assignment, Asked(p, a.table, a.attempt.plans[a.table], a.group, query))
    ensures assignment.Keys == Assigned(p, a).Keys
  {
    hide Requests, GroupShards, AssignmentOf, ValidPlan, Sliceable;
    var plan := a.attempt.plans[a.table];
    var requests := Asked(p, a.table, plan, a.group, query);
    PlanIds(p, a.table, plan);
    forall id: nat
      ensures id in assignment <==> id in Assigned(p, a)
    {
      RequestedIds(p, a.table, plan, plan.slots, a.group, query, id);
      assert Names(requests, id) <==> id in assignment;
    }
  }

  lemma FaithfulRows(p: Parameters, shards: map<ShardKey, Runtime>, clock: nat, table: Table, assignment: Assignment, plan: Plan)
    requires Injective(p.digest) && ShardsSound(p, shards, clock) && Faithful(p, assignment, plan)
    ensures forall id | id in assignment && ShardKey(table, id, assignment[id]) in shards ::
      id in plan.contents && plan.contents[id] == shards[ShardKey(table, id, assignment[id])].rows
  {
    forall id | id in assignment && ShardKey(table, id, assignment[id]) in shards
      ensures id in plan.contents && plan.contents[id] == shards[ShardKey(table, id, assignment[id])].rows
    {
      var key := ShardKey(table, id, assignment[id]);
      assert p.digest(shards[key].rows) == p.digest(plan.contents[id]);
    }
  }

  /** While the worker holds an activation, a successful evaluation uses exactly the rows its plan published. */
  lemma HeldAnswer(p: Parameters, looked: Worker.State, summed: Worker.State, a: Activation, query: Vector, busy: bool, v: Vector)
    requires p.Valid() && Injective(p.digest) && Sound(p, summed) && a.table in a.attempt.plans && Holds(p, looked, a)
    requires ValidPlan(p, a.table, a.attempt.plans[a.table])
    requires Sliceable(query, p.shardRows(a.table), a.attempt.plans[a.table].slots)
    requires Evaluated(p, looked.active, summed.shards, a.table, a.attempt.generation,
                       Asked(p, a.table, a.attempt.plans[a.table], a.group, query), busy) == Ok(v)
    ensures var plan := a.attempt.plans[a.table];
      var requests, e := Asked(p, a.table, plan, a.group, query), EvaluationOf(p, a.table, plan, query);
      Answerable(e, requests) && v == WorkerSum(e, requests)
  {
    hide SumShards, Asked, Sliceable, WorkerSum, Complete, ValidPlan, Assigned, ShardsSound, ArtifactsSound;
    var plan := a.attempt.plans[a.table];
    var requests, e := Asked(p, a.table, plan, a.group, query), EvaluationOf(p, a.table, plan, query);
    var assignment := looked.active[a.attempt.generation][a.table];
    CompleteKeys(p, a, query, assignment);
    AssignedFaithful(p, a);
    FaithfulRows(p, summed.shards, summed.clock, a.table, assignment, plan);
    CompleteIn(assignment, requests);
    SumShardsExact(p, summed.shards, a.table, assignment, requests, e);
  }

  lemma CompleteIn(assignment: Assignment, requests: seq<ShardQuery>)
    requires Complete(assignment, requests)
    ensures forall i :: 0 <= i < |requests| ==> requests[i].id in assignment
  {
  }

  /**
   Where the last request that took effect agrees with the snapshot, a successful evaluation on a ready
   replica uses exactly the published rows of its group, even when the assignment was read in one state
   and the shards in a later one.
   */
  lemma ReplicaAnswer(p: Parameters, looked: System, summed: System, x: Snapshot, table: Table, group: Group, w: nat, query: Vector,
                      busy: bool, v: Vector)
    requires p.Valid() && Injective(p.digest) && Inv(p, looked) && Inv(p, summed) && x in looked.published
    requires table in x.attempt.plans && (table, group) in x.ready && w in x.ready[(table, group)]
    requires w < |looked.workers| && w < |summed.workers| && Agrees(p, looked, Activation(x.attempt, table, group, w))
    requires Sliceable(query, p.shardRows(table), x.attempt.plans[table].slots)
    requires Evaluated(p, looked.workers[w].active, summed.workers[w].shards, table, x.attempt.generation,
                       Asked(p, table, x.attempt.plans[table], group, query), busy) == Ok(v)
    ensures var plan := x.attempt.plans[table];
      var requests, e := Asked(p, table, plan, group, query), EvaluationOf(p, table, plan, query);
      Answerable(e, requests) && v == WorkerSum(e, requests)
  {
    hide Evaluated, Asked, Sliceable, WorkerSum, Answerable, ValidPlan, Inv, Holds, Agrees, EvaluationOf, Injective;
    var a := Activation(x.attempt, table, group, w);
    ReadyFacts(p, looked, x, a);
    AgreesHolds(p, looked, a);
    assert Sound(p, summed.workers[w]) by { WorkerIsSound(p, summed, w); }
    HeldAnswer(p, looked.workers[w], summed.workers[w], a, query, busy, v);
  }

  lemma ReadyFacts(p: Parameters, s: System, x: Snapshot, a: Activation)
    requires Inv(p, s) && x in s.published && ReadyIn(x, a)
    ensures a in s.extended && Relied(s, a) && Addressed(s, a) && ValidPlan(p, a.table, x.attempt.plans[a.table])
  {
    hide Sound, ValidPlan, StandingTrue, GroupsReady;
    assert Backed(s, x);
    assert a in s.applied;
  }

  lemma WorkerIsSound(p: Parameters, s: System, w: nat)
    requires Inv(p, s) && w < |s.workers|
    ensures Sound(p, s.workers[w])
  {
    hide Sound, StandingTrue, ExtendedStand, Published, LatestValid, SentValid;
  }

  // ---- retries ----

  /** A worker in the same process, or one behind HTTP. */
  datatype Target = Embedded | Remote

  /** What comes of asking a replica: it evaluates, its reply is lost, or its reply cannot be used. */
  datatype Reply = Evaluates(busy: bool) | Lost | Garbled

  /** Over HTTP every worker error is a 503; only an unusable body is final. */
  predicate Retryable(target: Target, error: WorkerError) {
    match target
    case Embedded => error.AtLimit? || error.GenerationMismatch? || error.ShardDisappeared?
    case Remote => !error.BadResponse?
  }

  function Answer(p: Parameters, looked: Worker.State, summed: Worker.State, table: Table, generation: nat, requests: seq<ShardQuery>,
                  reply: Reply): (r: Result<Vector, WorkerError>)
    requires p.q(table) >= 2
  {
    match reply
    case Evaluates(busy) => Evaluated(p, looked.active, summed.shards, table, generation, requests, busy)
    case Lost => Err(Unreachable)
    case Garbled => Err(BadResponse)
  }

  /** One attempt at a replica: when it looked its assignment up, when it summed its shards, and the reply. */
  datatype Try = Try(time: nat, later: nat, worker: nat, reply: Reply)

  predicate InRun(run: seq<System>, t: Try) {
    t.time <= t.later < |run| && t.worker < |run[t.time].workers| && t.worker < |run[t.later].workers|
  }

  function TryOne(p: Parameters, run: seq<System>, table: Table, generation: nat, requests: seq<ShardQuery>, t: Try)
    : (r: Result<Vector, WorkerError>)
    requires p.q(table) >= 2 && InRun(run, t)
  {
    Answer(p, run[t.time].workers[t.worker], run[t.later].workers[t.worker], table, generation, requests, t.reply)
  }

  /** Replicas are tried in turn until one succeeds or fails for good. */
  function TryReplicas(p: Parameters, targets: nat -> Target, run: seq<System>, table: Table, generation: nat, requests: seq<ShardQuery>,
                       tries: seq<Try>): (r: Result<Vector, WorkerError>)
    requires p.q(table) >= 2 && forall i :: 0 <= i < |tries| ==> InRun(run, tries[i])
  {
    if tries == [] then Err(Rejected(Unavailable))
    else
      var r := TryOne(p, run, table, generation, requests, tries[0]);
      if r.Ok? || !Retryable(targets(tries[0].worker), r.error) || |tries| == 1 then r
      else TryReplicas(p, targets, run, table, generation, requests, tries[1..])
  }

  /** Tries name ready replicas of the group, at any times after the snapshot was looked up. */
  ghost predicate Legal(run: seq<System>, captured: nat, x: Snapshot, table: Table, group: Group, tries: seq<Try>) {
    forall i :: 0 <= i < |tries| ==>
      && InRun(run, tries[i]) && captured <= tries[i].time
      && (table, group) in x.ready && tries[i].worker in x.ready[(table, group)]
  }

  // ---- whole queries ----

  /** A query in flight: the snapshot looked up at `captured`, and each group's tries in arrival order. */
  datatype Query = Query(captured: nat, snapshot: Snapshot, table: Table, coefficients: Vector,
                         order: seq<Group>, tries: map<Group, seq<Try>>)

  ghost predicate ValidQuery(p: Parameters, run: seq<System>, q: Query) {
    && q.captured < |run| && q.snapshot in run[q.captured].live
    && q.table in q.snapshot.attempt.plans
    && |q.coefficients| == q.snapshot.attempt.plans[q.table].logicalRows
    && Sliceable(q.coefficients, p.shardRows(q.table), q.snapshot.attempt.plans[q.table].slots)
    && Distinct(q.order)
    && (forall k :: 0 <= k < |q.snapshot.attempt.plans[q.table].slots| ==>
          q.snapshot.attempt.plans[q.table].slots[k].group in q.order)
    && forall g | g in q.order :: g in q.tries && Legal(run, q.captured, q.snapshot, q.table, g, q.tries[g])
  }

  ghost function GroupResult(p: Parameters, targets: nat -> Target, run: seq<System>, q: Query, group: Group)
    : (r: Result<Vector, WorkerError>)
    requires p.Valid() && ValidQuery(p, run, q) && group in q.order
  {
    assert Legal(run, q.captured, q.snapshot, q.table, group, q.tries[group]);
    TryReplicas(p, targets, run, q.table, q.snapshot.attempt.generation,
                Asked(p, q.table, q.snapshot.attempt.plans[q.table], group, q.coefficients), q.tries[group])
  }

  ghost predicate AllAnswered(p: Parameters, targets: nat -> Target, run: seq<System>, q: Query)
    requires p.Valid() && ValidQuery(p, run, q)
  {
    forall i :: 0 <= i < |q.order| ==> GroupResult(p, targets, run, q, q.order[i]).Ok?
  }

  ghost function GroupPartials(p: Parameters, targets: nat -> Target, run: seq<System>, q: Query): (r: seq<Vector>)
    requires p.Valid() && ValidQuery(p, run, q) && AllAnswered(p, targets, run, q)
    ensures |r| == |q.order|
  {
    seq(|q.order|, i requires 0 <= i < |q.order| => GroupResult(p, targets, run, q, q.order[i]).value)
  }

  lemma CapturedPublished(p: Parameters, run: seq<System>, steps: seq<Generations.Step>, i: nat, x: Snapshot, table: Table)
    requires Behaves(p, run, steps) && i < |run| && x in run[i].live && table in x.attempt.plans
    ensures x in run[i].published && ValidPlan(p, table, x.attempt.plans[table])
  {
    hide Behaves, ValidPlan;
    RunInv(p, run, steps, i);
    assert Backed(run[i], x);
  }

  // ---- the coordinator's query loop ----

  ghost predicate Mirrors(p: Parameters, s: System, workers: seq<WorkerNode>) {
    |workers| == |s.workers| && forall i :: 0 <= i < |workers| ==> workers[i].p == p
  }

  ghost predicate InState(s: System, workers: seq<WorkerNode>)
    requires |workers| == |s.workers|
    reads set i | 0 <= i < |workers| :: workers[i]
  {
    forall i :: 0 <= i < |workers| ==> workers[i].Valid() && workers[i].Now() == s.workers[i]
  }

  /** What the network and the workers' load make of each replica, and where it runs. */
  datatype Network = Network(target: nat -> Target, reply: nat -> Reply)

  /** The reply of one replica in one state. */
  function ReplyOf(p: Parameters, s: System, net: Network, w: nat, table: Table, generation: nat, requests: seq<ShardQuery>)
    : (r: Result<Vector, WorkerError>)
    requires p.q(table) >= 2 && w < |s.workers|
  {
    Answer(p, s.workers[w], s.workers[w], table, generation, requests, net.reply(w))
  }

  /** The error makes the coordinator try the next replica. */
  ghost predicate TriesNext(target: Target, error: WorkerError) {
    if target == Embedded then error in {AtLimit, GenerationMismatch, ShardDisappeared} else error != BadResponse
  }

  /** The replica asked in turn `k`, when the group's counter stands at `counter`. */
  ghost function InTurn(replicas: seq<nat>, counter: nat, k: nat): (w: nat)
    requires replicas != []
    ensures w in replicas
  {
    replicas[(counter + k) % |replicas|]
  }

  /** Every replica has its turn, and successive queries start at successive replicas. */
  lemma TurnsReachAll(replicas: seq<nat>, counter: nat, w: nat) returns (k: nat)
    requires w in replicas
    ensures k < |replicas| && InTurn(replicas, counter, k) == w
    ensures InTurn(replicas, counter + 1, 0) == InTurn(replicas, counter, 1)
  {
    var n := |replicas|;
    var i :| 0 <= i < n && replicas[i] == w;
    k := RotationReaches(n, counter % n, i);
    TurnOf(counter, k, n);
  }

  lemma TurnOf(counter: nat, k: nat, n: nat)
    requires n > 0
    ensures (counter % n + k) % n == (counter + k) % n
  {
    var q := (counter % n + k) / n;
    var c := counter / n;
    assert counter + k == (c + q) * n + (counter % n + k) % n by {
      MulDistributes(c, q, n);
    }
    ModUnique(counter + k, n, c + q, (counter % n + k) % n);
  }

  /** The group's replicas in rotation, from its round-robin counter. */
  function Rotated(replicas: seq<nat>, counter: nat): (r: seq<nat>)
    ensures |r| == |replicas|
  {
    if replicas == [] then []
    else seq(|replicas|, k requires 0 <= k < |replicas| => replicas[(counter % |replicas| + k) % |replicas|])
  }

  lemma RotatedIs(replicas: seq<nat>, counter: nat)
    requires replicas != []
    ensures forall k :: 0 <= k < |replicas| ==> Rotated(replicas, counter)[k] == InTurn(replicas, counter, k)
  {
    forall k | 0 <= k < |replicas|
      ensures Rotated(replicas, counter)[k] == InTurn(replicas, counter, k)
    {
      TurnOf(counter, k, |replicas|);
    }
  }

  /** A rotation offers every replica and nothing else. */
  lemma RotatedSame(replicas: seq<nat>, counter: nat)
    ensures forall w :: w in Rotated(replicas, counter) <==> w in replicas
  {
    var rotated := Rotated(replicas, counter);
    forall w | w in replicas
      ensures w in rotated
    {
      var i :| 0 <= i < |replicas| && replicas[i] == w;
      var k := RotationReaches(|replicas|, counter % |replicas|, i);
      assert rotated[k] == w;
    }
  }

  lemma RotationReaches(n: nat, start: nat, i: nat) returns (k: nat)
    requires start < n && i < n
    ensures k < n && (start + k) % n == i
  {
    k := if i >= start then i - start else i + n - start;
    ModUnique(start + k, n, if i >= start then 0 else 1, i);
  }

  /** The outcome is turn `i`'s: every earlier turn failed with an error that is passed over, and nothing comes after it. */
  ghost predicate EndsAt(p: Parameters, s: System, net: Network, replicas: seq<nat>, counter: nat, table: Table, generation: nat,
                         requests: seq<ShardQuery>, r: Result<Vector, WorkerError>, i: nat)
    requires p.q(table) >= 2 && (forall w | w in replicas :: w < |s.workers|) && i < |replicas|
  {
    && r == ReplyOf(p, s, net, InTurn(replicas, counter, i), table, generation, requests)
    && (forall k :: 0 <= k < i ==> PassedOver(p, s, net, InTurn(replicas, counter, k), table, generation, requests))
    && (r.Ok? || i == |replicas| - 1 || !TriesNext(net.target(InTurn(replicas, counter, i)), r.error))
  }

  ghost predicate PassedOver(p: Parameters, s: System, net: Network, w: nat, table: Table, generation: nat, requests: seq<ShardQuery>)
    requires p.q(table) >= 2 && w < |s.workers|
  {
    var r := ReplyOf(p, s, net, w, table, generation, requests);
    r.Err? && TriesNext(net.target(w), r.error)
  }

  /** The same for tries spread over a run: the outcome is one try's, all earlier ones were passed over, and nothing comes after it. */
  lemma {:induction false} TriesConclude(p: Parameters, targets: nat -> Target, run: seq<System>, table: Table, generation: nat,
                                         requests: seq<ShardQuery>, tries: seq<Try>) returns (i: nat)
    requires p.q(table) >= 2 && tries != [] && forall k :: 0 <= k < |tries| ==> InRun(run, tries[k])
    ensures i < |tries| && forall k :: 0 <= k < i ==>
      TryOne(p, run, table, generation, requests, tries[k]).Err?
      && TriesNext(targets(tries[k].worker), TryOne(p, run, table, generation, requests, tries[k]).error)
    ensures var r := TryReplicas(p, targets, run, table, generation, requests, tries);
      && r == TryOne(p, run, table, generation, requests, tries[i])
      && (r.Ok? || i == |tries| - 1 || !TriesNext(targets(tries[i].worker), r.error))
  {
    hide TryOne, InRun;
    i := 0;
    var first := TryOne(p, run, table, generation, requests, tries[0]);
    if first.Err? && Retryable(targets(tries[0].worker), first.error) && |tries| > 1 {
      var rest := TriesConclude(p, targets, run, table, generation, requests, tries[1..]);
      i := rest + 1;
      assert forall k :: 1 <= k < |tries| ==> tries[k] == tries[1..][k - 1];
    }
  }

  /** The group's outcome is one of its turns, or an error if it has no replica. */
  ghost predicate Concludes(p: Parameters, s: System, net: Network, replicas: seq<nat>, counter: nat, table: Table, generation: nat,
                            requests: seq<ShardQuery>, r: Result<Vector, WorkerError>)
    requires p.q(table) >= 2 && (forall w | w in replicas :: w < |s.workers|)
  {
    if replicas == [] then r.Err?
    else exists i :: 0 <= i < |replicas| && EndsAt(p, s, net, replicas, counter, table, generation, requests, r, i)
  }

  /** Replicas in turn, until one answers or one fails for good. */
  method EvaluateGroup(p: Parameters, ghost s: System, workers: seq<WorkerNode>, net: Network, replicas: seq<nat>, counter: nat,
                       table: Table, generation: nat, requests: seq<ShardQuery>) returns (r: Result<Vector, WorkerError>)
    requires p.Valid() && Mirrors(p, s, workers) && InState(s, workers)
    requires forall w | w in replicas :: w < |workers|
    ensures Concludes(p, s, net, replicas, counter, table, generation, requests, r)
  {
    hide Evaluated, Rotated, PassedOver, InTurn;
    r := Err(Rejected(Unavailable));
    if replicas == [] {
      return;
    }
    var rotated := Rotated(replicas, counter);
    RotatedIs(replicas, counter);
    for i := 0 to |rotated|
      invariant i > 0 ==> EndsAt(p, s, net, replicas, counter, table, generation, requests, r, i - 1) || i < |rotated|
      invariant forall k :: 0 <= k < i && k < |rotated| - 1 ==> PassedOver(p, s, net, InTurn(replicas, counter, k), table, generation, requests)
    {
      var w := rotated[i];
      match net.reply(w) {
        case Evaluates(busy) => r := workers[w].EvaluateLocal(table, generation, requests, busy);
        case Lost => r := Err(Unreachable);
        case Garbled => r := Err(BadResponse);
      }
      assert r == ReplyOf(p, s, net, w, table, generation, requests);
      if r.Ok? || !Retryable(net.target(w), r.error) {
        assert EndsAt(p, s, net, replicas, counter, table, generation, requests, r, i);
        return;
      }
      assert PassedOver(p, s, net, InTurn(replicas, counter, i), table, generation, requests) by { Passes(p, s, net, w, table, generation, requests); }
    }
  }

  lemma Passes(p: Parameters, s: System, net: Network, w: nat, table: Table, generation: nat, requests: seq<ShardQuery>)
    requires p.q(table) >= 2 && w < |s.workers|
    requires var r := ReplyOf(p, s, net, w, table, generation, requests); r.Err? && Retryable(net.target(w), r.error)
    ensures PassedOver(p, s, net, w, table, generation, requests)
  {
  }

  /** Past errors that are passed over, a group with a usable replica answers. */
  lemma UsableReplicaAnswers(p: Parameters, s: System, net: Network, replicas: seq<nat>, counter: nat, table: Table, generation: nat,
                             requests: seq<ShardQuery>, r: Result<Vector, WorkerError>, i: nat, w: nat)
    requires p.q(table) >= 2 && (forall v | v in replicas :: v < |s.workers|) && i < |replicas|
    requires EndsAt(p, s, net, replicas, counter, table, generation, requests, r, i)
    requires w in replicas && ReplyOf(p, s, net, w, table, generation, requests).Ok?
    requires forall v | v in replicas ::
      ReplyOf(p, s, net, v, table, generation, requests).Ok? || PassedOver(p, s, net, v, table, generation, requests)
    ensures r.Ok?
  {
    hide ReplyOf, InTurn;
    var k := TurnsReachAll(replicas, counter, w);
  }

  method FindGeneration(live: seq<Snapshot>, generation: nat) returns (r: Option<Snapshot>)
    ensures r.Some? ==> r.value in live && r.value.attempt.generation == generation
    ensures r.None? ==> forall x | x in live :: x.attempt.generation != generation
  {
    for i := 0 to |live|
      invariant forall k :: 0 <= k < i ==> live[k].attempt.generation != generation
    {
      if live[i].attempt.generation == generation {
        return Some(live[i]);
      }
    }
    return None;
  }

  ghost predicate AnswersFor(p: Parameters, s: System, generation: nat, table: Table, query: Vector, answer: Vector) {
    exists x ::
      && x in s.live && x.attempt.generation == generation && table in x.attempt.plans
      && p.q(table) > 0 && ValidPlan(p, table, x.attempt.plans[table])
      && |query| == |Database(p, table, x.attempt.plans[table])| && |answer| == p.cols(table)
      && (Settled(p, s, x, table) ==>
            answer == Product(p.q(table), p.cols(table), query, Database(p, table, x.attempt.plans[table])))
  }

  /** Every ready replica of the table was last activated for the snapshot's generation with its digests. */
  ghost predicate Settled(p: Parameters, s: System, x: Snapshot, table: Table)
    requires table in x.attempt.plans
  {
    forall b | ReadyIn(x, b) && b.table == table && b.worker < |s.workers| :: Agrees(p, s, b)
  }

  /** The group's ready replicas, of which there are some, all failed, or one failed for good. */
  ghost predicate GroupFails(p: Parameters, s: System, net: Network, x: Snapshot, table: Table, group: Group, requests: seq<ShardQuery>)
    requires p.q(table) >= 2
  {
    && (table, group) in x.ready && x.ready[(table, group)] != []
    && ((forall w | w in x.ready[(table, group)] && w < |s.workers| ::
           ReplyOf(p, s, net, w, table, x.attempt.generation, requests).Err?)
        || exists w :: w in x.ready[(table, group)] && w < |s.workers|
             && var r := ReplyOf(p, s, net, w, table, x.attempt.generation, requests);
                r.Err? && !TriesNext(net.target(w), r.error))
  }

  /** Some group that owns a shard of the table cannot answer the query. */
  ghost predicate Blocked(p: Parameters, s: System, net: Network, x: Snapshot, table: Table, query: Vector)
    requires p.q(table) >= 2 && table in x.attempt.plans
    requires Sliceable(query, p.shardRows(table), x.attempt.plans[table].slots)
  {
    var plan := x.attempt.plans[table];
    exists k :: 0 <= k < |plan.slots|
      && GroupFails(p, s, net, x, table, plan.slots[k].group, Asked(p, table, plan, plan.slots[k].group, query))
  }

  /** Why a query about a retained generation is refused. */
  ghost predicate Refusable(p: Parameters, s: System, net: Network, x: Snapshot, table: Table, query: Vector)
    requires p.q(table) >= 2
  {
    || table !in x.attempt.plans
    || |query| != x.attempt.plans[table].logicalRows
    || (Sliceable(query, p.shardRows(table), x.attempt.plans[table].slots) && Blocked(p, s, net, x, table, query))
  }

  /**
   The whole query path in one reachable state: look the generation up, slice, ask one replica of
   every group, and add the partials as they come. Where the replicas are settled an answer is the product
   with the database published under that number; an error means that the number or table is not retained, the query
   has the wrong length, or a group that owns a shard could not answer.
   */
  method AnswerQuery(p: Parameters, ghost s: System, live: seq<Snapshot>, workers: seq<WorkerNode>, net: Network, generation: nat,
                     table: Table, query: Vector, counter: Group -> nat) returns (r: Result<Vector, WorkerError>)
    requires p.Valid() && Injective(p.digest) && Inv(p, s) && s.live == live
    requires Mirrors(p, s, workers) && InState(s, workers)
    ensures r.Ok? ==> AnswersFor(p, s, generation, table, query, r.value)
    ensures r.Err? ==>
      || (forall x | x in live :: x.attempt.generation != generation)
      || (exists x :: x in live && x.attempt.generation == generation && Refusable(p, s, net, x, table, query))
  {
    hide Inv, Injective, InState, ValidPlan, Database, Product, Blocked;
    var found := FindGeneration(live, generation);
    if found.None? {
      return Err(GenerationMismatch);
    }
    var x := found.value;
    if table !in x.attempt.plans {
      assert Refusable(p, s, net, x, table, query);
      return Err(NoSuchTable);
    }
    var plan := x.attempt.plans[table];
    if |query| != plan.logicalRows {
      assert Refusable(p, s, net, x, table, query);
      return Err(Rejected(QueryShape));
    }
    LiveFacts(p, s, x, table);
    ValidPlanSliceable(p, table, plan, query);
    var byGroup := SliceByGroup(query, p.shardRows(table), plan.slots);
    r := AskGroups(p, s, workers, net, x, table, query, byGroup.value, counter);
    if r.Ok? {
      PlanIsWhole(p, table, plan, query);
    } else {
      assert Refusable(p, s, net, x, table, query);
    }
  }

  lemma LiveFacts(p: Parameters, s: System, x: Snapshot, table: Table)
    requires Inv(p, s) && x in s.live && table in x.attempt.plans
    ensures x in s.published && ValidPlan(p, table, x.attempt.plans[table])
    ensures forall at, w | at in x.ready && w in x.ready[at] :: w < |s.workers|
  {
    hide ValidPlan;
    assert Backed(s, x);
    forall at, w | at in x.ready && w in x.ready[at]
      ensures w < |s.workers|
    {
      assert Addressed(s, Activation(x.attempt, at.0, at.1, w));
    }
  }

  /** What the groups heard so far add up to. */
  ghost predicate Summed(p: Parameters, table: Table, plan: Plan, query: Vector, order: seq<Group>, v: Vector) {
    var e := EvaluationOf(p, table, plan, query);
    e.q > 0 && Usable(e, plan.slots) && v == Fold(e.q, e.cols, Arrivals(e, plan.slots, order))
  }

  lemma SummedMore(p: Parameters, s: System, net: Network, x: Snapshot, table: Table, query: Vector, order: seq<Group>, v: Vector,
                   group: Group, partial: Vector)
    requires p.Valid() && Injective(p.digest) && Inv(p, s) && x in s.published && table in x.attempt.plans
    requires Sliceable(query, p.shardRows(table), x.attempt.plans[table].slots)
    requires Summed(p, table, x.attempt.plans[table], query, order, v) && (table, group) in x.ready && Settled(p, s, x, table)
    requires forall w | w in x.ready[(table, group)] :: w < |s.workers|
    requires exists w :: w in x.ready[(table, group)] && ReplyOf(p, s, net, w, table, x.attempt.generation,
                         Asked(p, table, x.attempt.plans[table], group, query)) == Ok(partial)
    ensures Addable(p.q(table), v, partial)
    ensures Summed(p, table, x.attempt.plans[table], query, order + [group], AddMod(p.q(table), v, partial))
  {
    hide Inv, Injective, Evaluated, Sliceable, Fold, Requests, WorkerSum, Usable, Agrees;
    var plan := x.attempt.plans[table];
    var w :| w in x.ready[(table, group)] && ReplyOf(p, s, net, w, table, x.attempt.generation, Asked(p, table, plan, group, query)) == Ok(partial);
    ReplicaAnswer(p, s, s, x, table, group, w, query, net.reply(w).busy, partial);
    FoldOneMore(EvaluationOf(p, table, plan, query), plan.slots, order, group);
  }

  /** Any successful reply can be added. */
  lemma PartialShape(p: Parameters, s: System, net: Network, x: Snapshot, table: Table, group: Group, requests: seq<ShardQuery>,
                     v: Vector, partial: Vector)
    requires p.Valid() && (table, group) in x.ready && (forall w | w in x.ready[(table, group)] :: w < |s.workers|)
    requires exists w :: w in x.ready[(table, group)] && ReplyOf(p, s, net, w, table, x.attempt.generation, requests) == Ok(partial)
    requires |v| == p.cols(table) && Canonical(p.q(table), v)
    ensures Addable(p.q(table), v, partial) && Canonical(p.q(table), AddMod(p.q(table), v, partial))
  {
  }

  lemma SummedNone(p: Parameters, table: Table, plan: Plan, query: Vector, zeros: Vector)
    requires p.Valid() && ValidPlan(p, table, plan) && |query| == plan.logicalRows
    requires |zeros| == p.cols(table) && forall i :: 0 <= i < |zeros| ==> zeros[i] == 0
    ensures Summed(p, table, plan, query, [], zeros)
  {
    hide ValidPlan, Fold;
    ValidPlanSliceable(p, table, plan, query);
    EmptyFold(EvaluationOf(p, table, plan, query), plan.slots, zeros);
  }

  lemma SummedAll(p: Parameters, table: Table, plan: Plan, query: Vector, order: seq<Group>, v: Vector)
    requires ValidPlan(p, table, plan) && |query| == plan.logicalRows && Summed(p, table, plan, query, order, v)
    requires Distinct(order) && forall k :: 0 <= k < |plan.slots| ==> plan.slots[k].group in order
    ensures |query| == |Database(p, table, plan)| && p.q(table) > 0
    ensures v == Product(p.q(table), p.cols(table), query, Database(p, table, plan))
  {
    hide ValidPlan, Database, Product, Fold, Arrivals;
    PlanIsWhole(p, table, plan, query);
    DistributedEqualsMonolithic(EvaluationOf(p, table, plan, query), plan.slots, Database(p, table, plan), order);
  }

  /** No snapshot references a group without a ready replica. */
  lemma GroupIsReady(p: Parameters, s: System, x: Snapshot, table: Table, group: Group)
    requires Inv(p, s) && x in s.live && table in x.attempt.plans
    requires exists k :: 0 <= k < |x.attempt.plans[table].slots| && x.attempt.plans[table].slots[k].group == group
    ensures (table, group) in x.ready && x.ready[(table, group)] != []
  {
    hide ValidPlan, StandingTrue, ExtendedStand, Sound;
    assert x in s.published && GroupsReady(x);
  }

  ghost predicate Ended(p: Parameters, s: System, net: Network, x: Snapshot, counter: nat, table: Table, group: Group,
                        requests: seq<ShardQuery>, r: Result<Vector, WorkerError>)
    requires p.q(table) >= 2
  {
    && (table, group) in x.ready && x.ready[(table, group)] != [] && (forall w | w in x.ready[(table, group)] :: w < |s.workers|)
    && Concludes(p, s, net, x.ready[(table, group)], counter, table, x.attempt.generation, requests, r)
  }

  lemma EndedInFailure(p: Parameters, s: System, net: Network, x: Snapshot, counter: nat, table: Table, group: Group,
                       requests: seq<ShardQuery>, r: Result<Vector, WorkerError>)
    requires p.q(table) >= 2 && Ended(p, s, net, x, counter, table, group, requests, r) && r.Err?
    ensures GroupFails(p, s, net, x, table, group, requests)
  {
    hide ReplyOf, InTurn;
    var replicas := x.ready[(table, group)];
    var i :| 0 <= i < |replicas| && EndsAt(p, s, net, replicas, counter, table, x.attempt.generation, requests, r, i);
    if TriesNext(net.target(InTurn(replicas, counter, i)), r.error) {
      forall w | w in replicas
        ensures ReplyOf(p, s, net, w, table, x.attempt.generation, requests).Err?
      {
        var k := TurnsReachAll(replicas, counter, w);
        assert k == i || PassedOver(p, s, net, InTurn(replicas, counter, k), table, x.attempt.generation, requests);
      }
    }
  }

  lemma EndedInAnswer(p: Parameters, s: System, net: Network, x: Snapshot, counter: nat, table: Table, group: Group,
                      requests: seq<ShardQuery>, r: Result<Vector, WorkerError>)
    requires p.q(table) >= 2 && Ended(p, s, net, x, counter, table, group, requests, r) && r.Ok?
    ensures exists w ::
      (w in x.ready[(table, group)] && w < |s.workers| && ReplyOf(p, s, net, w, table, x.attempt.generation, requests) == r)
  {
    hide ReplyOf, InTurn;
    var replicas := x.ready[(table, group)];
    var i :| 0 <= i < |replicas| && EndsAt(p, s, net, replicas, counter, table, x.attempt.generation, requests, r, i);
    assert InTurn(replicas, counter, i) in replicas;
  }

  /** Adds one partial per group, in whatever order the groups answer. */
  method AskGroups(p: Parameters, ghost s: System, workers: seq<WorkerNode>, net: Network, x: Snapshot, table: Table, query: Vector,
                   byGroup: map<Group, seq<ShardQuery>>, counter: Group -> nat) returns (r: Result<Vector, WorkerError>)
    requires p.Valid() && Injective(p.digest) && Inv(p, s) && x in s.live && table in x.attempt.plans
    requires Mirrors(p, s, workers) && InState(s, workers)
    requires ValidPlan(p, table, x.attempt.plans[table]) && |query| == x.attempt.plans[table].logicalRows
    requires Sliceable(query, p.shardRows(table), x.attempt.plans[table].slots)
    requires byGroup.Keys == set k | 0 <= k < |x.attempt.plans[table].slots| :: x.attempt.plans[table].slots[k].group
    requires forall g | g in byGroup :: byGroup[g] == Asked(p, table, x.attempt.plans[table], g, query)
    ensures r.Ok? ==> |query| == |Database(p, table, x.attempt.plans[table])| && |r.value| == p.cols(table)
    ensures r.Ok? && Settled(p, s, x, table) ==>
      r.value == Product(p.q(table), p.cols(table), query, Database(p, table, x.attempt.plans[table]))
    ensures r.Err? ==> Blocked(p, s, net, x, table, query)
  {
    hide Inv, Injective, InState, ValidPlan, Database, Product, Asked, ReplyOf, Sliceable, Summed, Retryable, Settled, Canonical, Addable, Concludes, GroupFails;
    ghost var plan := x.attempt.plans[table];
    var q := p.q(table);
    LiveFacts(p, s, x, table);
    var combined := new u64[p.cols(table)](_ => 0);
    ghost var order: seq<Group> := [];
    SummedNone(p, table, plan, query, combined[..]);
    assert Canonical(q, combined[..]) by { ZerosCanonical(q, combined[..]); }
    var todo := byGroup.Keys;
    while todo != {}
      invariant todo <= byGroup.Keys && Distinct(order)
      invariant forall g :: g in order <==> g in byGroup && g !in todo
      invariant combined.Length == p.cols(table) && Canonical(q, combined[..])
      invariant Settled(p, s, x, table) ==> Summed(p, table, plan, query, order, combined[..])
      decreases |todo|
    {
      var group :| group in todo;
      GroupIsReady(p, s, x, table, group);
      r := EvaluateGroup(p, s, workers, net, x.ready[(table, group)], counter(group), table, x.attempt.generation, byGroup[group]);
      if r.Err? {
        EndedInFailure(p, s, net, x, counter(group), table, group, byGroup[group], r);
        BlockedBy(p, s, net, x, table, query, group);
        return;
      }
      EndedInAnswer(p, s, net, x, counter(group), table, group, byGroup[group], r);
      PartialShape(p, s, net, x, table, group, byGroup[group], combined[..], r.value);
      if Settled(p, s, x, table) {
        SummedMore(p, s, net, x, table, query, order, combined[..], group, r.value);
      }
      var added := AddIntermediateAssignMod(combined, r.value, q);
      assert added.Ok?;
      order := order + [group];
      todo := todo - {group};
    }
    if Settled(p, s, x, table) {
      SummedAll(p, table, plan, query, order, combined[..]);
    }
    PlanIsWhole(p, table, plan, query);
    return Ok(combined[..]);
  }

  lemma ZerosCanonical(q: u64, zeros: Vector)
    requires q > 0 && forall i :: 0 <= i < |zeros| ==> zeros[i] == 0
    ensures Canonical(q, zeros)
  {
  }

  lemma BlockedBy(p: Parameters, s: System, net: Network, x: Snapshot, table: Table, query: Vector, group: Group)
    requires p.q(table) >= 2 && table in x.attempt.plans && Sliceable(query, p.shardRows(table), x.attempt.plans[table].slots)
    requires exists k :: 0 <= k < |x.attempt.plans[table].slots| && x.attempt.plans[table].slots[k].group == group
    requires GroupFails(p, s, net, x, table, group, Asked(p, table, x.attempt.plans[table], group, query))
    ensures Blocked(p, s, net, x, table, query)
  {
    hide GroupFails, Asked;
  }

  lemma EmptyFold(e: Evaluation, slots: seq<Slot>, zeros: Vector)
    requires Usable(e, slots) && e.q > 0 && |zeros| == e.cols && forall i :: 0 <= i < |zeros| ==> zeros[i] == 0
    ensures Fold(e.q, e.cols, Arrivals(e, slots, [])) == zeros
  {
  }

  lemma FoldOneMore(e: Evaluation, slots: seq<Slot>, order: seq<Group>, group: Group)
    requires Usable(e, slots) && e.q > 0
    ensures Answerable(e, Requests(e.query, e.shardRows, slots, group))
    ensures Fold(e.q, e.cols, Arrivals(e, slots, order + [group]))
      == AddMod(e.q, Fold(e.q, e.cols, Arrivals(e, slots, order)), WorkerSum(e, Requests(e.query, e.shardRows, slots, group)))
  {
    hide WorkerSum, Requests;
    RequestsAnswerable(e, slots, group);
    var all := Arrivals(e, slots, order + [group]);
    assert all[..|order|] == Arrivals(e, slots, order);
  }
}
