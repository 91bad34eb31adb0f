/** What a query is answered from, in every run: the shards last activated on the replicas that answered. */
module Served {
  import opened Bytes
  import opened Results
  import opened Arithmetic
  import opened ShardEvaluation
  import opened Worker
  import opened Generations
  import opened Agreement
  import opened Answers
  import opened Replicas

  // ---- one replica ----

  /** An evaluation reads the rows of whatever activation the listing came from. */
  lemma ListedAnswer(p: Parameters, looked: Worker.State, summed: Worker.State, a: Activation, b: Activation, query: Vector, busy: bool,
                     v: Vector)
    requires p.Valid() && Injective(p.digest) && Sound(p, summed) && a.table in a.attempt.plans && b.table in b.attempt.plans
    requires a.table == b.table && a.attempt.generation == b.attempt.generation && ValidPlan(p, b.table, b.attempt.plans[b.table])
    requires Lists(looked, b) ==> looked.active[b.attempt.generation][b.table] == Assigned(p, a)
    requires Sliceable(query, p.shardRows(b.table), b.attempt.plans[b.table].slots)
    requires Evaluated(p, looked.active, summed.shards, b.table, b.attempt.generation,
                       Asked(p, b.table, b.attempt.plans[b.table], b.group, query), busy) == Ok(v)
    ensures Assigned(p, a).Keys == Assigned(p, b).Keys
    ensures var requests := Asked(p, b.table, b.attempt.plans[b.table], b.group, query);
      Answerable(Mixed(p, a, b, query), requests) && v == WorkerSum(Mixed(p, a, b, query), requests)
  {
    hide SumShards, Asked, Sliceable, WorkerSum, Complete, ValidPlan, Assigned, ShardsSound, ArtifactsSound, Faithful, Injective;
    var plan, assignment := b.attempt.plans[b.table], Assigned(p, a);
    var requests := Asked(p, b.table, plan, b.group, query);
    CompleteKeys(p, b, query, assignment);
    AssignedFaithful(p, a);
    FaithfulRows(p, summed.shards, summed.clock, b.table, assignment, a.attempt.plans[a.table]);
    CompleteIn(assignment, requests);
    forall i | 0 <= i < |requests|
      ensures ReadsMixed(p, summed.shards, a, b, query, requests[i].id)
    {
      MixedAt(p, a, b, query, requests[i].id);
    }
    SumShardsExact(p, summed.shards, b.table, assignment, requests, Mixed(p, a, b, query));
  }

  ghost predicate ReadsMixed(p: Parameters, shards: map<ShardKey, Runtime>, a: Activation, b: Activation, query: Vector, id: nat)
    requires a.table in a.attempt.plans && b.table in b.attempt.plans && id in Assigned(p, a)
  {
    var key := ShardKey(b.table, id, Assigned(p, a)[id]);
    key in shards ==> id in Mixed(p, a, b, query).contents && Mixed(p, a, b, query).contents[id] == shards[key].rows
  }

  /** So a ready replica answers from the activation that stands in its place, whichever that is. */
  lemma StandingAnswer(p: Parameters, looked: System, summed: System, x: Snapshot, b: Activation, query: Vector, busy: bool, v: Vector)
    requires p.Valid() && Injective(p.digest) && Inv(p, looked) && Inv(p, summed) && x in looked.published && ReadyIn(x, b)
    requires b.table in b.attempt.plans && b.worker < |looked.workers| && b.worker < |summed.workers|
    requires Sliceable(query, p.shardRows(b.table), b.attempt.plans[b.table].slots)
    requires Evaluated(p, looked.workers[b.worker].active, summed.workers[b.worker].shards, b.table, b.attempt.generation,
                       Asked(p, b.table, b.attempt.plans[b.table], b.group, query), busy) == Ok(v)
    ensures Lists(looked.workers[b.worker], b) && StoodIn(p, looked, b)
    ensures var a, requests := looked.standing[Place(b)], Asked(p, b.table, b.attempt.plans[b.table], b.group, query);
      Answerable(Mixed(p, a, b, query), requests) && v == WorkerSum(Mixed(p, a, b, query), requests)
  {
    hide Sound, ValidPlan, Asked, Sliceable, WorkerSum, Answerable, Injective, Mixed, Assigned, GroupsReady, LatestValid, SumShards;
    assert Lists(looked.workers[b.worker], b);
    ReadyFacts(p, looked, x, b);
    var a := looked.standing[Place(b)];
    ExtendedFacts(p, looked, a);
    WorkerIsSound(p, summed, b.worker);
    ListedAnswer(p, looked.workers[b.worker], summed.workers[b.worker], a, b, query, busy, v);
  }

  /** The activation standing in this place names the same shards, and its plan is valid. */
  ghost predicate StoodIn(p: Parameters, s: System, b: Activation)
    requires b.table in b.attempt.plans
  {
    && Place(b) in s.standing
    && var a := s.standing[Place(b)];
       && Place(a) == Place(b) && a.table in a.attempt.plans && ValidPlan(p, a.table, a.attempt.plans[a.table])
       && Assigned(p, a).Keys == Assigned(p, b).Keys
  }

  // ---- the replica that answered for each group ----

  ghost function Answerer(p: Parameters, targets: nat -> Target, run: seq<System>, table: Table, generation: nat, requests: seq<ShardQuery>,
                          tries: seq<Try>): (t: Try)
    requires p.q(table) >= 2 && forall i :: 0 <= i < |tries| ==> InRun(run, tries[i])
    requires TryReplicas(p, targets, run, table, generation, requests, tries).Ok?
    ensures t in tries && InRun(run, t)
    ensures TryOne(p, run, table, generation, requests, t) == TryReplicas(p, targets, run, table, generation, requests, tries)
  {
    if TryOne(p, run, table, generation, requests, tries[0]).Ok? then tries[0]
    else Answerer(p, targets, run, table, generation, requests, tries[1..])
  }

  ghost predicate Answered(p: Parameters, targets: nat -> Target, run: seq<System>, q: Query) {
    p.Valid() && ValidQuery(p, run, q) && AllAnswered(p, targets, run, q)
  }

  lemma GroupAnswered(p: Parameters, targets: nat -> Target, run: seq<System>, q: Query, group: Group)
    requires Answered(p, targets, run, q) && group in q.order
    ensures Legal(run, q.captured, q.snapshot, q.table, group, q.tries[group]) && GroupResult(p, targets, run, q, group).Ok?
  {
    hide TryReplicas, Sliceable;
    var i :| 0 <= i < |q.order| && q.order[i] == group;
  }

  ghost function AnswererOf(p: Parameters, targets: nat -> Target, run: seq<System>, q: Query, group: Group): (t: Try)
    requires Answered(p, targets, run, q) && group in q.order
    ensures InRun(run, t) && t in q.tries[group]
  {
    GroupAnswered(p, targets, run, q, group);
    Answerer(p, targets, run, q.table, q.snapshot.attempt.generation,
             Asked(p, q.table, q.snapshot.attempt.plans[q.table], group, q.coefficients), q.tries[group])
  }

  /** The activation the snapshot relied on at the replica that answered, and the one it answered from. */
  ghost function Expected(p: Parameters, targets: nat -> Target, run: seq<System>, q: Query, group: Group): (b: Activation)
    requires Answered(p, targets, run, q) && group in q.order
  {
    Activation(q.snapshot.attempt, q.table, group, AnswererOf(p, targets, run, q, group).worker)
  }

  ghost function Used(p: Parameters, targets: nat -> Target, run: seq<System>, q: Query, group: Group): (a: Activation)
    requires Answered(p, targets, run, q) && group in q.order
  {
    var b, s := Expected(p, targets, run, q, group), run[AnswererOf(p, targets, run, q, group).time];
    if Place(b) in s.standing then s.standing[Place(b)] else b
  }

  /** What is known of a group that answered. */
  ghost predicate GroupServed(p: Parameters, targets: nat -> Target, run: seq<System>, q: Query, group: Group)
    requires Answered(p, targets, run, q) && group in q.order
  {
    var a, b := Used(p, targets, run, q, group), Expected(p, targets, run, q, group);
    var requests := Asked(p, q.table, q.snapshot.attempt.plans[q.table], group, q.coefficients);
    && Place(a) == Place(b) && a.table in a.attempt.plans && b.table in b.attempt.plans
    && ValidPlan(p, a.table, a.attempt.plans[a.table]) && Assigned(p, a).Keys == Assigned(p, b).Keys
    && Answerable(Mixed(p, a, b, q.coefficients), requests)
    && GroupResult(p, targets, run, q, group) == Ok(WorkerSum(Mixed(p, a, b, q.coefficients), requests))
  }

  lemma GroupIsServed(p: Parameters, targets: nat -> Target, run: seq<System>, steps: seq<Generations.Step>, q: Query, group: Group)
    requires Injective(p.digest) && Behaves(p, run, steps) && Answered(p, targets, run, q) && group in q.order
    ensures GroupServed(p, targets, run, q, group)
  {
    hide Injective, Behaves, Inv, Evaluated, Asked, Sliceable, WorkerSum, Answerable, ValidPlan, Assigned, Mixed, TryReplicas, Lists;
    GroupAnswered(p, targets, run, q, group);
    var t, x := AnswererOf(p, targets, run, q, group), q.snapshot;
    CapturedPublished(p, run, steps, q.captured, x, q.table);
    assert q.captured <= t.time && (q.table, group) in x.ready && t.worker in x.ready[(q.table, group)] by {
      var i :| 0 <= i < |q.tries[group]| && q.tries[group][i] == t;
    }
    RunInv(p, run, steps, t.time);
    RunInv(p, run, steps, t.later);
    PublishedForever(p, run, steps, q.captured, t.time, x);
    StandingAnswer(p, run[t.time], run[t.later], x, Expected(p, targets, run, q, group), q.coefficients, t.reply.busy,
                   GroupResult(p, targets, run, q, group).value);
  }

  // ---- the database a query was answered from ----

  /** The rows of slot `k` that the answering replica of its group used. */
  ghost function ServedRows(p: Parameters, targets: nat -> Target, run: seq<System>, q: Query, k: nat): (rows: Matrix)
    requires Answered(p, targets, run, q) && k < |q.snapshot.attempt.plans[q.table].slots|
  {
    var a := Used(p, targets, run, q, q.snapshot.attempt.plans[q.table].slots[k].group);
    if a.table in a.attempt.plans && k in a.attempt.plans[a.table].contents then a.attempt.plans[a.table].contents[k] else []
  }

  ghost function ServedPlan(p: Parameters, targets: nat -> Target, run: seq<System>, q: Query): (plan: Plan)
    requires Answered(p, targets, run, q)
  {
    var plan := q.snapshot.attempt.plans[q.table];
    plan.(contents := map k: nat | k < |plan.slots| :: ServedRows(p, targets, run, q, k))
  }

  lemma {:induction false} SlotAssigned(p: Parameters, plan: Plan, slots: seq<Slot>, group: Group, k: nat)
    requires k < |slots| && slots[k].group == group && forall j :: 0 <= j < |slots| ==> slots[j].id in plan.contents
    ensures slots[k].id in AssignmentOf(GroupShards(p, plan, slots, group))
  {
    hide AssignmentOf;
    var n := |slots| - 1;
    if slots[n].group == group {
      AssignsMore(GroupShards(p, plan, slots[..n], group), ActivateShard(slots[n].id, p.digest(plan.contents[slots[n].id])), slots[k].id);
    }
    if k < n {
      SlotAssigned(p, plan, slots[..n], group, k);
    }
  }

  /** A slot's shard is named by both activations, so the rows used are whole shard rows. */
  lemma SlotServed(p: Parameters, targets: nat -> Target, run: seq<System>, q: Query, k: nat)
    requires Answered(p, targets, run, q) && k < |q.snapshot.attempt.plans[q.table].slots|
    requires ValidPlan(p, q.table, q.snapshot.attempt.plans[q.table])
    requires GroupServed(p, targets, run, q, q.snapshot.attempt.plans[q.table].slots[k].group)
    ensures var group := q.snapshot.attempt.plans[q.table].slots[k].group;
      var a, b := Used(p, targets, run, q, group), Expected(p, targets, run, q, group);
      && k in Assigned(p, a) && k in Assigned(p, b) && k in a.attempt.plans[a.table].contents
      && ServedRows(p, targets, run, q, k) == a.attempt.plans[a.table].contents[k] && |ServedRows(p, targets, run, q, k)| == p.shardRows(q.table)
  {
    hide GroupShards, AssignmentOf, Mixed, WorkerSum, Asked, AllAnswered, AnswererOf, Used, Answerable;
    var plan := q.snapshot.attempt.plans[q.table];
    var group := plan.slots[k].group;
    var a := Used(p, targets, run, q, group);
    PlanIds(p, q.table, plan);
    SlotAssigned(p, plan, plan.slots, group, k);
    assert plan.slots[k].id == k;
    ContentSize(p, a.table, a.attempt.plans[a.table], a.group, k);
  }

  ghost predicate AllServed(p: Parameters, targets: nat -> Target, run: seq<System>, q: Query)
    requires Answered(p, targets, run, q)
  {
    forall g | g in q.order :: GroupServed(p, targets, run, q, g)
  }

  lemma ServedValid(p: Parameters, targets: nat -> Target, run: seq<System>, q: Query)
    requires Answered(p, targets, run, q) && AllServed(p, targets, run, q) && ValidPlan(p, q.table, q.snapshot.attempt.plans[q.table])
    ensures ValidPlan(p, q.table, ServedPlan(p, targets, run, q))
  {
    hide GroupServed, ServedRows;
    var plan := q.snapshot.attempt.plans[q.table];
    forall k | 0 <= k < |plan.slots|
      ensures |ServedRows(p, targets, run, q, k)| == p.shardRows(q.table)
    {
      SlotServed(p, targets, run, q, k);
    }
  }

  /** Evaluations that agree on the requested shards give the same sum. */
  lemma SameSum(e: Evaluation, f: Evaluation, requests: seq<ShardQuery>)
    requires e.q == f.q && e.cols == f.cols && Answerable(e, requests)
    requires forall i :: 0 <= i < |requests| ==> requests[i].id in f.contents && f.contents[requests[i].id] == e.contents[requests[i].id]
    ensures Answerable(f, requests) && WorkerSum(f, requests) == WorkerSum(e, requests)
  {
    assert Partials(f, requests) == Partials(e, requests);
  }

  /** Each group's partial is its sum over the served database. */
  lemma PartialServed(p: Parameters, targets: nat -> Target, run: seq<System>, q: Query, group: Group)
    requires Answered(p, targets, run, q) && AllServed(p, targets, run, q) && group in q.order
    requires ValidPlan(p, q.table, q.snapshot.attempt.plans[q.table])
    ensures var plan := q.snapshot.attempt.plans[q.table];
      var requests, e := Asked(p, q.table, plan, group, q.coefficients), EvaluationOf(p, q.table, ServedPlan(p, targets, run, q), q.coefficients);
      Answerable(e, requests) && GroupResult(p, targets, run, q, group) == Ok(WorkerSum(e, requests))
  {
    hide ServedRows, WorkerSum, ValidPlan, AllAnswered, Used, Requests, Sliceable, GroupResult, Expected;
    var plan := q.snapshot.attempt.plans[q.table];
    var requests, e := Asked(p, q.table, plan, group, q.coefficients), EvaluationOf(p, q.table, ServedPlan(p, targets, run, q), q.coefficients);
    assert GroupServed(p, targets, run, q, group);
    var a, b := Used(p, targets, run, q, group), Expected(p, targets, run, q, group);
    var mixed := Mixed(p, a, b, q.coefficients);
    MixedMeans(p, targets, run, q, group);
    forall i | 0 <= i < |requests|
      ensures requests[i].id in e.contents && e.contents[requests[i].id] == mixed.contents[requests[i].id]
    {
      RequestServed(p, targets, run, q, group, i);
    }
    SameSum(mixed, e, requests);
  }

  lemma MixedMeans(p: Parameters, targets: nat -> Target, run: seq<System>, q: Query, group: Group)
    requires Answered(p, targets, run, q) && group in q.order && GroupServed(p, targets, run, q, group)
    ensures var a, b := Used(p, targets, run, q, group), Expected(p, targets, run, q, group);
      && b.table == q.table == a.table && b.group == group && b.attempt == q.snapshot.attempt
      && Mixed(p, a, b, q.coefficients).q == p.q(q.table) && Mixed(p, a, b, q.coefficients).cols == p.cols(q.table)
  {
    hide WorkerSum, Answerable, AllAnswered, Assigned, ValidPlan;
  }

  lemma RequestServed(p: Parameters, targets: nat -> Target, run: seq<System>, q: Query, group: Group, i: nat)
    requires Answered(p, targets, run, q) && AllServed(p, targets, run, q) && group in q.order
    requires ValidPlan(p, q.table, q.snapshot.attempt.plans[q.table])
    requires i < |Asked(p, q.table, q.snapshot.attempt.plans[q.table], group, q.coefficients)|
    requires GroupServed(p, targets, run, q, group)
    ensures var id := Asked(p, q.table, q.snapshot.attempt.plans[q.table], group, q.coefficients)[i].id;
      var a, b := Used(p, targets, run, q, group), Expected(p, targets, run, q, group);
      && id in ServedPlan(p, targets, run, q).contents && id in Mixed(p, a, b, q.coefficients).contents
      && ServedPlan(p, targets, run, q).contents[id] == Mixed(p, a, b, q.coefficients).contents[id]
  {
    hide ServedRows, WorkerSum, AllAnswered, Used, Answerable, Mixed, Assigned, Requests, GroupResult;
    var plan := q.snapshot.attempt.plans[q.table];
    var a, b := Used(p, targets, run, q, group), Expected(p, targets, run, q, group);
    MixedMeans(p, targets, run, q, group);
    RequestsOfGroup(q.coefficients, p.shardRows(q.table), plan.slots, group, i);
    var k :| 0 <= k < |plan.slots| && plan.slots[k].group == group
      && Requests(q.coefficients, p.shardRows(q.table), plan.slots, group)[i]
           == ShardQuery(plan.slots[k].id, Slice(q.coefficients, p.shardRows(q.table), plan.slots[k]));
    assert plan.slots[k].id == k;
    SlotServed(p, targets, run, q, k);
    MixedAt(p, a, b, q.coefficients, k);
  }

  /**
   What an answer is, in every run and with nothing assumed of late or overlapping activations: the query
   times the database made of the shards last activated, for that generation and table, on the replicas
   that answered.
   */
  lemma AnswersStanding(p: Parameters, targets: nat -> Target, run: seq<System>, steps: seq<Generations.Step>, q: Query)
    requires Injective(p.digest) && Behaves(p, run, steps) && Answered(p, targets, run, q)
    ensures AllServed(p, targets, run, q) && ValidPlan(p, q.table, ServedPlan(p, targets, run, q))
    ensures forall i :: 0 <= i < |q.order| ==> |GroupPartials(p, targets, run, q)[i]| == p.cols(q.table)
    ensures var whole := Database(p, q.table, ServedPlan(p, targets, run, q));
      && |q.coefficients| == |whole|
      && Fold(p.q(q.table), p.cols(q.table), GroupPartials(p, targets, run, q))
           == Product(p.q(q.table), p.cols(q.table), q.coefficients, whole)
  {
    hide Behaves, Injective, Requests, WorkerSum, Product, Fold, Sliceable, Database, ValidPlan, Inv, GroupServed, ServedRows, TryReplicas;
    CapturedPublished(p, run, steps, q.captured, q.snapshot, q.table);
    forall g | g in q.order
      ensures GroupServed(p, targets, run, q, g)
    {
      GroupIsServed(p, targets, run, steps, q, g);
    }
    ServedValid(p, targets, run, q);
    var plan := ServedPlan(p, targets, run, q);
    var e := EvaluationOf(p, q.table, plan, q.coefficients);
    PlanIsWhole(p, q.table, plan, q.coefficients);
    WholeUsable(e, plan.slots, Database(p, q.table, plan));
    var partials := GroupPartials(p, targets, run, q);
    forall i | 0 <= i < |q.order|
      ensures partials[i] == Arrivals(e, plan.slots, q.order)[i]
    {
      PartialServed(p, targets, run, q, q.order[i]);
    }
    assert partials == Arrivals(e, plan.slots, q.order);
    DistributedEqualsMonolithic(e, plan.slots, Database(p, q.table, plan), q.order);
  }

  // ---- when that is the published database ----

  /** Each group's answering replica was last activated with the published digests. */
  ghost predicate AnswerersAgree(p: Parameters, targets: nat -> Target, run: seq<System>, q: Query)
    requires Answered(p, targets, run, q) && AllServed(p, targets, run, q)
  {
    var plan := q.snapshot.attempt.plans[q.table];
    forall k :: 0 <= k < |plan.slots| ==> GroupAgrees(p, targets, run, q, plan.slots[k].group)
  }

  ghost predicate GroupAgrees(p: Parameters, targets: nat -> Target, run: seq<System>, q: Query, group: Group)
    requires Answered(p, targets, run, q) && group in q.order && GroupServed(p, targets, run, q, group)
  {
    SameDigests(p, Used(p, targets, run, q, group), Expected(p, targets, run, q, group))
  }

  /** The two activations of a group name the same digests exactly when they name the same rows. */
  lemma RowsAgree(p: Parameters, targets: nat -> Target, run: seq<System>, q: Query, group: Group)
    requires Injective(p.digest) && Answered(p, targets, run, q) && group in q.order && GroupServed(p, targets, run, q, group)
    requires q.table in q.snapshot.attempt.plans
    ensures GroupAgrees(p, targets, run, q, group)
      <==> (var a, plan := Used(p, targets, run, q, group), q.snapshot.attempt.plans[q.table];
            forall id | id in Assigned(p, a) ::
              id in a.attempt.plans[a.table].contents && id in plan.contents && a.attempt.plans[a.table].contents[id] == plan.contents[id])
  {
    hide Assigned, WorkerSum, Answerable, Mixed, ValidPlan, Answered, Used, AnswererOf;
    var a, b := Used(p, targets, run, q, group), Expected(p, targets, run, q, group);
    AssignedFaithful(p, a);
    AssignedFaithful(p, b);
    var theirs, mine := Assigned(p, a), Assigned(p, b);
    if forall id | id in theirs :: a.attempt.plans[a.table].contents[id] == b.attempt.plans[b.table].contents[id] {
      assert forall id | id in theirs :: theirs[id] == mine[id];
    }
  }

  lemma ServedExactly(p: Parameters, targets: nat -> Target, run: seq<System>, q: Query)
    requires Injective(p.digest) && Answered(p, targets, run, q) && AllServed(p, targets, run, q)
    requires ValidPlan(p, q.table, q.snapshot.attempt.plans[q.table])
    ensures AnswerersAgree(p, targets, run, q)
      <==> (forall k :: 0 <= k < |q.snapshot.attempt.plans[q.table].slots| ==>
              ServedRows(p, targets, run, q, k) == q.snapshot.attempt.plans[q.table].contents[k])
  {
    hide Injective, GroupServed, GroupAgrees, ServedRows, Assigned, Used, Expected;
    var plan := q.snapshot.attempt.plans[q.table];
    forall k | 0 <= k < |plan.slots|
      ensures GroupAgrees(p, targets, run, q, plan.slots[k].group) ==> ServedRows(p, targets, run, q, k) == plan.contents[k]
    {
      RowsAgree(p, targets, run, q, plan.slots[k].group);
      SlotServed(p, targets, run, q, k);
    }
    if forall k :: 0 <= k < |plan.slots| ==> ServedRows(p, targets, run, q, k) == plan.contents[k] {
      forall k | 0 <= k < |plan.slots|
        ensures GroupAgrees(p, targets, run, q, plan.slots[k].group)
      {
        SameRowsAgree(p, targets, run, q, plan.slots[k].group);
      }
    }
  }

  lemma SameRowsAgree(p: Parameters, targets: nat -> Target, run: seq<System>, q: Query, group: Group)
    requires Injective(p.digest) && Answered(p, targets, run, q) && AllServed(p, targets, run, q) && group in q.order
    requires ValidPlan(p, q.table, q.snapshot.attempt.plans[q.table]) && GroupServed(p, targets, run, q, group)
    requires forall k :: 0 <= k < |q.snapshot.attempt.plans[q.table].slots| ==>
      ServedRows(p, targets, run, q, k) == q.snapshot.attempt.plans[q.table].contents[k]
    ensures GroupAgrees(p, targets, run, q, group)
  {
    hide Injective, GroupAgrees, ServedRows, Assigned, Used, WorkerSum, Answerable, Mixed, GroupServed, ValidPlan;
    var plan, a, b := q.snapshot.attempt.plans[q.table], Used(p, targets, run, q, group), Expected(p, targets, run, q, group);
    ServedKeys(p, targets, run, q, group);
    RowsAgree(p, targets, run, q, group);
    forall id | id in Assigned(p, a)
      ensures id in a.attempt.plans[a.table].contents && id in plan.contents && a.attempt.plans[a.table].contents[id] == plan.contents[id]
    {
      SlotOf(p, b, id);
      SlotServed(p, targets, run, q, id);
      SlotContents(p, q.table, plan, id);
    }
  }

  lemma SlotContents(p: Parameters, table: Table, plan: Plan, k: nat)
    requires ValidPlan(p, table, plan) && k < |plan.slots|
    ensures k in plan.contents && plan.slots[k].id == k
  {
    assert plan.slots[k].id == k;
  }

  lemma ServedKeys(p: Parameters, targets: nat -> Target, run: seq<System>, q: Query, group: Group)
    requires Answered(p, targets, run, q) && group in q.order && GroupServed(p, targets, run, q, group)
    ensures var a, b := Used(p, targets, run, q, group), Expected(p, targets, run, q, group);
      a.table in a.attempt.plans && b.table in b.attempt.plans && Assigned(p, a).Keys == Assigned(p, b).Keys
  {
    hide Assigned, WorkerSum, Answerable, Mixed, ValidPlan, Answered, Used, AnswererOf;
  }

  /** Databases of one layout are equal exactly when every shard is. */
  lemma DatabasesExactly(p: Parameters, table: Table, one: Plan, two: Plan)
    requires ValidPlan(p, table, one) && ValidPlan(p, table, two) && one.slots == two.slots && one.logicalRows == two.logicalRows
    ensures forall k :: 0 <= k < |one.slots| ==> k in one.contents && k in two.contents
    ensures Database(p, table, one) == Database(p, table, two)
      <==> (forall k :: 0 <= k < |one.slots| ==> one.contents[k] == two.contents[k])
  {
    hide Concatenated, ValidPlan;
    var n, size := |one.slots|, p.shardRows(table);
    PlanNumbers(p, table, one);
    PlanNumbers(p, table, two);
    forall k | 0 <= k < n
      ensures Concatenated(one, n) == Concatenated(two, n) ==> one.contents[k] == two.contents[k]
      ensures |Concatenated(one, n)| == n * size == |Concatenated(two, n)|
    {
      ConcatenatedAt(p, table, one, n, k);
      ConcatenatedAt(p, table, two, n, k);
    }
    if forall k :: 0 <= k < n ==> one.contents[k] == two.contents[k] {
      SameConcatenated(one, two, n);
    }
    if Database(p, table, one) == Database(p, table, two) {
      DatabaseHead(p, table, one);
      DatabaseHead(p, table, two);
    }
  }

  lemma PlanNumbers(p: Parameters, table: Table, plan: Plan)
    requires ValidPlan(p, table, plan)
    ensures |plan.slots| > 0 && forall k :: 0 <= k < |plan.slots| ==> k in plan.contents
  {
    forall k | 0 <= k < |plan.slots|
      ensures k in plan.contents
    {
      assert plan.slots[k].id == k;
    }
  }

  lemma DatabaseHead(p: Parameters, table: Table, plan: Plan)
    requires ValidPlan(p, table, plan)
    ensures Concatenated(plan, |plan.slots|) == Database(p, table, plan)[..|Concatenated(plan, |plan.slots|)|]
  {
    hide Concatenated;
  }

  lemma {:induction false} SameConcatenated(one: Plan, two: Plan, n: nat)
    requires forall k | 0 <= k < n :: k in one.contents && k in two.contents && one.contents[k] == two.contents[k]
    ensures Concatenated(one, n) == Concatenated(two, n)
  {
    if n > 0 {
      SameConcatenated(one, two, n - 1);
    }
  }

  /** A proper query whose answers from the two databases differ. */
  ghost predicate ToldApart(p: Parameters, table: Table, one: Plan, two: Plan, query: Vector)
    requires p.Valid() && ValidPlan(p, table, one) && ValidPlan(p, table, two)
  {
    var a, b := Database(p, table, one), Database(p, table, two);
    && |query| == |a| == |b| && Canonical(p.q(table), query)
    && Product(p.q(table), p.cols(table), query, a) != Product(p.q(table), p.cols(table), query, b)
  }

  /** Different shards of reduced rows are told apart by a query that selects one row. */
  lemma TellsApart(p: Parameters, table: Table, one: Plan, two: Plan, k: nat) returns (query: Vector)
    requires p.Valid() && ValidPlan(p, table, one) && ValidPlan(p, table, two) && one.slots == two.slots && one.logicalRows == two.logicalRows
    requires k < |one.slots| && k in one.contents && k in two.contents && one.contents[k] != two.contents[k]
    requires Plain(p, table, one.contents[k]) && Plain(p, table, two.contents[k])
    ensures ToldApart(p, table, one, two, query)
  {
    hide Dot, Database, ValidPlan, Unit, Cell;
    var row, col := PlainDiffer(p, table, one.contents[k], two.contents[k]);
    var at := k * p.shardRows(table) + row;
    RowOfDatabase(p, table, one, k, row);
    RowOfDatabase(p, table, two, k, row);
    query := Unit(one.logicalRows, at);
    UnitCanonical(p.q(table), one.logicalRows, at);
    UnitProduct(p.q(table), p.cols(table), Database(p, table, one), at, col);
    UnitProduct(p.q(table), p.cols(table), Database(p, table, two), at, col);
    ModUnique(Cell(one.contents[k][row], col), p.q(table), 0, Cell(one.contents[k][row], col));
    ModUnique(Cell(two.contents[k][row], col), p.q(table), 0, Cell(two.contents[k][row], col));
  }

  lemma RowOfDatabase(p: Parameters, table: Table, plan: Plan, k: nat, row: nat)
    requires ValidPlan(p, table, plan) && k < |plan.slots| && k in plan.contents && row < p.shardRows(table)
    ensures |plan.contents[k]| == p.shardRows(table) && |Database(p, table, plan)| == plan.logicalRows
    ensures 0 <= k * p.shardRows(table) && k * p.shardRows(table) + row < plan.logicalRows
    ensures Database(p, table, plan)[k * p.shardRows(table) + row] == plan.contents[k][row]
  {
    hide Concatenated;
    var n, size := |plan.slots|, p.shardRows(table);
    assert plan.slots[k].id == k;
    ConcatenatedAt(p, table, plan, n, k);
    var rows := Concatenated(plan, n);
    assert rows[k * size..k * size + size][row] == rows[k * size + row];
  }

  lemma UnitProduct(q: u64, cols: nat, rows: Matrix, at: nat, col: nat)
    requires q > 0 && at < |rows| && col < cols
    ensures Product(q, cols, Unit(|rows|, at), rows)[col] == Cell(rows[at], col) % q
  {
    hide Dot;
    DotOfUnit(Unit(|rows|, at), rows, at, col);
  }

  /**
   Generation isolation, exactly. In every interleaving of prepares, loads, restarts, overlapping and late
   activations, evictions, failed and completed publishes, a query that looked up generation G and whose
   groups all answered, at whatever later times and after whatever retries, is answered from the database
   published for G if and only if every replica that answered had last been activated, for G and the
   table, with the published digests. If any group failed, the query reports an error.
   */
  lemma IsolationExactly(p: Parameters, targets: nat -> Target, run: seq<System>, steps: seq<Generations.Step>, q: Query)
    requires Injective(p.digest) && Behaves(p, run, steps) && Answered(p, targets, run, q)
    ensures AllServed(p, targets, run, q) && ValidPlan(p, q.table, ServedPlan(p, targets, run, q))
    ensures ValidPlan(p, q.table, q.snapshot.attempt.plans[q.table])
    ensures AnswerersAgree(p, targets, run, q)
      <==> Database(p, q.table, ServedPlan(p, targets, run, q)) == Database(p, q.table, q.snapshot.attempt.plans[q.table])
  {
    hide Behaves, Injective, ValidPlan, Database, GroupServed, ServedRows, TryReplicas, AnswerersAgree;
    AnswersStanding(p, targets, run, steps, q);
    CapturedPublished(p, run, steps, q.captured, q.snapshot, q.table);
    ServedExactly(p, targets, run, q);
    DatabasesExactly(p, q.table, ServedPlan(p, targets, run, q), q.snapshot.attempt.plans[q.table]);
  }

  /** Then the combined answer is the query times the published database. */
  lemma GenerationIsolation(p: Parameters, targets: nat -> Target, run: seq<System>, steps: seq<Generations.Step>, q: Query)
    requires Injective(p.digest) && Behaves(p, run, steps) && Answered(p, targets, run, q)
    ensures AllServed(p, targets, run, q) && ValidPlan(p, q.table, q.snapshot.attempt.plans[q.table])
    ensures forall i :: 0 <= i < |q.order| ==> |GroupPartials(p, targets, run, q)[i]| == p.cols(q.table)
    ensures var whole := Database(p, q.table, q.snapshot.attempt.plans[q.table]);
      && |q.coefficients| == |whole|
      && (AnswerersAgree(p, targets, run, q) ==>
            Fold(p.q(q.table), p.cols(q.table), GroupPartials(p, targets, run, q))
              == Product(p.q(q.table), p.cols(q.table), q.coefficients, whole))
  {
    hide Behaves, Injective, Product, Fold, ValidPlan, Database, GroupServed, ServedRows, TryReplicas, AnswerersAgree, ServedPlan;
    AnswersStanding(p, targets, run, steps, q);
    IsolationExactly(p, targets, run, steps, q);
    PlanIsWhole(p, q.table, q.snapshot.attempt.plans[q.table], q.coefficients);
  }

  /** Otherwise the same replicas answer some query wrongly. */
  lemma DisagreementTells(p: Parameters, targets: nat -> Target, run: seq<System>, steps: seq<Generations.Step>, q: Query) returns (query: Vector)
    requires Injective(p.digest) && Behaves(p, run, steps) && Answered(p, targets, run, q)
    requires forall i :: 0 <= i < |run| ==> AllPlain(p, run[i])
    requires AllServed(p, targets, run, q) && !AnswerersAgree(p, targets, run, q)
    ensures ValidPlan(p, q.table, ServedPlan(p, targets, run, q)) && ValidPlan(p, q.table, q.snapshot.attempt.plans[q.table])
    ensures ToldApart(p, q.table, ServedPlan(p, targets, run, q), q.snapshot.attempt.plans[q.table], query)
  {
    hide Behaves, Injective, ValidPlan, Database, GroupServed, ServedRows, TryReplicas, AnswerersAgree, AllPlain, ToldApart;
    IsolationExactly(p, targets, run, steps, q);
    ServedExactly(p, targets, run, q);
    var plan := q.snapshot.attempt.plans[q.table];
    PlanNumbers(p, q.table, plan);
    var k :| 0 <= k < |plan.slots| && ServedRows(p, targets, run, q, k) != plan.contents[k];
    PlainRows(p, targets, run, steps, q, k);
    query := TellsApart(p, q.table, ServedPlan(p, targets, run, q), plan, k);
  }

  lemma PlainRows(p: Parameters, targets: nat -> Target, run: seq<System>, steps: seq<Generations.Step>, q: Query, k: nat)
    requires Injective(p.digest) && Behaves(p, run, steps) && Answered(p, targets, run, q) && AllServed(p, targets, run, q)
    requires forall i :: 0 <= i < |run| ==> AllPlain(p, run[i])
    requires k < |q.snapshot.attempt.plans[q.table].slots| && k in q.snapshot.attempt.plans[q.table].contents
    requires ValidPlan(p, q.table, q.snapshot.attempt.plans[q.table])
    ensures Plain(p, q.table, ServedRows(p, targets, run, q, k)) && Plain(p, q.table, q.snapshot.attempt.plans[q.table].contents[k])
  {
    hide Behaves, Injective, ValidPlan, TryReplicas, Inv, Plain, GroupServed, Sliceable, Asked, Relied, ServedRows, Assigned;
    var group := q.snapshot.attempt.plans[q.table].slots[k].group;
    assert GroupServed(p, targets, run, q, group);
    GroupAnswered(p, targets, run, q, group);
    var t, x := AnswererOf(p, targets, run, q, group), q.snapshot;
    var a, b := Used(p, targets, run, q, group), Expected(p, targets, run, q, group);
    CapturedPublished(p, run, steps, q.captured, x, q.table);
    assert q.captured <= t.time && (q.table, group) in x.ready && t.worker in x.ready[(q.table, group)] by {
      var i :| 0 <= i < |q.tries[group]| && q.tries[group][i] == t;
    }
    RunInv(p, run, steps, t.time);
    PublishedForever(p, run, steps, q.captured, t.time, x);
    ReadyFacts(p, run[t.time], x, b);
    ExtendedFacts(p, run[t.time], b);
    if Place(b) in run[t.time].standing {
      StandingSent(p, run[t.time], Place(b));
    }
    SlotServed(p, targets, run, q, k);
    assert AllPlain(p, run[t.time]) && a.table == q.table by { SameTable(p, targets, run, q, group); }
  }

  lemma SameTable(p: Parameters, targets: nat -> Target, run: seq<System>, q: Query, group: Group)
    requires Answered(p, targets, run, q) && group in q.order && GroupServed(p, targets, run, q, group)
    ensures Used(p, targets, run, q, group).table == q.table
  {
    hide Assigned, WorkerSum, Answerable, Mixed, ValidPlan, Answered, Used, AnswererOf;
  }

  lemma StandingSent(p: Parameters, s: System, k: (nat, nat, Table))
    requires Inv(p, s) && k in s.standing
    ensures s.standing[k] in s.sent
  {
    hide Assigned, WorkersSound, LatestValid, Published;
  }

  /** In a run whose effective extensions were harmless, every answer comes from the published database. */
  lemma HarmlessRunsIsolate(p: Parameters, targets: nat -> Target, run: seq<System>, steps: seq<Generations.Step>, q: Query)
    requires Injective(p.digest) && Behaves(p, run, steps) && Answered(p, targets, run, q)
    requires forall i :: 0 <= i < |steps| ==> HarmlessStep(p, run[i], steps[i])
    ensures AllServed(p, targets, run, q) && AnswerersAgree(p, targets, run, q)
  {
    hide Behaves, Injective, HarmlessStep, GroupServed, GroupAgrees, TryReplicas, ServedPlan;
    AnswersStanding(p, targets, run, steps, q);
    var plan := q.snapshot.attempt.plans[q.table];
    forall k | 0 <= k < |plan.slots|
      ensures GroupAgrees(p, targets, run, q, plan.slots[k].group)
    {
      HarmlessGroup(p, targets, run, steps, q, plan.slots[k].group);
    }
  }

  lemma HarmlessGroup(p: Parameters, targets: nat -> Target, run: seq<System>, steps: seq<Generations.Step>, q: Query, group: Group)
    requires Injective(p.digest) && Behaves(p, run, steps) && Answered(p, targets, run, q) && group in q.order
    requires GroupServed(p, targets, run, q, group)
    requires forall i :: 0 <= i < |steps| ==> HarmlessStep(p, run[i], steps[i])
    ensures GroupAgrees(p, targets, run, q, group)
  {
    hide Injective, Behaves, Inv, Evaluated, Asked, Sliceable, WorkerSum, Answerable, ValidPlan, Assigned, Mixed, TryReplicas, Relied,
      SameDigests, HarmlessStep;
    GroupAnswered(p, targets, run, q, group);
    var t, x := AnswererOf(p, targets, run, q, group), q.snapshot;
    CapturedPublished(p, run, steps, q.captured, x, q.table);
    assert q.captured <= t.time && (q.table, group) in x.ready && t.worker in x.ready[(q.table, group)] by {
      var i :| 0 <= i < |q.tries[group]| && q.tries[group][i] == t;
    }
    RunInv(p, run, steps, t.time);
    PublishedForever(p, run, steps, q.captured, t.time, x);
    var b := Expected(p, targets, run, q, group);
    ReadyFacts(p, run[t.time], x, b);
    HarmlessIntact(p, run, steps, t.time);
    assert Agrees(p, run[t.time], b);
    AnswererLists(p, targets, run, q, group);
  }

  /** A replica that answered listed the table. */
  lemma AnswererLists(p: Parameters, targets: nat -> Target, run: seq<System>, q: Query, group: Group)
    requires Answered(p, targets, run, q) && group in q.order
    ensures var t := AnswererOf(p, targets, run, q, group);
      Lists(run[t.time].workers[t.worker], Expected(p, targets, run, q, group))
  {
    hide SumShards, Asked, Sliceable, TryReplicas;
    GroupAnswered(p, targets, run, q, group);
  }
}
