/**
 A run in which a late activation makes a published generation answer wrongly: an attempt is abandoned
 with its activation still on the way, a second attempt is published under the same number with other
 rows, and then the first activation arrives. An older generation keeps its shard cached.
 */
module LateRun {
  import opened Bytes
  import opened Results
  import opened ShardEvaluation
  import opened Worker
  import opened Generations
  import opened Answers
  import opened Replicas

  function OneShard(group: Group, rows: Matrix): (plan: Plan) {
    Plan([Slot(0, 0, group)], map[0 := rows], |rows|)
  }

  function OneActivation(serial: nat, generation: nat, table: Table, group: Group, rows: Matrix): (a: Activation)
    ensures a.table in a.attempt.plans && a.attempt.plans[a.table] == OneShard(group, rows)
  {
    Activation(Attempt(serial, generation, map[table := OneShard(group, rows)]), table, group, 0)
  }

  function KeyOf(p: Parameters, table: Table, rows: Matrix): (k: ShardKey) {
    ShardKey(table, 0, p.digest(rows))
  }

  function PrepareIt(p: Parameters, table: Table, rows: Matrix): (s: Generations.Step) {
    WorkerStep(0, PrepareStep(KeyOf(p, table, rows), 0, |rows|, rows, Saved))
  }

  /** The shards an activation call decides to keep. */
  function Kept(p: Parameters, w: Worker.State, a: Activation): (keys: set<ShardKey>)
    requires a.table in a.attempt.plans
  {
    ReferencedKeys(Widen(p, w, a).active)
  }

  /** A whole activation call with nothing in between. */
  function Apply(p: Parameters, w: Worker.State, a: Activation): (n: Worker.State)
    requires a.table in a.attempt.plans
  {
    Swept(Widen(p, w, a), Kept(p, w, a))
  }

  ghost function OpenSteps(p: Parameters, tip: nat, a: Activation, rows: Matrix): (steps: seq<Generations.Step>) {
    [Begin(tip, a.attempt.plans), PrepareIt(p, a.table, rows), Send(a.table, a.group, 0)]
  }

  ghost function CallSteps(p: Parameters, w: Worker.State, a: Activation): (steps: seq<Generations.Step>)
    requires a.table in a.attempt.plans
  {
    [Check(a), Extend(a), Sweep(a, Kept(p, w, a))]
  }

  /** The run, in order: publish, an abandoned attempt, a second attempt at its number, the late delivery. */
  ghost function LateSteps(p: Parameters, table: Table, group: Group, one: Matrix, two: Matrix, tip: nat): (steps: seq<Generations.Step>)
    ensures |steps| == 23
  {
    var a0 := OneActivation(0, tip, table, group, one);
    var a1 := OneActivation(1, tip + 1, table, group, one);
    var a2 := OneActivation(2, tip + 1, table, group, two);
    OpenSteps(p, tip, a0, one) + CallSteps(p, W1(p, table, one), a0) + [Acknowledge(a0), Swap]
    + (OpenSteps(p, tip + 1, a1, one) + [Abandon])
    + (OpenSteps(p, tip + 1, a2, two) + CallSteps(p, W3(p, table, group, one, two, tip), a2) + [Acknowledge(a2), Swap])
    + CallSteps(p, W4(p, table, group, one, two, tip), a1)
  }

  /** One publish call of the run, from taking its number to the activation being sent. */
  ghost predicate Opens(p: Parameters, steps: seq<Generations.Step>, n: nat, tip: nat, a: Activation, rows: Matrix) {
    && n + 3 <= |steps| && steps[n] == Begin(tip, a.attempt.plans)
    && steps[n + 1] == PrepareIt(p, a.table, rows) && steps[n + 2] == Send(a.table, a.group, 0)
  }

  /** One activation call on the worker in state `w`. */
  ghost predicate Calls(p: Parameters, steps: seq<Generations.Step>, n: nat, w: Worker.State, a: Activation) {
    && n + 3 <= |steps| && a.table in a.attempt.plans
    && steps[n] == Check(a) && steps[n + 1] == Extend(a) && steps[n + 2] == Sweep(a, Kept(p, w, a))
  }

  ghost predicate Publishes(steps: seq<Generations.Step>, n: nat, a: Activation) {
    n + 2 <= |steps| && steps[n] == Acknowledge(a) && steps[n + 1] == Swap
  }

  lemma FirstSteps(p: Parameters, table: Table, group: Group, one: Matrix, two: Matrix, tip: nat)
    ensures var steps := LateSteps(p, table, group, one, two, tip);
      var a0 := OneActivation(0, tip, table, group, one);
      Opens(p, steps, 0, tip, a0, one) && Calls(p, steps, 3, W1(p, table, one), a0) && Publishes(steps, 6, a0)
  {
    hide Kept, PrepareIt, W1, W3, W4, OneActivation;
  }

  lemma SecondSteps(p: Parameters, table: Table, group: Group, one: Matrix, two: Matrix, tip: nat)
    ensures var steps := LateSteps(p, table, group, one, two, tip);
      Opens(p, steps, 8, tip + 1, OneActivation(1, tip + 1, table, group, one), one) && steps[11] == Abandon
  {
    hide Kept, PrepareIt, W1, W3, W4, OneActivation;
  }

  lemma ThirdSteps(p: Parameters, table: Table, group: Group, one: Matrix, two: Matrix, tip: nat)
    ensures var steps := LateSteps(p, table, group, one, two, tip);
      var a2 := OneActivation(2, tip + 1, table, group, two);
      Opens(p, steps, 12, tip + 1, a2, two) && Calls(p, steps, 15, W3(p, table, group, one, two, tip), a2) && Publishes(steps, 18, a2)
  {
    hide Kept, PrepareIt, W1, W3, W4, OneActivation;
  }

  lemma LastSteps(p: Parameters, table: Table, group: Group, one: Matrix, two: Matrix, tip: nat)
    ensures var steps := LateSteps(p, table, group, one, two, tip);
      Calls(p, steps, 20, W4(p, table, group, one, two, tip), OneActivation(1, tip + 1, table, group, one))
  {
    hide Kept, PrepareIt, W1, W3, W4, OneActivation;
  }

  const IDLE_WORKER := Worker.State(map[], map[], map[], 0)
  const ONE_IDLE_WORKER := System([IDLE_WORKER], [], None, map[], 0, {}, {}, {}, {}, {}, map[], {})

  /** Steps taken one after another while each is enabled. */
  ghost function Execute(p: Parameters, s: System, steps: seq<Generations.Step>): (r: Option<System>) {
    if steps == [] then Some(s)
    else
      var before :- Execute(p, s, steps[..|steps| - 1]);
      var step := steps[|steps| - 1];
      if Enabled(p, before, step) && CallsKnown(before) then Some(Generations.Next(p, before, step)) else None
  }

  ghost predicate Reaches(p: Parameters, steps: seq<Generations.Step>, s: System) {
    Execute(p, ONE_IDLE_WORKER, steps) == Some(s) && Inv(p, s)
  }

  lemma ReachesMore(p: Parameters, steps: seq<Generations.Step>, n: nat, s: System, after: System)
    requires n < |steps| && Reaches(p, steps[..n], s) && Enabled(p, s, steps[n])
    requires CallsKnown(s) ==> after == Generations.Next(p, s, steps[n])
    ensures Reaches(p, steps[..n + 1], after)
  {
    hide Generations.Next, Enabled, WorkersSound, LatestValid, StandingTrue, ExtendedStand, Published;
    StepInv(p, s, steps[n]);
    assert steps[..n + 1][..n] == steps[..n];
  }

  lemma Starts(p: Parameters, steps: seq<Generations.Step>)
    ensures Reaches(p, steps[..0], ONE_IDLE_WORKER)
  {
    assert steps[..0] == [];
    InitInv(p, ONE_IDLE_WORKER);
  }

  // ---- what the worker goes through ----

  lemma AssignedOne(p: Parameters, a: Activation, rows: Matrix)
    requires a.table in a.attempt.plans && a.attempt.plans[a.table] == OneShard(a.group, rows)
    ensures GroupShards(p, OneShard(a.group, rows), [Slot(0, 0, a.group)], a.group) == [ActivateShard(0, p.digest(rows))]
    ensures Assigned(p, a) == map[0 := p.digest(rows)]
  {
    var slots := [Slot(0, 0, a.group)];
    assert slots[..0] == [];
    assert GroupShards(p, OneShard(a.group, rows), slots[..0], a.group) == [];
    var shards := GroupShards(p, OneShard(a.group, rows), slots, a.group);
    assert shards == [] + [ActivateShard(0, p.digest(rows))];
    assert shards[..0] == [];
    assert AssignmentOf(shards[..0]) == map[];
  }

  /** Activating one prepared shard, with room for another generation. */
  lemma ApplyOne(p: Parameters, s: Worker.State, a: Activation, rows: Matrix)
    requires a.table in a.attempt.plans && a.attempt.plans[a.table] == OneShard(a.group, rows)
    requires KeyOf(p, a.table, rows) in s.shards && |s.active| < RETAINED_GENERATIONS
    ensures Activatable(s, RequestOf(p, a)) && a.attempt.generation in Widen(p, s, a).active
    ensures Apply(p, s, a).active == Extended(s.active, a.attempt.generation, map[a.table := map[0 := p.digest(rows)]])
    ensures forall k :: k in Apply(p, s, a).shards <==> k in s.shards && Referenced(Apply(p, s, a).active, k)
    ensures forall k | k in Apply(p, s, a).shards :: Apply(p, s, a).shards[k] == s.shards[k]
    ensures Apply(p, s, a).artifacts == s.artifacts && Apply(p, s, a).clock == s.clock
  {
    hide Referenced, Extended, GroupShards, AssignmentOf;
    AssignedOne(p, a, rows);
    ActivatableOne(p, s, a.table, rows);
    ExtendedHere(s.active, a.attempt.generation, a.table, map[0 := p.digest(rows)]);
    RoomForOne(s.active, a.attempt.generation, map[a.table := map[0 := p.digest(rows)]]);
  }

  /** The worker lets the call in and keeps its generation. */
  ghost predicate Accepts(p: Parameters, w: Worker.State, a: Activation)
    requires a.table in a.attempt.plans
  {
    Activatable(w, RequestOf(p, a)) && a.attempt.generation in Widen(p, w, a).active
  }

  lemma ActivatableOne(p: Parameters, s: Worker.State, table: Table, rows: Matrix)
    requires KeyOf(p, table, rows) in s.shards
    ensures Activatable(s, map[table := [ActivateShard(0, p.digest(rows))]])
  {
    var shards := [ActivateShard(0, p.digest(rows))];
    var request: ActivateTables := map[table := shards];
    assert request[table] != [];
    assert TableActivatable(s.shards, table, shards);
  }

  lemma RoomForOne(active: map<nat, Tables>, g: nat, tables: Tables)
    requires |active| < RETAINED_GENERATIONS
    ensures Trim(Extended(active, g, tables)) == Extended(active, g, tables)
  {
    var extended := Extended(active, g, tables);
    assert extended.Keys == active.Keys + {g};
    assert |extended.Keys| <= |active.Keys| + 1;
  }

  lemma ExtendedNew(active: map<nat, Tables>, g: nat, tables: Tables)
    requires g !in active
    ensures Extended(active, g, tables) == active[g := tables]
  {
    var none: Tables := map[];
    assert none + tables == tables;
  }

  /** Preparing a shard the worker has not seen. */
  lemma PrepareNew(p: Parameters, s: Worker.State, table: Table, rows: Matrix)
    requires KeyOf(p, table, rows) !in s.shards && Buildable(p, table, 0, |rows|, rows)
    requires forall at | at in s.artifacts :: s.artifacts[at].digest != p.digest(rows)
    ensures var n := Worker.Next(p, s, PrepareIt(p, table, rows).step);
      && KeyOf(p, table, rows) in n.shards && n.shards[KeyOf(p, table, rows)].start == 0
      && n.shards.Keys == s.shards.Keys + {KeyOf(p, table, rows)}
      && (forall k | k in s.shards :: n.shards[k] == s.shards[k])
      && n.active == s.active && (forall at | at in n.artifacts && at !in s.artifacts :: n.artifacts[at].digest == p.digest(rows))
      && (table, 0) in n.artifacts && n.artifacts[(table, 0)].digest == p.digest(rows)
      && n.artifacts.Keys == s.artifacts.Keys + {(table, 0)}
  {
    hide Buildable;
  }

  lemma PrepareCached(p: Parameters, s: Worker.State, table: Table, rows: Matrix)
    requires KeyOf(p, table, rows) in s.shards && s.shards[KeyOf(p, table, rows)].start == 0
    ensures Worker.Next(p, s, PrepareIt(p, table, rows).step) == s
  {
  }

  /** The worker's states: first prepared, first activated, second prepared, second activated. */
  ghost function W1(p: Parameters, table: Table, one: Matrix): (w: Worker.State) {
    Worker.Next(p, IDLE_WORKER, PrepareIt(p, table, one).step)
  }

  ghost function W2(p: Parameters, table: Table, group: Group, one: Matrix, tip: nat): (w: Worker.State) {
    Apply(p, W1(p, table, one), OneActivation(0, tip, table, group, one))
  }

  ghost function W3(p: Parameters, table: Table, group: Group, one: Matrix, two: Matrix, tip: nat): (w: Worker.State) {
    Worker.Next(p, W2(p, table, group, one, tip), PrepareIt(p, table, two).step)
  }

  ghost function W4(p: Parameters, table: Table, group: Group, one: Matrix, two: Matrix, tip: nat): (w: Worker.State) {
    Apply(p, W3(p, table, group, one, two, tip), OneActivation(2, tip + 1, table, group, two))
  }

  lemma FirstWorker(p: Parameters, table: Table, group: Group, one: Matrix, tip: nat)
    requires Buildable(p, table, 0, |one|, one)
    ensures Accepts(p, W1(p, table, one), OneActivation(0, tip, table, group, one))
    ensures var w := W2(p, table, group, one, tip);
      && w.active == map[tip := map[table := map[0 := p.digest(one)]]]
      && w.shards.Keys == {KeyOf(p, table, one)} && w.shards[KeyOf(p, table, one)].start == 0
      && w.artifacts.Keys == {(table, 0)} && w.artifacts[(table, 0)].digest == p.digest(one)
  {
    hide Buildable, Apply, Worker.Next, Extended, Referenced, Accepts, Widen, Activatable, RequestOf;
    PrepareNew(p, IDLE_WORKER, table, one);
    var a := OneActivation(0, tip, table, group, one);
    ApplyOne(p, W1(p, table, one), a, one);
    ApplyAccepted(p, W1(p, table, one), a, one);
    ExtendedNew(map[], tip, map[table := map[0 := p.digest(one)]]);
    var w := W2(p, table, group, one, tip);
    OneReference(w.active, tip, table, p.digest(one));
  }

  lemma OneReference(active: map<nat, Tables>, g: nat, table: Table, digest: Digest)
    requires g in active && active[g] == map[table := map[0 := digest]]
    ensures Referenced(active, ShardKey(table, 0, digest))
    ensures active.Keys == {g} ==> forall k | Referenced(active, k) :: k == ShardKey(table, 0, digest)
  {
    assert References(active, g, ShardKey(table, 0, digest));
  }

  lemma SecondWorker(p: Parameters, table: Table, group: Group, one: Matrix, two: Matrix, tip: nat)
    requires Buildable(p, table, 0, |one|, one) && Buildable(p, table, 0, |two|, two) && p.digest(one) != p.digest(two)
    ensures Accepts(p, W3(p, table, group, one, two, tip), OneActivation(2, tip + 1, table, group, two))
    ensures var w := W4(p, table, group, one, two, tip);
      && KeyOf(p, table, one) in w.shards && |w.active| == 2 && tip + 1 in w.active
  {
    hide Buildable, Apply, Worker.Next, Extended, Referenced, W2, Accepts, Widen, Activatable, RequestOf;
    FirstWorker(p, table, group, one, tip);
    var w2, w3 := W2(p, table, group, one, tip), W3(p, table, group, one, two, tip);
    PrepareNew(p, w2, table, two);
    assert w3.active == w2.active && |w3.active| == 1;
    ApplyOne(p, w3, OneActivation(2, tip + 1, table, group, two), two);
    ApplyAccepted(p, w3, OneActivation(2, tip + 1, table, group, two), two);
    ExtendedNew(w3.active, tip + 1, map[table := map[0 := p.digest(two)]]);
    var w4 := W4(p, table, group, one, two, tip);
    assert w4.active.Keys == {tip, tip + 1};
    assert |w4.active.Keys| == 2;
    OneReference(w4.active, tip, table, p.digest(one));
  }

  // ---- the system's states ----

  ghost function Ready(a: Activation): (x: Snapshot) {
    Snapshot(a.attempt, map[(a.table, a.group) := [0]])
  }

  lemma OneShardValid(p: Parameters, table: Table, group: Group, rows: Matrix)
    requires Buildable(p, table, 0, |rows|, rows)
    ensures ValidPlan(p, table, OneShard(group, rows))
  {
  }

  lemma OneReady(a: Activation, rows: Matrix)
    requires a.attempt.plans == map[a.table := OneShard(a.group, rows)]
    ensures GroupsReady(Ready(a)) && AddReady(Snapshot(a.attempt, map[]), a) == Ready(a).(ready := map[(a.table, a.group) := [a.worker]])
  {
    assert [] + [a.worker] == [a.worker];
  }

  /** A publish call up to its activation being sent: the number is taken, the shard prepared. */
  ghost function Begun(s: System, a: Activation, w: Worker.State): (n: System) {
    s.(workers := [w], building := Some(Snapshot(a.attempt, map[])), latest := s.latest[a.attempt.generation := a.attempt],
       serial := s.serial + 1, sent := s.sent + {a})
  }

  /** A whole activation call that takes effect. */
  ghost function Called(p: Parameters, s: System, a: Activation): (n: System)
    requires |s.workers| == 1 && a.table in a.attempt.plans
  {
    var w := s.workers[0];
    s.(workers := [Apply(p, w, a)], admitted := s.admitted + {a}, sweeping := s.sweeping + {(a, Kept(p, w, a))},
       extended := s.extended + {a}, applied := s.applied + {a}, standing := s.standing[Place(a) := a])
  }

  /** The rest of a publish call: the activation is acknowledged, and the snapshot swapped in. */
  ghost function Swapped(s: System, a: Activation): (n: System) {
    s.(building := None, live := Retain(s.live, Ready(a)), published := s.published + {Ready(a)})
  }

  lemma Attempted(p: Parameters, steps: seq<Generations.Step>, n: nat, s: System, tip: nat, a: Activation, rows: Matrix, w: Worker.State)
    requires Opens(p, steps, n, tip, a, rows)
    requires Reaches(p, steps[..n], s) && s.building.None? && |s.workers| == 1
    requires w == Worker.Next(p, s.workers[0], PrepareIt(p, a.table, rows).step)
    requires a.attempt == Attempt(s.serial, NextGeneration(Generations.Newest(s.live), tip), map[a.table := OneShard(a.group, rows)]) && a.worker == 0
    requires tip < U64_LIMIT && (s.live != [] ==> s.live[0].attempt.generation < U64_MAX) && ValidPlan(p, a.table, OneShard(a.group, rows))
    ensures Reaches(p, steps[..n + 3], Begun(s, a, w))
  {
    hide ValidPlan, Worker.Next, Reaches, OneShard;
    assert a.table in a.attempt.plans;
    var s1 := s.(building := Some(Snapshot(a.attempt, map[])), latest := s.latest[a.attempt.generation := a.attempt], serial := s.serial + 1);
    ReachesMore(p, steps, n, s, s1);
    var s2 := s1.(workers := [w]);
    assert s1.workers[0 := w] == [w];
    ReachesMore(p, steps, n + 1, s1, s2);
    ReachesMore(p, steps, n + 2, s2, Begun(s, a, w));
  }

  lemma CallRuns(p: Parameters, steps: seq<Generations.Step>, n: nat, s: System, a: Activation)
    requires |s.workers| == 1 && a.worker == 0 && Calls(p, steps, n, s.workers[0], a)
    requires Reaches(p, steps[..n], s) && a in s.sent && Accepts(p, s.workers[0], a)
    ensures Reaches(p, steps[..n + 3], Called(p, s, a))
  {
    hide Reaches, Widen, Swept, Activatable, RequestOf;
    var w := s.workers[0];
    var wide := Widen(p, w, a);
    var s1 := s.(admitted := s.admitted + {a});
    ReachesMore(p, steps, n, s, s1);
    var s2 := s1.(workers := [wide], sweeping := s.sweeping + {(a, Kept(p, w, a))}, extended := s.extended + {a},
                  standing := s.standing[Place(a) := a]);
    assert s1.workers[0 := wide] == [wide];
    ReachesMore(p, steps, n + 1, s1, s2);
    assert s2.workers[0 := Apply(p, w, a)] == [Apply(p, w, a)];
    ReachesMore(p, steps, n + 2, s2, Called(p, s, a));
  }

  lemma SwapRuns(p: Parameters, steps: seq<Generations.Step>, n: nat, s: System, a: Activation, rows: Matrix)
    requires Publishes(steps, n, a)
    requires Reaches(p, steps[..n], s) && s.building == Some(Snapshot(a.attempt, map[])) && a in s.applied
    requires a.worker == 0 && a.attempt.plans == map[a.table := OneShard(a.group, rows)]
    ensures Reaches(p, steps[..n + 2], Swapped(s, a))
  {
    hide Reaches, GroupsReady, Retain;
    OneReady(a, rows);
    var s1 := s.(building := Some(Ready(a)));
    ReachesMore(p, steps, n, s, s1);
    ReachesMore(p, steps, n + 1, s1, Swapped(s, a));
  }

  /** The states after each publish call. */
  ghost function FirstLive(p: Parameters, table: Table, group: Group, one: Matrix, tip: nat): (s: System) {
    var a0 := OneActivation(0, tip, table, group, one);
    Swapped(Called(p, Begun(ONE_IDLE_WORKER, a0, W1(p, table, one)), a0), a0)
  }

  ghost function Outstanding(p: Parameters, table: Table, group: Group, one: Matrix, tip: nat): (s: System) {
    var a1 := OneActivation(1, tip + 1, table, group, one);
    Begun(FirstLive(p, table, group, one, tip), a1, W2(p, table, group, one, tip)).(building := None)
  }

  ghost function BothLive(p: Parameters, table: Table, group: Group, one: Matrix, two: Matrix, tip: nat): (s: System) {
    var a2 := OneActivation(2, tip + 1, table, group, two);
    Swapped(Called(p, Begun(Outstanding(p, table, group, one, tip), a2, W3(p, table, group, one, two, tip)), a2), a2)
  }

  lemma FirstFacts(p: Parameters, table: Table, group: Group, one: Matrix, tip: nat)
    ensures var s := FirstLive(p, table, group, one, tip);
      && s.workers == [W2(p, table, group, one, tip)] && s.building.None? && s.serial == 1
      && s.live == [Ready(OneActivation(0, tip, table, group, one))]
  {
    hide Apply, Worker.Next;
    RetainOne(Ready(OneActivation(0, tip, table, group, one)));
  }

  lemma FirstPublished(p: Parameters, table: Table, group: Group, one: Matrix, two: Matrix, tip: nat)
    requires tip < U64_LIMIT && Buildable(p, table, 0, |one|, one)
    ensures Reaches(p, LateSteps(p, table, group, one, two, tip)[..8], FirstLive(p, table, group, one, tip))
  {
    hide Buildable, ValidPlan, Worker.Next, Apply, Reaches, PrepareIt, Retain, Kept, Accepts, LateSteps, Opens, Calls, Publishes;
    var steps := LateSteps(p, table, group, one, two, tip);
    FirstSteps(p, table, group, one, two, tip);
    var a0 := OneActivation(0, tip, table, group, one);
    OneShardValid(p, table, group, one);
    FirstWorker(p, table, group, one, tip);
    Starts(p, steps);
    Attempted(p, steps, 0, ONE_IDLE_WORKER, tip, a0, one, W1(p, table, one));
    var s := Begun(ONE_IDLE_WORKER, a0, W1(p, table, one));
    CallRuns(p, steps, 3, s, a0);
    SwapRuns(p, steps, 6, Called(p, s, a0), a0, one);
  }

  /** The next attempt finds its shard cached, sends its activation, and is given up. */
  lemma SecondAbandoned(p: Parameters, table: Table, group: Group, one: Matrix, two: Matrix, tip: nat)
    requires tip + 2 < U64_LIMIT && Buildable(p, table, 0, |one|, one)
    ensures Reaches(p, LateSteps(p, table, group, one, two, tip)[..12], Outstanding(p, table, group, one, tip))
  {
    hide Buildable, ValidPlan, Worker.Next, Apply, Reaches, W2, PrepareIt, FirstLive, Kept, Accepts, Retain, CallsKnown, LateSteps, Opens, Calls, Publishes;
    var steps := LateSteps(p, table, group, one, two, tip);
    SecondSteps(p, table, group, one, two, tip);
    var a1 := OneActivation(1, tip + 1, table, group, one);
    OneShardValid(p, table, group, one);
    FirstWorker(p, table, group, one, tip);
    FirstPublished(p, table, group, one, two, tip);
    FirstFacts(p, table, group, one, tip);
    var s := FirstLive(p, table, group, one, tip);
    var w := W2(p, table, group, one, tip);
    PrepareCached(p, w, table, one);
    Attempted(p, steps, 8, s, tip + 1, a1, one, w);
    GivenUp(p, steps, 11, Begun(s, a1, w));
  }

  lemma GivenUp(p: Parameters, steps: seq<Generations.Step>, n: nat, s: System)
    requires n < |steps| && steps[n] == Abandon && Reaches(p, steps[..n], s) && s.building.Some?
    ensures Reaches(p, steps[..n + 1], s.(building := None))
  {
    hide Reaches;
    ReachesMore(p, steps, n, s, s.(building := None));
  }

  lemma OutstandingFacts(p: Parameters, table: Table, group: Group, one: Matrix, tip: nat)
    ensures var s := Outstanding(p, table, group, one, tip);
      && s.workers == [W2(p, table, group, one, tip)] && s.building.None? && s.serial == 2
      && s.live == [Ready(OneActivation(0, tip, table, group, one))] && OneActivation(1, tip + 1, table, group, one) in s.sent
  {
    hide FirstLive, W2;
    FirstFacts(p, table, group, one, tip);
  }

  /** The second attempt takes the same number, with other rows, and is published. */
  lemma SecondPublished(p: Parameters, table: Table, group: Group, one: Matrix, two: Matrix, tip: nat)
    requires tip + 2 < U64_LIMIT && p.digest(one) != p.digest(two)
    requires Buildable(p, table, 0, |one|, one) && Buildable(p, table, 0, |two|, two)
    ensures Reaches(p, LateSteps(p, table, group, one, two, tip)[..20], BothLive(p, table, group, one, two, tip))
  {
    hide Buildable, ValidPlan, Worker.Next, Apply, Reaches, W2, PrepareIt, Retain, Outstanding, Kept, Accepts, LateSteps, Opens, Calls, Publishes;
    var steps := LateSteps(p, table, group, one, two, tip);
    ThirdSteps(p, table, group, one, two, tip);
    var a2 := OneActivation(2, tip + 1, table, group, two);
    OneShardValid(p, table, group, two);
    SecondAbandoned(p, table, group, one, two, tip);
    SecondWorker(p, table, group, one, two, tip);
    OutstandingFacts(p, table, group, one, tip);
    var s := Outstanding(p, table, group, one, tip);
    var w := W3(p, table, group, one, two, tip);
    Attempted(p, steps, 12, s, tip + 1, a2, two, w);
    CallRuns(p, steps, 15, Begun(s, a2, w), a2);
    SwapRuns(p, steps, 18, Called(p, Begun(s, a2, w), a2), a2, two);
  }

  lemma BothFacts(p: Parameters, table: Table, group: Group, one: Matrix, two: Matrix, tip: nat)
    ensures var s := BothLive(p, table, group, one, two, tip);
      && s.workers == [W4(p, table, group, one, two, tip)] && OneActivation(1, tip + 1, table, group, one) in s.sent
      && Ready(OneActivation(2, tip + 1, table, group, two)) in s.live
  {
    hide Outstanding, Apply, W3, Retain;
    OutstandingFacts(p, table, group, one, tip);
    RetainAdded(Outstanding(p, table, group, one, tip).live, Ready(OneActivation(2, tip + 1, table, group, two)));
  }

  lemma RetainAdded(live: seq<Snapshot>, added: Snapshot)
    ensures added in Retain(live, added)
  {
    assert Retain(live, added)[0] == added;
  }

  lemma RetainOne(added: Snapshot)
    ensures Retain([], added) == [added]
  {
  }

  /** The worker answers the query for that generation, but not with the query times `rows`. */
  ghost predicate AnswersWrong(p: Parameters, w: Worker.State, table: Table, group: Group, rows: Matrix, generation: nat, query: Vector)
    requires p.Valid() && |query| == |rows|
  {
    && Sliceable(query, p.shardRows(table), OneShard(group, rows).slots)
    && var r := Evaluated(p, w.active, w.shards, table, generation, Asked(p, table, OneShard(group, rows), group, query), false);
    && r.Ok? && |r.value| == p.cols(table) && Canonical(p.q(table), r.value)
    && Fold(p.q(table), p.cols(table), [r.value]) != Product(p.q(table), p.cols(table), query, rows)
  }

  /**
   The late activation breaks isolation: it is accepted, and the ready replica then answers a query
   for the published generation with something else than the query times the published database.
   */
  lemma LateActivationBreaksIsolation(p: Parameters, table: Table, group: Group, one: Matrix, two: Matrix, tip: nat)
    returns (end: System, query: Vector)
    requires p.Valid() && Injective(p.digest) && tip + 2 < U64_LIMIT && one != two
    requires Buildable(p, table, 0, |one|, one) && Buildable(p, table, 0, |two|, two)
    requires Plain(p, table, one) && Plain(p, table, two)
    ensures Execute(p, ONE_IDLE_WORKER, LateSteps(p, table, group, one, two, tip)) == Some(end) && |end.workers| == 1
    ensures var x := Ready(OneActivation(2, tip + 1, table, group, two));
      && x in end.live && (table, group) in x.ready && 0 in x.ready[(table, group)]
    ensures |query| == |two| && AnswersWrong(p, end.workers[0], table, group, two, tip + 1, query)
  {
    hide Buildable, Apply, Plain, Execute, W4, AnswersWrong, BothLive, Inv, Kept, Accepts, PrepareIt, LateSteps, Opens, Calls, Publishes;
    var steps := LateSteps(p, table, group, one, two, tip);
    LastSteps(p, table, group, one, two, tip);
    var a1 := OneActivation(1, tip + 1, table, group, one);
    assert p.digest(one) != p.digest(two);
    SecondPublished(p, table, group, one, two, tip);
    BothFacts(p, table, group, one, two, tip);
    var s := BothLive(p, table, group, one, two, tip);
    SecondWorker(p, table, group, one, two, tip);
    ApplyAccepted(p, W4(p, table, group, one, two, tip), a1, one);
    CallRuns(p, steps, 20, s, a1);
    assert steps[..23] == steps;
    end := Called(p, s, a1);
    query := WrongAfter(p, table, group, one, two, tip);
  }

  lemma ApplyAccepted(p: Parameters, s: Worker.State, a: Activation, rows: Matrix)
    requires a.table in a.attempt.plans && a.attempt.plans[a.table] == OneShard(a.group, rows)
    requires KeyOf(p, a.table, rows) in s.shards && |s.active| < RETAINED_GENERATIONS
    ensures Accepts(p, s, a)
  {
    ApplyOne(p, s, a, rows);
  }

  lemma WrongAfter(p: Parameters, table: Table, group: Group, one: Matrix, two: Matrix, tip: nat) returns (query: Vector)
    requires p.Valid() && Injective(p.digest) && one != two && Inv(p, BothLive(p, table, group, one, two, tip))
    requires Buildable(p, table, 0, |one|, one) && Buildable(p, table, 0, |two|, two)
    requires Plain(p, table, one) && Plain(p, table, two)
    ensures |query| == |two|
    ensures AnswersWrong(p, Apply(p, W4(p, table, group, one, two, tip), OneActivation(1, tip + 1, table, group, one)),
                         table, group, two, tip + 1, query)
  {
    hide Buildable, ValidPlan, Apply, Inv, Plain, Evaluated, Asked, Right, Sliceable, W4, Sound, AnswersWrong, Extended, Assigned, BothLive,
      AllCached;
    var a1, a2 := OneActivation(1, tip + 1, table, group, one), OneActivation(2, tip + 1, table, group, two);
    var w := W4(p, table, group, one, two, tip);
    assert p.digest(one) != p.digest(two);
    SecondWorker(p, table, group, one, two, tip);
    BothFacts(p, table, group, one, two, tip);
    WorkerIsSound(p, BothLive(p, table, group, one, two, tip), 0);
    LateAccepted(p, w, a1, one);
    Disagree(p, a1, a2, one, two);
    OneShardValid(p, table, group, one);
    OneShardValid(p, table, group, two);
    query := OverwrittenIsWrong(p, Apply(p, w, a1), a1, a2);
    WrongProduct(p, Apply(p, w, a1), a2, two, query);
  }

  /** The late request is accepted, its generation kept, and its shard still cached. */
  lemma LateAccepted(p: Parameters, w: Worker.State, a: Activation, rows: Matrix)
    requires Sound(p, w) && a.table in a.attempt.plans && a.attempt.plans[a.table] == OneShard(a.group, rows)
    requires KeyOf(p, a.table, rows) in w.shards && |w.active| < RETAINED_GENERATIONS
    ensures var after, g := Apply(p, w, a), a.attempt.generation;
      && Sound(p, after) && AllCached(after.shards, map[a.table := Assigned(p, a)])
      && g in after.active && a.table in after.active[g] && after.active[g][a.table] == Assigned(p, a)
  {
    hide Sound, Extended, Assigned, Referenced, Trim;
    ApplyOne(p, w, a, rows);
    WidenSound(p, w, a);
    SweptSound(p, Widen(p, w, a), Kept(p, w, a));
    WidenActive(p, w, a);
    AssignedOne(p, a, rows);
    var after := Apply(p, w, a);
    HereReferenced(after.active, a.attempt.generation, a.table, p.digest(rows));
  }

  lemma HereReferenced(active: map<nat, Tables>, g: nat, table: Table, digest: Digest)
    requires g in active && table in active[g] && active[g][table] == map[0 := digest]
    ensures Referenced(active, ShardKey(table, 0, digest))
  {
    assert References(active, g, ShardKey(table, 0, digest));
  }

  lemma Disagree(p: Parameters, a: Activation, b: Activation, one: Matrix, two: Matrix)
    requires a.table in a.attempt.plans && a.attempt.plans[a.table] == OneShard(a.group, one)
    requires b.table in b.attempt.plans && b.attempt.plans[b.table] == OneShard(b.group, two)
    requires a.attempt.generation == b.attempt.generation && a.table == b.table && p.digest(one) != p.digest(two)
    ensures !SameDigests(p, a, b)
  {
    hide Assigned;
    AssignedOne(p, a, one);
    AssignedOne(p, b, two);
    var x, y := Assigned(p, a), Assigned(p, b);
    assert x.Keys == {0} && y.Keys == {0} && x[0] != y[0];
  }

  /** For a table of one shard, a wrong partial is a wrong answer. */
  lemma WrongProduct(p: Parameters, s: Worker.State, b: Activation, rows: Matrix, query: Vector)
    requires p.Valid() && b.table in b.attempt.plans && b.attempt.plans[b.table] == OneShard(b.group, rows)
    requires ValidPlan(p, b.table, OneShard(b.group, rows)) && |query| == |rows|
    requires Sliceable(query, p.shardRows(b.table), OneShard(b.group, rows).slots) && !Right(p, s, b, query)
    ensures AnswersWrong(p, s, b.table, b.group, rows, b.attempt.generation, query)
  {
    hide ValidPlan, Evaluated, Fold, Product, WorkerSum, Requests, Sliceable;
    var plan, group := OneShard(b.group, rows), b.group;
    var e := EvaluationOf(p, b.table, plan, query);
    var requests := Asked(p, b.table, plan, group, query);
    EvaluatedShape(p, s, b.table, b.attempt.generation, requests);
    var r := Evaluated(p, s.active, s.shards, b.table, b.attempt.generation, requests, false);
    OneShardWhole(p, b.table, group, rows, query);
    DistributedEqualsMonolithic(e, plan.slots, rows, [group]);
    RequestsAnswerable(e, plan.slots, group);
    assert Arrivals(e, plan.slots, [group]) == [WorkerSum(e, requests)];
    FoldOne(e.q, e.cols, WorkerSum(e, requests));
    FoldOne(e.q, e.cols, r.value);
  }

  lemma EvaluatedShape(p: Parameters, s: Worker.State, table: Table, generation: nat, requests: seq<ShardQuery>)
    requires p.q(table) >= 2
    ensures var r := Evaluated(p, s.active, s.shards, table, generation, requests, false);
      r.Ok? ==> |r.value| == p.cols(table) && Canonical(p.q(table), r.value)
  {
  }

  lemma OneShardWhole(p: Parameters, table: Table, group: Group, rows: Matrix, query: Vector)
    requires ValidPlan(p, table, OneShard(group, rows)) && |query| == |rows|
    ensures Whole(EvaluationOf(p, table, OneShard(group, rows), query), OneShard(group, rows).slots, rows)
  {
    var plan := OneShard(group, rows);
    assert plan.slots[0].id == 0;
    assert |rows| == p.shardRows(table) && 1 * p.shardRows(table) == |rows|;
    assert rows[0..|rows|] == rows && rows[|rows|..] == [];
    assert Placed(EvaluationOf(p, table, plan, query), plan.slots, rows, 0);
  }
}
