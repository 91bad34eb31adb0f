/**
 The generation lifecycle: a coordinator publishes numbered generations on workers that prepare,
 activate, evict, restart and answer in any interleaving.
 */
module Generations {
  import opened Bytes
  import opened Results
  import opened Sorting
  import opened ShardEvaluation
  import opened Worker

  const U64_MAX: nat := U64_LIMIT - 1

  /** What `build_table` reads from a table's source: shard placement and the rows of each shard. */
  datatype Plan = Plan(slots: seq<Slot>, contents: map<nat, Matrix>, logicalRows: nat)

  type Plans = map<Table, Plan>

  /** One call of `publish`, numbered in order. */
  datatype Attempt = Attempt(serial: nat, generation: nat, plans: Plans)

  /** An attempt with the replicas whose activation was acknowledged. */
  datatype Snapshot = Snapshot(attempt: Attempt, ready: map<(Table, Group), seq<nat>>)

  /** An activation request to one replica of one group. */
  datatype Activation = Activation(attempt: Attempt, table: Table, group: Group, worker: nat)

  /**
   The coordinator and its workers. `admitted` are activation calls that passed their check, `sweeping`
   those that extended their worker and have yet to drop shards. `latest`, `sent`, `extended`, `applied`,
   `published` and `standing` record what happened: `standing` the last activation that took effect on a
   worker for a generation and table.
   */
  datatype System = System(
    workers: seq<Worker.State>,
    live: seq<Snapshot>,
    building: Option<Snapshot>,
    latest: map<nat, Attempt>,
    serial: nat,
    sent: set<Activation>,
    admitted: set<Activation>,
    sweeping: set<(Activation, set<ShardKey>)>,
    extended: set<Activation>,
    applied: set<Activation>,
    standing: map<(nat, nat, Table), Activation>,
    published: set<Snapshot>)

  // ---- generation numbers and the retained list ----

  function NextGeneration(previous: Option<nat>, tip: nat): (g: nat) {
    if previous.None? then tip
    else
      var bumped := if previous.value < U64_MAX then previous.value + 1 else U64_MAX;
      if tip > bumped then tip else bumped
  }

  /** A new number is above the newest published one exactly below the saturation point. */
  lemma NextGenerationAdvances(previous: nat, tip: nat)
    requires previous < U64_LIMIT && tip < U64_LIMIT
    ensures NextGeneration(Some(previous), tip) > previous <==> previous < U64_MAX
    ensures tip <= NextGeneration(Some(previous), tip) < U64_LIMIT
  {
  }

  /** The new number is the least one that is above the newest published and not below the tip; it stays at the maximum. */
  lemma NextGenerationIsLeast(previous: nat, tip: nat, n: nat)
    requires previous < U64_LIMIT && tip < U64_LIMIT
    ensures previous < U64_MAX ==> NextGeneration(Some(previous), tip) > previous
    ensures NextGeneration(Some(previous), tip) >= tip
    ensures n > previous && n >= tip && n < U64_LIMIT ==> NextGeneration(Some(previous), tip) <= n
    ensures NextGeneration(Some(0xffff_ffff_ffff_ffff), tip) == 0xffff_ffff_ffff_ffff
    ensures NextGeneration(None, tip) == tip
  {
  }

  function Newest(live: seq<Snapshot>): (r: Option<nat>) {
    if live == [] then None else Some(live[0].attempt.generation)
  }

  /** The new snapshot first, then the previous ones of other generations while there is room. */
  function Retain(live: seq<Snapshot>, added: Snapshot): (r: seq<Snapshot>) {
    RetainFrom(live, added.attempt.generation, [added])
  }

  function RetainFrom(live: seq<Snapshot>, generation: nat, kept: seq<Snapshot>): (r: seq<Snapshot>)
    ensures |kept| <= RETAINED_GENERATIONS ==> |r| <= RETAINED_GENERATIONS
    ensures kept <= r
    ensures forall x | x in r :: x in kept || x in live
  {
    if live == [] || |kept| >= RETAINED_GENERATIONS then kept
    else if live[0].attempt.generation != generation then RetainFrom(live[1..], generation, kept + [live[0]])
    else RetainFrom(live[1..], generation, kept)
  }

  /** The first `n` snapshots, or all of them. */
  function First(snapshots: seq<Snapshot>, n: nat): (r: seq<Snapshot>) {
    if |snapshots| <= n then snapshots else snapshots[..n]
  }

  function Others(live: seq<Snapshot>, generation: nat): (r: seq<Snapshot>) {
    Filter(live, (x: Snapshot) => x.attempt.generation != generation)
  }

  lemma FirstMore(x: Snapshot, rest: seq<Snapshot>, n: nat)
    requires n > 0
    ensures First([x] + rest, n) == [x] + First(rest, n - 1)
  {
  }

  lemma OthersMore(live: seq<Snapshot>, generation: nat)
    requires live != []
    ensures Others(live, generation) == (if live[0].attempt.generation != generation then [live[0]] else []) + Others(live[1..], generation)
  {
  }

  lemma {:induction false} RetainFromExactly(live: seq<Snapshot>, generation: nat, kept: seq<Snapshot>)
    requires |kept| <= 8
    ensures RetainFrom(live, generation, kept) == kept + First(Others(live, generation), 8 - |kept|)
    decreases live
  {
    hide Others, First;
    if |kept| == 8 {
      assert First(Others(live, generation), 0) == [] by { NoneFirst(Others(live, generation)); }
    } else if live == [] {
      assert First(Others([], generation), 8 - |kept|) == [] by { NoOthers(generation, 8 - |kept|); }
    } else {
      OthersMore(live, generation);
      if live[0].attempt.generation != generation {
        RetainFromExactly(live[1..], generation, kept + [live[0]]);
        FirstMore(live[0], Others(live[1..], generation), 8 - |kept|);
      } else {
        RetainFromExactly(live[1..], generation, kept);
        assert Others(live, generation) == [] + Others(live[1..], generation) == Others(live[1..], generation);
      }
    }
  }

  lemma NoneFirst(snapshots: seq<Snapshot>)
    ensures First(snapshots, 0) == []
  {
  }

  lemma NoOthers(generation: nat, n: nat)
    ensures First(Others([], generation), n) == []
  {
  }

  /** The publish swap's loop: the new snapshot, then the first seven previous ones of other numbers, in order. */
  method RetainNewest(live: seq<Snapshot>, added: Snapshot) returns (retained: seq<Snapshot>)
    ensures retained == Retain(live, added)
    ensures 0 < |retained| <= RETAINED_GENERATIONS && retained[0] == added
    ensures retained[1..] == First(Others(live, added.attempt.generation), 7)
  {
    RetainFromExactly(live, added.attempt.generation, [added]);
    retained := [added];
    var i := 0;
    assert live[0..] == live;
    while i < |live| && |retained| < RETAINED_GENERATIONS
      invariant i <= |live| && 0 < |retained| <= RETAINED_GENERATIONS && retained[0] == added
      invariant Retain(live, added) == RetainFrom(live[i..], added.attempt.generation, retained)
    {
      assert live[i..][1..] == live[i + 1..];
      if live[i].attempt.generation != added.attempt.generation {
        retained := retained + [live[i]];
      }
      i := i + 1;
    }
  }

  // ---- plans ----

  /** Shards are numbered from zero, each starts where the previous ends, and all fit the logical rows. */
  ghost predicate ValidPlan(p: Parameters, table: Table, plan: Plan) {
    && |plan.slots| > 0
    && (forall k :: 0 <= k < |plan.slots| ==>
          && plan.slots[k].id == k
          && plan.slots[k].start == k * p.shardRows(table)
          && k in plan.contents && |plan.contents[k]| == p.shardRows(table))
    && |plan.slots| * p.shardRows(table) <= plan.logicalRows
  }

  ghost function Concatenated(plan: Plan, n: nat): (m: Matrix)
    requires forall k | 0 <= k < n :: k in plan.contents
  {
    if n == 0 then [] else Concatenated(plan, n - 1) + plan.contents[n - 1]
  }

  /** The whole table a client queries: every shard in order, then empty rows. */
  ghost function Database(p: Parameters, table: Table, plan: Plan): (m: Matrix)
    requires ValidPlan(p, table, plan)
  {
    var rows := Concatenated(plan, |plan.slots|);
    rows + seq(if plan.logicalRows >= |rows| then plan.logicalRows - |rows| else 0, _ => [])
  }

  function GroupShards(p: Parameters, plan: Plan, slots: seq<Slot>, group: Group): (r: seq<ActivateShard>) {
    if slots == [] then []
    else
      var last := slots[|slots| - 1];
      var head := GroupShards(p, plan, slots[..|slots| - 1], group);
      if last.group == group && last.id in plan.contents then
        head + [ActivateShard(last.id, p.digest(plan.contents[last.id]))]
      else head
  }

  /** Every digest a worker would use is the one the manifest publishes for that shard. */
  ghost predicate Faithful(p: Parameters, assignment: Assignment, plan: Plan) {
    forall id | id in assignment :: id in plan.contents && assignment[id] == p.digest(plan.contents[id])
  }

  lemma {:induction false} GroupShardsFaithful(p: Parameters, plan: Plan, slots: seq<Slot>, group: Group)
    ensures Faithful(p, AssignmentOf(GroupShards(p, plan, slots, group)), plan)
  {
    if slots != [] {
      var n := |slots| - 1;
      var head := GroupShards(p, plan, slots[..n], group);
      GroupShardsFaithful(p, plan, slots[..n], group);
      var all := GroupShards(p, plan, slots, group);
      if all != head {
        assert all[..|all| - 1] == head;
      }
    }
  }

  /** The shards and digests an activation names. */
  function Assigned(p: Parameters, a: Activation): (m: Assignment)
    requires a.table in a.attempt.plans
  {
    var plan := a.attempt.plans[a.table];
    AssignmentOf(GroupShards(p, plan, plan.slots, a.group))
  }

  /** If the two activations name the same shards of one generation and table, they name the same digests. */
  ghost predicate SameDigests(p: Parameters, a: Activation, b: Activation)
    requires a.table in a.attempt.plans && b.table in b.attempt.plans
  {
    (a.attempt.generation == b.attempt.generation && a.table == b.table && Assigned(p, a).Keys == Assigned(p, b).Keys)
    ==> Assigned(p, a) == Assigned(p, b)
  }

  // ---- steps ----

  /** A request may arrive any number of times; its three phases are separate steps. */
  datatype Step =
    | WorkerStep(worker: nat, step: Worker.Step)
    | Begin(tip: nat, plans: Plans)
    | Send(table: Table, group: Group, worker: nat)
    | Check(activation: Activation)
    | Extend(activation: Activation)
    | Sweep(activation: Activation, referenced: set<ShardKey>)
    | Acknowledge(activation: Activation)
    | Abandon
    | Swap

  ghost predicate ValidAttempt(p: Parameters, attempt: Attempt) {
    forall t | t in attempt.plans :: ValidPlan(p, t, attempt.plans[t])
  }

  ghost predicate GroupsReady(snapshot: Snapshot) {
    forall t, k | t in snapshot.attempt.plans && 0 <= k < |snapshot.attempt.plans[t].slots| ::
      var at := (t, snapshot.attempt.plans[t].slots[k].group);
      at in snapshot.ready && snapshot.ready[at] != []
  }

  ghost predicate Enabled(p: Parameters, s: System, step: Step) {
    match step
    case WorkerStep(w, step) => w < |s.workers| && !step.ActivateStep?
    case Begin(tip, plans) =>
      && s.building.None? && tip < U64_LIMIT && plans != map[]
      && (s.live != [] ==> s.live[0].attempt.generation < U64_MAX)
      && forall t | t in plans :: ValidPlan(p, t, plans[t])
    case Send(t, g, w) => s.building.Some? && t in s.building.value.attempt.plans && w < |s.workers|
    case Check(a) => a in s.sent
    case Extend(a) => a in s.admitted
    case Sweep(a, referenced) => (a, referenced) in s.sweeping
    case Acknowledge(a) => a in s.applied && s.building.Some? && a.attempt == s.building.value.attempt
    case Abandon => s.building.Some?
    case Swap => s.building.Some? && GroupsReady(s.building.value)
  }

  /** No later attempt has taken the number of the request's generation. */
  ghost predicate Timely(s: System, a: Activation) {
    a.attempt.generation in s.latest && s.latest[a.attempt.generation] == a.attempt
  }

  /** The request as the worker receives it. */
  function RequestOf(p: Parameters, a: Activation): (r: ActivateTables)
    requires a.table in a.attempt.plans
  {
    var plan := a.attempt.plans[a.table];
    map[a.table := GroupShards(p, plan, plan.slots, a.group)]
  }

  /** The worker after the second phase of the call. */
  function Widen(p: Parameters, s: Worker.State, a: Activation): (n: Worker.State)
    requires a.table in a.attempt.plans
  {
    Widened(s, a.attempt.generation, map[a.table := Assigned(p, a)])
  }

  /** What passes the check is what the second phase adds. */
  lemma RequestedIs(p: Parameters, s: Worker.State, a: Activation)
    requires a.table in a.attempt.plans && Activatable(s, RequestOf(p, a))
    ensures Requested(RequestOf(p, a)) == map[a.table := Assigned(p, a)]
  {
    hide GroupShards, AssignmentOf, TableActivatable;
    assert RequestOf(p, a)[a.table] != [];
  }

  /** The call is accepted into the active generations and not evicted at once. */
  ghost predicate TakesEffect(p: Parameters, s: System, a: Activation)
    requires a.table in a.attempt.plans && a.worker < |s.workers|
  {
    a.attempt.generation in Widen(p, s.workers[a.worker], a).active
  }

  function Place(a: Activation): (k: (nat, nat, Table)) {
    (a.worker, a.attempt.generation, a.table)
  }

  ghost predicate Addressed(s: System, a: Activation) {
    a.table in a.attempt.plans && a.worker < |s.workers| && a.attempt.serial < s.serial
  }

  /** Every call under way is of a request that was sent to an existing worker. */
  ghost predicate CallsKnown(s: System) {
    && (forall a | a in s.sent :: Addressed(s, a))
    && s.admitted <= s.sent
    && (forall c | c in s.sweeping :: c.0 in s.extended)
    && s.extended <= s.sent && s.applied <= s.extended
  }

  ghost function Next(p: Parameters, s: System, step: Step): (n: System)
    requires Enabled(p, s, step) && CallsKnown(s)
  {
    match step
    case WorkerStep(w, step) =>
      var n := s.(workers := s.workers[w := Worker.Next(p, s.workers[w], step)]);
      if step.RestartStep? then
        n.(admitted := (set a | a in s.admitted && a.worker != w), sweeping := (set c | c in s.sweeping && c.0.worker != w))
      else n
    case Begin(tip, plans) =>
      var attempt := Attempt(s.serial, NextGeneration(Newest(s.live), tip), plans);
      s.(building := Some(Snapshot(attempt, map[])), latest := s.latest[attempt.generation := attempt], serial := s.serial + 1)
    case Send(t, g, w) => s.(sent := s.sent + {Activation(s.building.value.attempt, t, g, w)})
    case Check(a) =>
      assert Addressed(s, a);
      if Activatable(s.workers[a.worker], RequestOf(p, a)) then s.(admitted := s.admitted + {a}) else s
    case Extend(a) =>
      assert Addressed(s, a);
      var after := Widen(p, s.workers[a.worker], a);
      s.(workers := s.workers[a.worker := after], sweeping := s.sweeping + {(a, ReferencedKeys(after.active))},
         extended := s.extended + {a}, standing := if TakesEffect(p, s, a) then s.standing[Place(a) := a] else s.standing)
    case Sweep(a, referenced) =>
      assert Addressed(s, a);
      s.(workers := s.workers[a.worker := Swept(s.workers[a.worker], referenced)], applied := s.applied + {a})
    case Acknowledge(a) => s.(building := Some(AddReady(s.building.value, a)))
    case Abandon => s.(building := None)
    case Swap =>
      s.(building := None, live := Retain(s.live, s.building.value), published := s.published + {s.building.value})
  }

  function AddReady(snapshot: Snapshot, a: Activation): (n: Snapshot) {
    var at := (a.table, a.group);
    var earlier := if at in snapshot.ready then snapshot.ready[at] else [];
    snapshot.(ready := snapshot.ready[at := earlier + [a.worker]])
  }

  // ---- the invariant ----

  ghost predicate WorkersSound(p: Parameters, s: System) {
    forall w :: 0 <= w < |s.workers| ==> Sound(p, s.workers[w])
  }

  ghost predicate LatestValid(p: Parameters, s: System) {
    forall g | g in s.latest :: s.latest[g].generation == g && g < U64_LIMIT && s.latest[g].serial < s.serial && ValidAttempt(p, s.latest[g])
  }

  ghost predicate SentValid(p: Parameters, s: System) {
    CallsKnown(s) && forall a | a in s.sent :: ValidAttempt(p, a.attempt)
  }

  /** The worker lists the activation's table under its generation. */
  ghost predicate Lists(s: Worker.State, a: Activation) {
    a.attempt.generation in s.active && a.table in s.active[a.attempt.generation]
  }

  /** Whatever a worker lists for a standing activation's place is what that activation assigned. */
  ghost predicate StandingTrue(p: Parameters, s: System) {
    forall k | k in s.standing ::
      var a := s.standing[k];
      && a in s.extended && Place(a) == k && Addressed(s, a)
      && (Lists(s.workers[a.worker], a) ==> s.workers[a.worker].active[a.attempt.generation][a.table] == Assigned(p, a))
  }

  /** Nothing a former coordinator left is listed where an activation was extended. */
  ghost predicate ExtendedStand(s: System) {
    forall a | a in s.extended :: Addressed(s, a) && (Lists(s.workers[a.worker], a) ==> Place(a) in s.standing)
  }

  ghost predicate Backed(s: System, snapshot: Snapshot) {
    && snapshot.attempt.generation in s.latest && s.latest[snapshot.attempt.generation] == snapshot.attempt
    && forall at, w | at in snapshot.ready && w in snapshot.ready[at] ::
         Activation(snapshot.attempt, at.0, at.1, w) in s.applied
  }

  ghost predicate Numbered(s: System) {
    && (forall x | x in s.live :: x in s.published)
    && (forall x | x in s.published :: s.live != [] && x.attempt.generation <= s.live[0].attempt.generation)
    && (s.building.Some? ==> forall x | x in s.published :: x.attempt.generation < s.building.value.attempt.generation)
  }

  ghost predicate Published(s: System) {
    && (forall x | x in s.published :: Backed(s, x) && GroupsReady(x))
    && (s.building.Some? ==> Backed(s, s.building.value))
    && Numbered(s)
  }

  ghost predicate Inv(p: Parameters, s: System) {
    && WorkersSound(p, s) && LatestValid(p, s) && SentValid(p, s)
    && StandingTrue(p, s) && ExtendedStand(s) && Published(s)
  }

  /** A coordinator that just started; its workers may hold anything a former coordinator left. */
  ghost predicate Init(p: Parameters, s: System) {
    WorkersSound(p, s) && s == System(s.workers, [], None, map[], 0, {}, {}, {}, {}, {}, map[], {})
  }

  lemma InitInv(p: Parameters, s: System)
    requires Init(p, s)
    ensures Inv(p, s)
  {
  }

  // ---- every step keeps it ----

  /** Steps that leave `active` alone, or empty it, leave every listing true. */
  lemma ListingsKept(p: Parameters, s: System, w: nat, after: Worker.State)
    requires Inv(p, s) && w < |s.workers| && Sound(p, after) && (after.active == s.workers[w].active || after.active == map[])
    ensures var n := s.(workers := s.workers[w := after]);
      WorkersSound(p, n) && StandingTrue(p, n) && ExtendedStand(n)
  {
    hide Sound, Assigned, ValidAttempt, Published, LatestValid;
    var n := s.(workers := s.workers[w := after]);
    forall k | k in n.standing
      ensures var a := n.standing[k];
        && a in n.extended && Place(a) == k && Addressed(n, a)
        && (Lists(n.workers[a.worker], a) ==> n.workers[a.worker].active[a.attempt.generation][a.table] == Assigned(p, a))
    {
      assert Addressed(s, s.standing[k]);
    }
    forall a | a in n.extended
      ensures Addressed(n, a) && (Lists(n.workers[a.worker], a) ==> Place(a) in n.standing)
    {
      assert Addressed(s, a);
    }
  }

  lemma WorkerStepInv(p: Parameters, s: System, w: nat, step: Worker.Step)
    requires Inv(p, s) && Enabled(p, s, WorkerStep(w, step))
    ensures Inv(p, Next(p, s, WorkerStep(w, step)))
  {
    hide Sound, Worker.Next, Assigned, ValidAttempt, GroupsReady, StandingTrue, ExtendedStand, WorkersSound;
    var after := Worker.Next(p, s.workers[w], step);
    assert Sound(p, after) by { OneSound(p, s, w); StepSound(p, s.workers[w], step); }
    ActiveKept(p, s.workers[w], step);
    ListingsKept(p, s, w, after);
    var n := Next(p, s, WorkerStep(w, step));
    var m := s.(workers := s.workers[w := after]);
    SameListings(p, m, n);
    forall a | a in n.sent
      ensures Addressed(n, a) && ValidAttempt(p, a.attempt)
    {
      assert Addressed(s, a);
    }
    assert forall x | x in n.published :: Backed(s, x);
  }

  lemma OneSound(p: Parameters, s: System, w: nat)
    requires WorkersSound(p, s) && w < |s.workers|
    ensures Sound(p, s.workers[w])
  {
  }

  lemma ActiveKept(p: Parameters, s: Worker.State, step: Worker.Step)
    requires !step.ActivateStep?
    ensures Worker.Next(p, s, step).active == s.active || Worker.Next(p, s, step).active == map[]
  {
    hide Buildable, Persisted;
  }

  /** Listings do not depend on the calls under way. */
  lemma SameListings(p: Parameters, m: System, n: System)
    requires n.workers == m.workers && n.standing == m.standing && n.extended == m.extended && n.serial == m.serial
    ensures WorkersSound(p, m) ==> WorkersSound(p, n)
    ensures StandingTrue(p, m) ==> StandingTrue(p, n)
    ensures ExtendedStand(m) ==> ExtendedStand(n)
  {
    hide Sound, Assigned;
    assert forall a :: Addressed(m, a) <==> Addressed(n, a);
  }

  /** What the second phase does to the worker's assignments. */
  lemma WidenActive(p: Parameters, s: Worker.State, a: Activation)
    requires a.table in a.attempt.plans
    ensures var n, g := Widen(p, s, a), a.attempt.generation;
      && (g in n.active ==> a.table in n.active[g] && n.active[g][a.table] == Assigned(p, a))
      && (forall k, t | k in n.active && t in n.active[k] && !(k == g && t == a.table) ::
            k in s.active && t in s.active[k] && n.active[k][t] == s.active[k][t])
  {
    hide Assigned, Trim, Extended;
    var g := a.attempt.generation;
    var extended := Extended(s.active, g, map[a.table := Assigned(p, a)]);
    TrimKeepsNewest(extended);
    forall k, t | k in extended && t in extended[k] && !(k == g && t == a.table)
      ensures k in s.active && t in s.active[k] && extended[k][t] == s.active[k][t]
    {
      ExtendedElsewhere(s.active, g, a.table, Assigned(p, a), k, t);
    }
    ExtendedHere(s.active, g, a.table, Assigned(p, a));
  }

  lemma ExtendedHere(active: map<nat, Tables>, g: nat, table: Table, assignment: Assignment)
    ensures var extended := Extended(active, g, map[table := assignment]);
      g in extended && table in extended[g] && extended[g][table] == assignment
  {
  }

  lemma ExtendedElsewhere(active: map<nat, Tables>, g: nat, table: Table, assignment: Assignment, k: nat, t: Table)
    requires var extended := Extended(active, g, map[table := assignment]); k in extended && t in extended[k]
    requires !(k == g && t == table)
    ensures k in active && t in active[k] && Extended(active, g, map[table := assignment])[k][t] == active[k][t]
  {
  }

  /** The second phase makes the activation stand, or leaves nothing listed in its place. */
  lemma ExtendStanding(p: Parameters, s: System, a: Activation)
    requires Inv(p, s) && Enabled(p, s, Extend(a))
    ensures StandingTrue(p, Next(p, s, Extend(a)))
  {
    hide Sound, Assigned, Widen, ValidAttempt, Published, LatestValid;
    assert Addressed(s, a);
    var n := Next(p, s, Extend(a));
    WidenActive(p, s.workers[a.worker], a);
    forall k | k in n.standing
      ensures var b := n.standing[k];
        && b in n.extended && Place(b) == k && Addressed(n, b)
        && (Lists(n.workers[b.worker], b) ==> n.workers[b.worker].active[b.attempt.generation][b.table] == Assigned(p, b))
    {
      var b := n.standing[k];
      assert b == a || (k in s.standing && b == s.standing[k] && Addressed(s, b));
    }
  }

  lemma ExtendStands(p: Parameters, s: System, a: Activation)
    requires Inv(p, s) && Enabled(p, s, Extend(a))
    ensures ExtendedStand(Next(p, s, Extend(a)))
  {
    hide Sound, Assigned, Widen, ValidAttempt, Published, LatestValid;
    assert Addressed(s, a);
    var n := Next(p, s, Extend(a));
    WidenActive(p, s.workers[a.worker], a);
    forall b | b in n.extended
      ensures Addressed(n, b) && (Lists(n.workers[b.worker], b) ==> Place(b) in n.standing)
    {
      assert Addressed(s, b);
    }
  }

  lemma ExtendInv(p: Parameters, s: System, a: Activation)
    requires Inv(p, s) && Enabled(p, s, Extend(a))
    ensures Inv(p, Next(p, s, Extend(a)))
  {
    hide Sound, Assigned, Widen, ValidAttempt, GroupsReady, StandingTrue, ExtendedStand;
    ExtendStanding(p, s, a);
    ExtendStands(p, s, a);
    var n := Next(p, s, Extend(a));
    assert Addressed(s, a);
    WidenSound(p, s.workers[a.worker], a);
    assert forall b | b in n.sent :: Addressed(s, b);
    assert forall x | x in n.published :: Backed(s, x);
    assert s.building.Some? ==> Backed(s, s.building.value);
  }

  lemma WidenSound(p: Parameters, s: Worker.State, a: Activation)
    requires a.table in a.attempt.plans && Sound(p, s)
    ensures Sound(p, Widen(p, s, a))
  {
  }

  lemma SweepInv(p: Parameters, s: System, a: Activation, referenced: set<ShardKey>)
    requires Inv(p, s) && Enabled(p, s, Sweep(a, referenced))
    ensures Inv(p, Next(p, s, Sweep(a, referenced)))
  {
    hide Sound, Assigned, ValidAttempt, GroupsReady, StandingTrue, ExtendedStand, WorkersSound;
    var n := Next(p, s, Sweep(a, referenced));
    assert a in s.extended && Addressed(s, a);
    OneSound(p, s, a.worker);
    SweptSound(p, s.workers[a.worker], referenced);
    ListingsKept(p, s, a.worker, Swept(s.workers[a.worker], referenced));
    SameListings(p, s.(workers := n.workers), n);
    assert forall b | b in n.sent :: Addressed(s, b);
    assert forall x | x in n.published :: Backed(s, x);
    assert s.building.Some? ==> Backed(s, s.building.value);
  }

  lemma BeginPublished(p: Parameters, s: System, tip: nat, plans: Plans)
    requires Inv(p, s) && Enabled(p, s, Begin(tip, plans))
    ensures Published(Next(p, s, Begin(tip, plans)))
  {
    hide Sound, StandingTrue, ExtendedStand, ValidPlan, GroupsReady;
    var n := Next(p, s, Begin(tip, plans));
    forall x | x in s.published
      ensures x.attempt.generation < n.building.value.attempt.generation
      ensures Backed(n, x)
    {
      assert Backed(s, x);
    }
  }

  lemma BeginInv(p: Parameters, s: System, tip: nat, plans: Plans)
    requires Inv(p, s) && Enabled(p, s, Begin(tip, plans))
    ensures Inv(p, Next(p, s, Begin(tip, plans)))
  {
    hide Sound, Assigned, ValidPlan, Published;
    var n := Next(p, s, Begin(tip, plans));
    BeginPublished(p, s, tip, plans);
    assert forall b | b in n.sent :: Addressed(s, b);
    assert forall b | b in n.extended :: Addressed(s, b);
    assert forall k | k in n.standing :: Addressed(s, n.standing[k]);
  }

  lemma AcknowledgeInv(p: Parameters, s: System, a: Activation)
    requires Inv(p, s) && Enabled(p, s, Acknowledge(a))
    ensures Inv(p, Next(p, s, Acknowledge(a)))
  {
    hide Sound, StandingTrue, ExtendedStand, ValidAttempt, GroupsReady;
    var n := Next(p, s, Acknowledge(a));
    var b := n.building.value;
    SameListings(p, s, n);
    forall at, w | at in b.ready && w in b.ready[at]
      ensures Activation(b.attempt, at.0, at.1, w) in n.applied
    {
      var earlier := s.building.value.ready;
      if !(at in earlier && w in earlier[at]) {
        assert a == Activation(b.attempt, at.0, at.1, w);
      }
    }
    assert forall b | b in n.sent :: Addressed(s, b);
    assert forall x | x in n.published :: Backed(s, x);
  }

  lemma QuietInv(p: Parameters, s: System, step: Step)
    requires Inv(p, s) && Enabled(p, s, step) && (step.Send? || step.Check? || step.Abandon?)
    ensures Inv(p, Next(p, s, step))
  {
    hide Sound, StandingTrue, ExtendedStand, Activatable, GroupsReady, ValidPlan;
    var n := Next(p, s, step);
    SameListings(p, s, n);
    assert forall b | b in s.sent :: Addressed(s, b);
    assert forall x | x in s.published :: Backed(s, x);
  }

  lemma SwapInv(p: Parameters, s: System)
    requires Inv(p, s) && Enabled(p, s, Swap)
    ensures Inv(p, Next(p, s, Swap))
  {
    hide Sound, StandingTrue, ExtendedStand, GroupsReady, ValidAttempt, RetainFrom;
    var n := Next(p, s, Swap);
    SameListings(p, s, n);
    assert n.live[0] == s.building.value;
    assert forall b | b in s.sent :: Addressed(s, b);
    assert forall x | x in s.published :: Backed(s, x);
  }

  lemma StepInv(p: Parameters, s: System, step: Step)
    requires Inv(p, s) && Enabled(p, s, step)
    ensures Inv(p, Next(p, s, step))
  {
    match step
    case WorkerStep(w, step) => WorkerStepInv(p, s, w, step);
    case Begin(tip, plans) => BeginInv(p, s, tip, plans);
    case Extend(a) => ExtendInv(p, s, a);
    case Sweep(a, referenced) => SweepInv(p, s, a, referenced);
    case Acknowledge(a) => AcknowledgeInv(p, s, a);
    case Swap => SwapInv(p, s);
    case _ => QuietInv(p, s, step);
  }

  // ---- runs ----

  /** Consecutive states of one coordinator lifetime; nothing is assumed of the order of deliveries. */
  ghost predicate Behaves(p: Parameters, run: seq<System>, steps: seq<Step>) {
    && |run| == |steps| + 1 && Init(p, run[0])
    && forall i :: 0 <= i < |steps| ==> Follows(p, run[i], steps[i], run[i + 1])
  }

  ghost predicate Follows(p: Parameters, s: System, step: Step, n: System) {
    Enabled(p, s, step) && CallsKnown(s) && n == Next(p, s, step)
  }

  /** In every state of every run, a worker lists exactly what the activation standing in that place assigned. */
  lemma {:induction false} RunInv(p: Parameters, run: seq<System>, steps: seq<Step>, i: nat)
    requires Behaves(p, run, steps) && i < |run|
    ensures Inv(p, run[i])
    decreases i
  {
    hide Inv, Next, Enabled, CallsKnown;
    if i == 0 {
      InitInv(p, run[0]);
    } else {
      RunInv(p, run, steps, i - 1);
      assert Follows(p, run[i - 1], steps[i - 1], run[i]);
      StepInv(p, run[i - 1], steps[i - 1]);
    }
  }

  /** A published snapshot is never unpublished or replaced, whether or not it is still listed. */
  lemma {:induction false} PublishedForever(p: Parameters, run: seq<System>, steps: seq<Step>, i: nat, j: nat, x: Snapshot)
    requires Behaves(p, run, steps) && i <= j < |run| && x in run[i].published
    ensures x in run[j].published
    decreases j
  {
    if i < j {
      PublishedForever(p, run, steps, i, j - 1, x);
      assert Follows(p, run[j - 1], steps[j - 1], run[j]);
    }
  }

  /** Two snapshots published under one number are the same snapshot's attempt: numbers are never reused. */
  lemma NumbersUnique(p: Parameters, s: System, x: Snapshot, y: Snapshot)
    requires Inv(p, s) && x in s.published && y in s.published
    ensures x.attempt.generation == y.attempt.generation ==> x.attempt == y.attempt
  {
    assert Backed(s, x) && Backed(s, y);
  }

  // ---- what stays answerable ----

  lemma {:induction false} OthersAll(live: seq<Snapshot>, generation: nat)
    requires forall x | x in live :: x.attempt.generation != generation
    ensures Others(live, generation) == live
  {
    if live != [] {
      assert forall x | x in live[1..] :: x in live;
      OthersAll(live[1..], generation);
    }
  }

  /** A publish puts its snapshot in front of the first seven that were live. */
  lemma SwapKeeps(p: Parameters, s: System)
    requires Inv(p, s) && Enabled(p, s, Swap)
    ensures Next(p, s, Swap).live == [s.building.value] + First(s.live, 7)
  {
    hide Sound, StandingTrue, ExtendedStand, GroupsReady, ValidAttempt, RetainFrom, Others;
    var g := s.building.value.attempt.generation;
    forall x | x in s.live
      ensures x.attempt.generation < g
    {
    }
    OthersAll(s.live, g);
    RetainFromExactly(s.live, g, [s.building.value]);
  }

  /** What has been published by now, the newest first. */
  ghost function Publications(run: seq<System>, steps: seq<Step>, n: nat): (r: seq<Snapshot>)
    requires n <= |steps| && |run| == |steps| + 1
  {
    if n == 0 then []
    else if steps[n - 1].Swap? && run[n - 1].building.Some? then
      [run[n - 1].building.value] + Publications(run, steps, n - 1)
    else Publications(run, steps, n - 1)
  }

  /** In every run exactly the eight newest publications are live, newest first, with strictly falling numbers. */
  lemma {:induction false} EightNewestLive(p: Parameters, run: seq<System>, steps: seq<Step>, n: nat)
    requires Behaves(p, run, steps) && n < |run|
    ensures run[n].live == First(Publications(run, steps, n), 8)
    ensures forall i, j :: 0 <= i < j < |run[n].live| ==> run[n].live[i].attempt.generation > run[n].live[j].attempt.generation
    decreases n
  {
    hide Inv, Enabled, CallsKnown;
    if n > 0 {
      EightNewestLive(p, run, steps, n - 1);
      RunInv(p, run, steps, n - 1);
      assert Follows(p, run[n - 1], steps[n - 1], run[n]);
      if steps[n - 1].Swap? {
        SwapNumbers(p, run[n - 1]);
        FirstOfFirst(run[n - 1].building.value, Publications(run, steps, n - 1));
      } else {
        LiveKept(p, run[n - 1], steps[n - 1]);
      }
    }
  }

  lemma SwapNumbers(p: Parameters, s: System)
    requires Inv(p, s) && Enabled(p, s, Swap) && CallsKnown(s)
    ensures s.building.Some? && Next(p, s, Swap).live == [s.building.value] + First(s.live, 7)
    ensures forall x | x in s.live :: x.attempt.generation < s.building.value.attempt.generation
  {
    hide Sound, StandingTrue, ExtendedStand, GroupsReady, ValidAttempt, Retain;
    SwapKeeps(p, s);
  }

  lemma LiveKept(p: Parameters, s: System, step: Step)
    requires Enabled(p, s, step) && CallsKnown(s) && !step.Swap?
    ensures Next(p, s, step).live == s.live
  {
    hide Worker.Next, Activatable, GroupsReady, ValidPlan;
  }

  lemma FirstOfFirst(added: Snapshot, all: seq<Snapshot>)
    ensures [added] + First(First(all, 8), 7) == First([added] + all, 8)
  {
  }

  /** An acknowledgement adds its replica to its group and changes no other. */
  lemma AcknowledgeAdds(p: Parameters, s: System, a: Activation, at: (Table, Group), w: nat)
    requires Enabled(p, s, Acknowledge(a)) && CallsKnown(s)
    ensures var before, after := s.building.value.ready, Next(p, s, Acknowledge(a)).building.value.ready;
      (at in after && w in after[at]) <==> (at in before && w in before[at]) || (at == (a.table, a.group) && w == a.worker)
  {
  }

  lemma AssignedFaithful(p: Parameters, a: Activation)
    requires a.table in a.attempt.plans
    ensures Faithful(p, Assigned(p, a), a.attempt.plans[a.table])
  {
    var plan := a.attempt.plans[a.table];
    GroupShardsFaithful(p, plan, plan.slots, a.group);
  }
}
