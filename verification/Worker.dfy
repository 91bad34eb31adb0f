/** A worker: cached shard runtimes, retained generations, and evaluation against a generation's digests. */
module Worker {
  import opened Bytes
  import opened Results
  import opened Sorting
  import opened ShardEvaluation

  const RETAINED_GENERATIONS: nat := 8

  datatype Table = Enhance | TransparentSpendCold | TransparentSpendWarm

  /** SHA-256 of a shard's rows: left uninterpreted. */
  type Digest = string

  /** A shard's partial CRS blocks, as one vector of coefficients. */
  type Hint = Vector

  datatype Parameters = Parameters(
    digest: Matrix -> Digest,
    hint: (Table, nat, Matrix) -> Hint,
    shardRows: Table -> nat,
    degree: nat,
    q: Table -> u64,
    cols: Table -> nat)
  {
    ghost predicate Valid() {
      degree > 0 && forall t :: q(t) >= 2
    }
  }

  datatype ShardKey = ShardKey(table: Table, id: nat, digest: Digest)
  datatype Runtime = Runtime(start: nat, rows: Matrix, hint: Hint, preparedAt: nat)

  /** The one persisted artifact a shard directory holds. */
  datatype Artifact = Artifact(start: nat, digest: Digest, rows: Matrix, hint: Hint)

  /** A table's active shards: a sorted, duplicate-free list is a map from shard to digest. */
  type Assignment = map<nat, Digest>
  type Tables = map<Table, Assignment>

  datatype ActivateShard = ActivateShard(id: nat, digest: Digest)
  type ActivateTables = map<Table, seq<ActivateShard>>

  datatype WorkerError =
    | DigestMismatch | BuildRefused | PersistFailed | NoArtifact
    | ActivationRefused
    | AtLimit | GenerationMismatch | NoSuchTable | IncompleteAssignment | ShardDisappeared
    | Rejected(error: EvaluationError)
    | Unreachable | BadResponse

  /** How writing a shard's artifact ends; every outcome but `Saved` is reported as an error. */
  datatype Persist = Saved | LeftOld | Torn | SavedUnsynced

  datatype State = State(
    shards: map<ShardKey, Runtime>,
    active: map<nat, Tables>,
    artifacts: map<(Table, nat), Artifact>,
    clock: nat)

  // ---- preparing shards ----

  function Loaded(s: State, key: ShardKey, start: nat): (r: Option<Runtime>) {
    var at := (key.table, key.id);
    if at in s.artifacts && s.artifacts[at].start == start && s.artifacts[at].digest == key.digest then
      Some(Runtime(start, s.artifacts[at].rows, s.artifacts[at].hint, s.clock))
    else None
  }

  predicate Cached(s: State, key: ShardKey, start: nat) {
    key in s.shards && s.shards[key].start == start
  }

  predicate Buildable(p: Parameters, table: Table, start: nat, logicalRows: nat, rows: Matrix) {
    && p.degree > 0
    && |rows| == p.shardRows(table)
    && start % p.degree == 0
    && start / p.degree + p.shardRows(table) / p.degree <= logicalRows / p.degree
  }

  function Persisted(s: State, at: (Table, nat), artifact: Artifact, persist: Persist): (m: map<(Table, nat), Artifact>) {
    match persist
    case Saved | SavedUnsynced => s.artifacts[at := artifact]
    case LeftOld => s.artifacts
    case Torn => s.artifacts - {at}
  }

  function Installed(s: State, key: ShardKey, runtime: Runtime): (n: State) {
    s.(shards := s.shards[key := runtime], clock := s.clock + 1)
  }

  /** `Ok(true)` means built, `Ok(false)` means already cached or loaded. */
  function Prepared(p: Parameters, s: State, key: ShardKey, start: nat, logicalRows: nat, rows: Matrix, persist: Persist)
    : (r: (State, Result<bool, WorkerError>))
  {
    if p.digest(rows) != key.digest then (s, Err(DigestMismatch))
    else if Cached(s, key, start) then (s, Ok(false))
    else if Loaded(s, key, start).Some? then (Installed(s, key, Loaded(s, key, start).value), Ok(false))
    else if !Buildable(p, key.table, start, logicalRows, rows) then (s, Err(BuildRefused))
    else
      var hint := p.hint(key.table, start, rows);
      var saved := s.(artifacts := Persisted(s, (key.table, key.id), Artifact(start, key.digest, rows, hint), persist));
      if persist.Saved? then (Installed(saved, key, Runtime(start, rows, hint, s.clock)), Ok(true))
      else (saved.(clock := s.clock + 1), Err(PersistFailed))
  }

  function Ensured(s: State, key: ShardKey, start: nat): (r: (State, Result<(), WorkerError>)) {
    if Cached(s, key, start) then (s, Ok(()))
    else if Loaded(s, key, start).Some? then (Installed(s, key, Loaded(s, key, start).value), Ok(()))
    else (s, Err(NoArtifact))
  }

  // ---- activating generations ----

  function AssignmentOf(shards: seq<ActivateShard>): (m: Assignment) {
    if shards == [] then map[]
    else
      var last := shards[|shards| - 1];
      AssignmentOf(shards[..|shards| - 1])[last.id := last.digest]
  }

  predicate DistinctIds(shards: seq<ActivateShard>) {
    forall i, j :: 0 <= i < j < |shards| ==> shards[i].id != shards[j].id
  }

  predicate TableActivatable(cached: map<ShardKey, Runtime>, table: Table, shards: seq<ActivateShard>) {
    && DistinctIds(shards)
    && forall i :: 0 <= i < |shards| ==> ShardKey(table, shards[i].id, shards[i].digest) in cached
  }

  /** At least one shard, no shard twice in a table, and every one prepared under its digest. */
  predicate Activatable(s: State, request: ActivateTables) {
    && (exists t :: t in request && request[t] != [])
    && forall t | t in request :: TableActivatable(s.shards, t, request[t])
  }

  function Requested(request: ActivateTables): (m: Tables)
    ensures forall t :: t in m <==> t in request && request[t] != []
  {
    map t | t in request && request[t] != [] :: AssignmentOf(request[t])
  }

  /** Tables of one generation accumulate over activations; a table sent again is replaced. */
  function Extended(active: map<nat, Tables>, generation: nat, tables: Tables): (m: map<nat, Tables>) {
    active[generation := (if generation in active then active[generation] else map[]) + tables]
  }

  function Oldest(active: map<nat, Tables>): (g: nat)
    requires active != map[]
    ensures g in active && forall k | k in active :: g <= k
  {
    LeastExists(active.Keys, var k :| k in active; k);
    var m :| m in active && forall k | k in active :: m <= k;
    m
  }

  function Trim(active: map<nat, Tables>): (m: map<nat, Tables>)
    decreases |active|
  {
    if |active| <= RETAINED_GENERATIONS then active
    else Trim(active - {Oldest(active)})
  }

  predicate References(active: map<nat, Tables>, generation: nat, key: ShardKey) {
    && generation in active && key.table in active[generation]
    && key.id in active[generation][key.table] && active[generation][key.table][key.id] == key.digest
  }

  predicate Referenced(active: map<nat, Tables>, key: ShardKey) {
    exists g :: g in active && References(active, g, key)
  }

  function Activated(s: State, generation: nat, request: ActivateTables): (r: (State, Result<(), WorkerError>)) {
    if !Activatable(s, request) then (s, Err(ActivationRefused))
    else
      var active := Trim(Extended(s.active, generation, Requested(request)));
      (s.(active := active, shards := map k | k in s.shards && Referenced(active, k) :: s.shards[k]), Ok(()))
  }

  // An activation call takes its locks in turn: it checks the request, extends the active generations,
  // and drops unreferenced shards later. Other calls may come in between.

  /** The second phase, under the lock of the active generations. */
  function Widened(s: State, generation: nat, tables: Tables): (n: State) {
    s.(active := Trim(Extended(s.active, generation, tables)))
  }

  /** The shards the call will keep, taken before the lock is released. */
  function ReferencedKeys(active: map<nat, Tables>): (keys: set<ShardKey>)
    ensures forall k :: k in keys <==> Referenced(active, k)
  {
    var keys := set g, t, id | g in active && t in active[g] && id in active[g][t] :: ShardKey(t, id, active[g][t][id]);
    assert forall k | k in keys :: Referenced(active, k) by {
      forall k | k in keys
        ensures Referenced(active, k)
      {
        var g :| g in active && k.table in active[g] && k.id in active[g][k.table] && active[g][k.table][k.id] == k.digest;
        assert References(active, g, k);
      }
    }
    keys
  }

  /** The last phase, under the lock of the shards. */
  function Swept(s: State, referenced: set<ShardKey>): (n: State) {
    s.(shards := map k | k in s.shards && k in referenced :: s.shards[k])
  }

  /** The three phases with nothing in between are the whole activation. */
  lemma PhasesCompose(s: State, generation: nat, request: ActivateTables)
    requires Activatable(s, request)
    ensures var wide := Widened(s, generation, Requested(request));
      Activated(s, generation, request) == (Swept(wide, ReferencedKeys(wide.active)), Ok(()))
  {
    hide Referenced, Trim, Activatable, Extended, Requested;
    var wide := Widened(s, generation, Requested(request));
    assert Activated(s, generation, request).0.shards == Swept(wide, ReferencedKeys(wide.active)).shards;
  }

  // ---- evaluating ----

  /** The request names exactly the assignment's shards, each once. */
  predicate Complete(assignment: Assignment, requests: seq<ShardQuery>) {
    && (forall i, j :: 0 <= i < j < |requests| ==> requests[i].id != requests[j].id)
    && (forall i :: 0 <= i < |requests| ==> requests[i].id in assignment)
    && (forall id | id in assignment :: exists i :: 0 <= i < |requests| && requests[i].id == id)
  }

  function SumShards(p: Parameters, shards: map<ShardKey, Runtime>, table: Table, assignment: Assignment, requests: seq<ShardQuery>)
    : (r: Result<Vector, WorkerError>)
    requires p.q(table) >= 2
    requires forall i :: 0 <= i < |requests| ==> requests[i].id in assignment
    ensures r.Ok? ==> |r.value| == p.cols(table) && Canonical(p.q(table), r.value)
  {
    if requests == [] then Ok(ZeroVector(p.cols(table)))
    else
      var last := requests[|requests| - 1];
      var head := SumShards(p, shards, table, assignment, requests[..|requests| - 1]);
      var key := ShardKey(table, last.id, assignment[last.id]);
      if head.Err? then head
      else if key !in shards then Err(ShardDisappeared)
      else
        var partial := Evaluate(p.q(table), p.cols(table), last.coefficients, shards[key].rows);
        if partial.Err? then Err(Rejected(partial.error))
        else Ok(AddMod(p.q(table), head.value, partial.value))
  }

  /** The first half of an evaluation, under the lock of the active generations. */
  function LookedUp(active: map<nat, Tables>, table: Table, generation: nat, requests: seq<ShardQuery>, busy: bool)
    : (r: Result<Assignment, WorkerError>)
    ensures r.Ok? ==> generation in active && table in active[generation] && r.value == active[generation][table]
    ensures r.Ok? ==> Complete(r.value, requests)
  {
    if busy then Err(AtLimit)
    else if generation !in active then Err(GenerationMismatch)
    else if table !in active[generation] then Err(NoSuchTable)
    else if !Complete(active[generation][table], requests) then Err(IncompleteAssignment)
    else Ok(active[generation][table])
  }

  /** An evaluation: the assignment as `active` was, then the sum over the shards as `shards` are later. */
  function Evaluated(p: Parameters, active: map<nat, Tables>, shards: map<ShardKey, Runtime>, table: Table, generation: nat,
                     requests: seq<ShardQuery>, busy: bool): (r: Result<Vector, WorkerError>)
    requires p.q(table) >= 2
  {
    var assignment := LookedUp(active, table, generation, requests, busy);
    if assignment.Err? then Err(assignment.error)
    else SumShards(p, shards, table, assignment.value, requests)
  }

  /** A worker's answer is the sum over exactly the digests its generation names. */
  lemma {:induction false} SumShardsExact(p: Parameters, shards: map<ShardKey, Runtime>, table: Table, assignment: Assignment,
                                          requests: seq<ShardQuery>, e: Evaluation)
    requires p.q(table) >= 2 && e.q == p.q(table) && e.cols == p.cols(table)
    requires forall i :: 0 <= i < |requests| ==> requests[i].id in assignment
    requires SumShards(p, shards, table, assignment, requests).Ok?
    requires forall i :: 0 <= i < |requests| ==>
      var key := ShardKey(table, requests[i].id, assignment[requests[i].id]);
      key in shards ==> key.id in e.contents && e.contents[key.id] == shards[key].rows
    ensures Answerable(e, requests)
    ensures SumShards(p, shards, table, assignment, requests) == Ok(WorkerSum(e, requests))
  {
    hide Dot;
    if requests != [] {
      var n := |requests| - 1;
      SumShardsExact(p, shards, table, assignment, requests[..n], e);
      var key := ShardKey(table, requests[n].id, assignment[requests[n].id]);
      assert key in shards;
      assert e.contents[key.id] == shards[key].rows;
      forall k | 0 <= k < |requests|
        ensures requests[k].id in e.contents && |requests[k].coefficients| == |e.contents[requests[k].id]|
      {
        if k < n {
          assert requests[..n][k] == requests[k];
        }
      }
      assert Partials(e, requests)[..n] == Partials(e, requests[..n]);
    }
  }

  // ---- runs ----

  datatype Step =
    | PrepareStep(key: ShardKey, start: nat, logicalRows: nat, rows: Matrix, persist: Persist)
    | EnsureStep(key: ShardKey, start: nat)
    | ActivateStep(generation: nat, request: ActivateTables)
    | RestartStep

  function Next(p: Parameters, s: State, step: Step): (n: State) {
    match step
    case PrepareStep(key, start, logicalRows, rows, persist) => Prepared(p, s, key, start, logicalRows, rows, persist).0
    case EnsureStep(key, start) => Ensured(s, key, start).0
    case ActivateStep(generation, request) => Activated(s, generation, request).0
    case RestartStep => State(map[], map[], s.artifacts, 0)
  }

  function Run(p: Parameters, s: State, steps: seq<Step>): (n: State) {
    if steps == [] then s
    else Next(p, Run(p, s, steps[..|steps| - 1]), steps[|steps| - 1])
  }

  /** Every cached runtime is what its digest says, and load order tells them apart. */
  ghost predicate ShardsSound(p: Parameters, shards: map<ShardKey, Runtime>, clock: nat) {
    && (forall k | k in shards ::
          && p.digest(shards[k].rows) == k.digest
          && shards[k].hint == p.hint(k.table, shards[k].start, shards[k].rows)
          && shards[k].preparedAt < clock)
    && (forall j, k | j in shards && k in shards && shards[j].preparedAt == shards[k].preparedAt :: j == k)
  }

  ghost predicate ArtifactsSound(p: Parameters, artifacts: map<(Table, nat), Artifact>) {
    forall a | a in artifacts ::
      && p.digest(artifacts[a].rows) == artifacts[a].digest
      && artifacts[a].hint == p.hint(a.0, artifacts[a].start, artifacts[a].rows)
  }

  ghost predicate Sound(p: Parameters, s: State) {
    ShardsSound(p, s.shards, s.clock) && ArtifactsSound(p, s.artifacts)
  }

  /** At most eight generations, and every shard they name is cached. */
  ghost predicate Retained(s: State) {
    && |s.active| <= RETAINED_GENERATIONS
    && forall g, k | References(s.active, g, k) :: k in s.shards
  }

  /** The cache holds exactly the shards some retained generation names. */
  ghost predicate CacheIsReferenced(s: State) {
    forall k :: k in s.shards <==> Referenced(s.active, k)
  }

  lemma RemoveOne(active: map<nat, Tables>, g: nat)
    requires g in active
    ensures |active - {g}| == |active| - 1
  {
    assert (active - {g}).Keys == active.Keys - {g};
    assert |active.Keys - {g}| == |active.Keys| - 1;
  }

  lemma {:induction false} TrimKeepsNewest(active: map<nat, Tables>)
    ensures |Trim(active)| == if |active| <= RETAINED_GENERATIONS then |active| else RETAINED_GENERATIONS
    ensures forall g | g in Trim(active) :: g in active && Trim(active)[g] == active[g]
    ensures forall g, k | g in Trim(active) && k in active && k !in Trim(active) :: k < g
    decreases |active|
  {
    if |active| > RETAINED_GENERATIONS {
      RemoveOne(active, Oldest(active));
      TrimKeepsNewest(active - {Oldest(active)});
    }
  }

  lemma {:induction false} AssignmentIn(cached: map<ShardKey, Runtime>, table: Table, shards: seq<ActivateShard>, id: nat)
    requires forall i :: 0 <= i < |shards| ==> ShardKey(table, shards[i].id, shards[i].digest) in cached
    requires id in AssignmentOf(shards)
    ensures ShardKey(table, id, AssignmentOf(shards)[id]) in cached
  {
    var n := |shards| - 1;
    if id != shards[n].id {
      AssignmentIn(cached, table, shards[..n], id);
    }
  }

  lemma ActivationReferences(s: State, generation: nat, request: ActivateTables, g: nat, key: ShardKey)
    requires Retained(s) && Activatable(s, request)
    requires References(Extended(s.active, generation, Requested(request)), g, key)
    ensures key in s.shards
  {
    if g == generation && key.table in request && request[key.table] != [] {
      AssignmentIn(s.shards, key.table, request[key.table], key.id);
    } else {
      assert References(s.active, g, key);
    }
  }

  /** Right after an activation the cache is exactly the referenced set, and only older generations went. */
  lemma ActivationExact(s: State, generation: nat, request: ActivateTables)
    requires Retained(s) && Activatable(s, request)
    ensures var n := Activated(s, generation, request).0;
      && Retained(n) && CacheIsReferenced(n)
      && (forall k | k in n.shards :: n.shards[k] == s.shards[k])
      && (forall g, k | g in n.active && (k in s.active || k == generation) && k !in n.active :: k < g)
  {
    hide Activatable, Requested;
    var extended := Extended(s.active, generation, Requested(request));
    var n := Activated(s, generation, request).0;
    TrimKeepsNewest(extended);
    forall k
      ensures k in n.shards <==> Referenced(n.active, k)
    {
      if Referenced(n.active, k) {
        var g :| g in n.active && References(n.active, g, k);
        assert n.active[g] == extended[g];
        assert References(extended, g, k);
        ActivationReferences(s, generation, request, g, k);
      }
    }
    forall g, k | References(n.active, g, k)
      ensures k in n.shards
    {
      assert Referenced(n.active, k);
    }
  }

  lemma InstalledSound(p: Parameters, s: State, key: ShardKey, runtime: Runtime)
    requires Sound(p, s)
    requires p.digest(runtime.rows) == key.digest && runtime.hint == p.hint(key.table, runtime.start, runtime.rows)
    requires runtime.preparedAt == s.clock
    ensures Sound(p, Installed(s, key, runtime))
  {
  }

  lemma PersistedSound(p: Parameters, s: State, at: (Table, nat), artifact: Artifact, persist: Persist)
    requires Sound(p, s)
    requires p.digest(artifact.rows) == artifact.digest && artifact.hint == p.hint(at.0, artifact.start, artifact.rows)
    ensures var saved := s.(artifacts := Persisted(s, at, artifact, persist));
      Sound(p, saved) && Sound(p, saved.(clock := s.clock + 1))
  {
    hide ShardsSound;
    var saved := Persisted(s, at, artifact, persist);
    forall a | a in saved
      ensures p.digest(saved[a].rows) == saved[a].digest
      ensures saved[a].hint == p.hint(a.0, saved[a].start, saved[a].rows)
    {
    }
    LaterClock(p, s.shards, s.clock);
  }

  lemma LaterClock(p: Parameters, shards: map<ShardKey, Runtime>, clock: nat)
    requires ShardsSound(p, shards, clock)
    ensures ShardsSound(p, shards, clock + 1)
  {
  }

  lemma PreparedSound(p: Parameters, s: State, key: ShardKey, start: nat, logicalRows: nat, rows: Matrix, persist: Persist)
    requires Sound(p, s)
    ensures Sound(p, Prepared(p, s, key, start, logicalRows, rows, persist).0)
  {
    hide Sound;
    if p.digest(rows) == key.digest && !Cached(s, key, start) {
      if Loaded(s, key, start).Some? {
        LoadedSound(p, s, key, start);
      } else if Buildable(p, key.table, start, logicalRows, rows) {
        var hint := p.hint(key.table, start, rows);
        var saved := s.(artifacts := Persisted(s, (key.table, key.id), Artifact(start, key.digest, rows, hint), persist));
        PersistedSound(p, s, (key.table, key.id), Artifact(start, key.digest, rows, hint), persist);
        InstalledSound(p, saved, key, Runtime(start, rows, hint, s.clock));
      }
    }
  }

  lemma LoadedSound(p: Parameters, s: State, key: ShardKey, start: nat)
    requires Sound(p, s) && Loaded(s, key, start).Some?
    ensures Sound(p, Installed(s, key, Loaded(s, key, start).value))
  {
    InstalledSound(p, s, key, Loaded(s, key, start).value);
  }

  lemma SweptSound(p: Parameters, s: State, referenced: set<ShardKey>)
    requires Sound(p, s)
    ensures Sound(p, Swept(s, referenced))
  {
  }

  lemma StepSound(p: Parameters, s: State, step: Step)
    requires Sound(p, s)
    ensures Sound(p, Next(p, s, step))
  {
    hide Prepared;
    match step
    case PrepareStep(key, start, logicalRows, rows, persist) =>
      PreparedSound(p, s, key, start, logicalRows, rows, persist);
    case EnsureStep(key, start) =>
      if !Cached(s, key, start) && Loaded(s, key, start).Some? {
        LoadedSound(p, s, key, start);
      }
    case ActivateStep(generation, request) =>
      if Activatable(s, request) {
        PhasesCompose(s, generation, request);
      }
    case RestartStep =>
  }

  lemma StepRetains(p: Parameters, s: State, step: Step)
    requires Retained(s)
    ensures Retained(Next(p, s, step))
  {
    hide Buildable, Persisted;
    match step
    case PrepareStep(key, start, logicalRows, rows, persist) =>
      assert s.shards.Keys <= Next(p, s, step).shards.Keys && Next(p, s, step).active == s.active;
    case EnsureStep(key, start) =>
    case ActivateStep(generation, request) =>
      if Activatable(s, request) {
        ActivationExact(s, generation, request);
      }
    case RestartStep =>
  }

  /** The retention invariant over every run of prepares, loads, activations and restarts. */
  lemma {:induction false} RunRetains(p: Parameters, s: State, steps: seq<Step>)
    requires Sound(p, s) && Retained(s)
    ensures Sound(p, Run(p, s, steps)) && Retained(Run(p, s, steps))
    ensures steps != [] && steps[|steps| - 1].ActivateStep?
              && Activatable(Run(p, s, steps[..|steps| - 1]), steps[|steps| - 1].request)
            ==> CacheIsReferenced(Run(p, s, steps))
  {
    if steps != [] {
      var n := |steps| - 1;
      RunRetains(p, s, steps[..n]);
      var before := Run(p, s, steps[..n]);
      StepSound(p, before, steps[n]);
      StepRetains(p, before, steps[n]);
      if steps[n].ActivateStep? && Activatable(before, steps[n].request) {
        ActivationExact(before, steps[n].generation, steps[n].request);
      }
    }
  }

  /** Every assigned shard is asked for exactly once, and nothing else is. */
  ghost predicate AsksForAll(assignment: Assignment, requests: seq<ShardQuery>) {
    && (set i | 0 <= i < |requests| :: requests[i].id) == assignment.Keys
    && !exists i, j :: 0 <= i < j < |requests| && requests[i].id == requests[j].id
  }

  // ---- when a shard can be prepared or loaded ----

  /** The shard is cached under this digest and row, or its artifact is. */
  ghost predicate OnHand(s: State, key: ShardKey, start: nat) {
    || (key in s.shards && s.shards[key].start == start)
    || ((key.table, key.id) in s.artifacts
        && s.artifacts[(key.table, key.id)].start == start && s.artifacts[(key.table, key.id)].digest == key.digest)
  }

  /** A whole shard of rows that starts on a ring boundary and ends within the table. */
  ghost predicate InsideTable(p: Parameters, table: Table, start: nat, logicalRows: nat, rows: Matrix)
    requires p.degree > 0
  {
    |rows| == p.shardRows(table) && start % p.degree == 0 && start + |rows| <= logicalRows
  }

  lemma BuildableExactly(p: Parameters, table: Table, start: nat, logicalRows: nat, rows: Matrix)
    requires p.degree > 0 && p.shardRows(table) % p.degree == 0
    ensures Buildable(p, table, start, logicalRows, rows) <==> InsideTable(p, table, start, logicalRows, rows)
  {
    if start % p.degree == 0 {
      AlignedFits(start, p.shardRows(table), logicalRows, p.degree);
    }
  }

  lemma AlignedFits(a: nat, b: nat, c: nat, d: nat)
    requires d > 0 && a % d == 0 && b % d == 0
    ensures a / d + b / d <= c / d <==> a + b <= c
  {
    var x, y, z := a / d, b / d, c / d;
    assert a == x * d && b == y * d && z * d <= c < z * d + d;
    assert a + b == (x + y) * d;
    if x + y <= z {
      assert (x + y) * d <= z * d;
    } else {
      assert (x + y) * d >= (z + 1) * d == z * d + d;
    }
  }

  /** A prepare succeeds exactly for the digest's own rows that are on hand, or can be built and persisted. */
  ghost predicate Preparable(p: Parameters, s: State, key: ShardKey, start: nat, logicalRows: nat, rows: Matrix, persist: Persist)
    requires p.degree > 0
  {
    && p.digest(rows) == key.digest
    && (OnHand(s, key, start) || (InsideTable(p, key.table, start, logicalRows, rows) && persist == Saved))
  }

  /** Only this shard's runtime is new, made from the artifact on hand. */
  ghost predicate LoadedFrom(s: State, n: State, key: ShardKey, start: nat) {
    && key in n.shards && n.shards[key].start == start
    && n.shards.Keys == s.shards.Keys + {key} && (forall k | k in s.shards && k != key :: n.shards[k] == s.shards[k])
    && n.active == s.active && n.artifacts == s.artifacts
    && (if key in s.shards && s.shards[key].start == start then n == s
        else
          && (key.table, key.id) in s.artifacts
          && n.shards[key].rows == s.artifacts[(key.table, key.id)].rows && n.shards[key].hint == s.artifacts[(key.table, key.id)].hint)
  }

  /** The rows were built, persisted as the shard directory's artifact, and cached. */
  ghost predicate BuiltFrom(p: Parameters, s: State, n: State, key: ShardKey, start: nat, rows: Matrix) {
    && key in n.shards && n.shards[key].start == start && n.shards[key].rows == rows && n.shards[key].hint == p.hint(key.table, start, rows)
    && n.shards.Keys == s.shards.Keys + {key} && (forall k | k in s.shards && k != key :: n.shards[k] == s.shards[k])
    && n.artifacts == s.artifacts[(key.table, key.id) := Artifact(start, key.digest, rows, p.hint(key.table, start, rows))]
    && n.active == s.active
  }

  lemma PrepareExactly(p: Parameters, s: State, key: ShardKey, start: nat, logicalRows: nat, rows: Matrix, persist: Persist)
    requires p.degree > 0 && p.shardRows(key.table) % p.degree == 0
    ensures var (n, r) := Prepared(p, s, key, start, logicalRows, rows, persist);
      && (r.Ok? <==> Preparable(p, s, key, start, logicalRows, rows, persist))
      && (r.Ok? ==> if r.value then BuiltFrom(p, s, n, key, start, rows) && !OnHand(s, key, start) else LoadedFrom(s, n, key, start))
      && (r.Err? ==> n.shards == s.shards && n.active == s.active)
  {
    hide Buildable, InsideTable;
    BuildableExactly(p, key.table, start, logicalRows, rows);
  }

  lemma LoadExactly(s: State, key: ShardKey, start: nat)
    ensures var (n, r) := Ensured(s, key, start);
      (r.Ok? <==> OnHand(s, key, start)) && (if r.Ok? then LoadedFrom(s, n, key, start) else n == s)
  {
  }

  // ---- what an activation adds and what it takes away ----

  /** The tables a request names: its non-empty lists, every shard under its own digest. */
  ghost predicate NamesExactly(request: ActivateTables, tables: Tables) {
    && (forall t :: t in tables <==> t in request && request[t] != [])
    && forall t | t in tables :: ListNamed(request[t], tables[t])
  }

  ghost predicate ListNamed(list: seq<ActivateShard>, assignment: Assignment) {
    && (forall i :: 0 <= i < |list| ==> list[i].id in assignment && assignment[list[i].id] == list[i].digest)
    && forall id | id in assignment :: exists i :: 0 <= i < |list| && list[i].id == id
  }

  /** Why a request is refused: it names nothing, a shard twice, or a shard that is not cached under that digest. */
  ghost predicate Unacceptable(cached: map<ShardKey, Runtime>, request: ActivateTables) {
    || (forall t | t in request :: request[t] == [])
    || (exists t :: t in request && NamesTwice(request[t]))
    || (exists t :: t in request && NamesUncached(cached, t, request[t]))
  }

  ghost predicate NamesTwice(list: seq<ActivateShard>) {
    exists i, j :: 0 <= i < j < |list| && list[i].id == list[j].id
  }

  ghost predicate NamesUncached(cached: map<ShardKey, Runtime>, table: Table, list: seq<ActivateShard>) {
    exists i :: 0 <= i < |list| && ShardKey(table, list[i].id, list[i].digest) !in cached
  }

  lemma RefusedExactly(s: State, request: ActivateTables)
    ensures Activatable(s, request) <==> !Unacceptable(s.shards, request)
  {
    forall t | t in request
      ensures TableActivatable(s.shards, t, request[t]) <==> !NamesTwice(request[t]) && !NamesUncached(s.shards, t, request[t])
    {
    }
  }

  lemma {:induction false} AssignmentNames(list: seq<ActivateShard>)
    requires !NamesTwice(list)
    ensures ListNamed(list, AssignmentOf(list))
  {
    if list != [] {
      var n := |list| - 1;
      AssignmentNames(list[..n]);
      forall i | 0 <= i < |list|
        ensures list[i].id in AssignmentOf(list) && AssignmentOf(list)[list[i].id] == list[i].digest
      {
        if i < n {
          assert list[..n][i] == list[i];
        }
      }
    }
  }

  lemma RequestedNames(s: State, request: ActivateTables)
    requires Activatable(s, request)
    ensures NamesExactly(request, Requested(request))
  {
    hide AssignmentOf, ListNamed;
    RefusedExactly(s, request);
    forall t | t in request && request[t] != []
      ensures ListNamed(request[t], AssignmentOf(request[t]))
    {
      AssignmentNames(request[t]);
    }
  }

  /**
   Tables of a generation accumulate: what was listed stays listed with the same assignment, the request's
   tables are listed with theirs, nothing else is; at most eight generations stay, and what goes is older than
   all that stays.
   */
  ghost predicate Accumulates(before: map<nat, Tables>, generation: nat, tables: Tables, after: map<nat, Tables>) {
    EightNewest(before, generation, after) && forall g | g in after :: ListsBoth(before, generation, tables, g, after[g])
  }

  ghost predicate EightNewest(before: map<nat, Tables>, generation: nat, after: map<nat, Tables>) {
    && |after| <= 8
    && (forall g | g in after :: g in before || g == generation)
    && (forall k | (k in before || k == generation) && k !in after :: |after| == 8 && forall g | g in after :: k < g)
  }

  ghost predicate ListsBoth(before: map<nat, Tables>, generation: nat, tables: Tables, g: nat, now: Tables) {
    && (forall t :: t in now <==> (g in before && t in before[g]) || (g == generation && t in tables))
    && (forall t | g == generation && t in tables :: now[t] == tables[t])
    && (forall t | g in before && t in before[g] && !(g == generation && t in tables) :: now[t] == before[g][t])
  }

  lemma ExtendedLists(active: map<nat, Tables>, generation: nat, tables: Tables, g: nat)
    requires g in active || g == generation
    ensures g in Extended(active, generation, tables) && ListsBoth(active, generation, tables, g, Extended(active, generation, tables)[g])
    ensures forall k | k in Extended(active, generation, tables) :: k in active || k == generation
  {
  }

  lemma WidenedAccumulates(s: State, generation: nat, tables: Tables)
    ensures Accumulates(s.active, generation, tables, Widened(s, generation, tables).active)
  {
    hide Trim, Extended, ListsBoth;
    var extended := Extended(s.active, generation, tables);
    ExtendedLists(s.active, generation, tables, generation);
    TrimKeepsNewest(extended);
    forall k | k in s.active || k == generation
      ensures k in extended && ListsBoth(s.active, generation, tables, k, extended[k])
    {
      ExtendedLists(s.active, generation, tables, k);
    }
    var after := Trim(extended);
    forall k | (k in s.active || k == generation) && k !in after
      ensures |after| == 8
    {
      if |extended| <= 8 {
        FewKept(extended);
      }
    }
  }

  /** A generation's tables activated one after the other are all listed. */
  lemma TablesAccumulate(s: State, generation: nat, t: Table, x: Assignment, u: Table, y: Assignment)
    requires t != u && generation in Widened(s, generation, map[t := x]).active
    ensures var n := Widened(Widened(s, generation, map[t := x]), generation, map[u := y]);
      generation in n.active ==>
        (&& t in n.active[generation] && n.active[generation][t] == x
         && u in n.active[generation] && n.active[generation][u] == y)
  {
    hide Widened, EightNewest;
    var m := Widened(s, generation, map[t := x]);
    WidenedAccumulates(s, generation, map[t := x]);
    WidenedAccumulates(m, generation, map[u := y]);
    var n := Widened(m, generation, map[u := y]);
    if generation in n.active {
      ListedTwice(s.active, m.active, generation, t, x, u, y, n.active[generation]);
    }
  }

  lemma ListedTwice(before: map<nat, Tables>, middle: map<nat, Tables>, generation: nat, t: Table, x: Assignment, u: Table, y: Assignment, now: Tables)
    requires t != u && generation in middle && ListsBoth(before, generation, map[t := x], generation, middle[generation])
    requires ListsBoth(middle, generation, map[u := y], generation, now)
    ensures t in now && now[t] == x && u in now && now[u] == y
  {
    assert t in middle[generation] && middle[generation][t] == x;
  }

  /** Some generation lists the shard under this digest. */
  ghost predicate Named(active: map<nat, Tables>, k: ShardKey) {
    exists g :: g in active && k.table in active[g] && k.id in active[g][k.table] && active[g][k.table][k.id] == k.digest
  }

  lemma ReferencedIsNamed(active: map<nat, Tables>, k: ShardKey)
    ensures Referenced(active, k) <==> Named(active, k)
  {
    if g :| g in active && k.table in active[g] && k.id in active[g][k.table] && active[g][k.table][k.id] == k.digest {
      assert References(active, g, k);
    }
  }

  // ---- overlapping activations ----

  /** Extending keeps every named shard cached exactly when the request's own shards still are. */
  lemma WidenRetainsExactly(s: State, generation: nat, tables: Tables)
    requires Retained(s)
    ensures var n := Widened(s, generation, tables);
      Retained(n) <==> (generation in n.active ==> AllCached(s.shards, tables))
  {
    hide Trim;
    var extended := Extended(s.active, generation, tables);
    var n := Widened(s, generation, tables);
    TrimKeepsNewest(extended);
    if generation in n.active && !AllCached(s.shards, tables) {
      var t, id :| t in tables && id in tables[t] && ShardKey(t, id, tables[t][id]) !in s.shards;
      assert References(n.active, generation, ShardKey(t, id, tables[t][id]));
    }
    if generation in n.active ==> AllCached(s.shards, tables) {
      forall g, k | References(n.active, g, k)
        ensures k in n.shards
      {
        if g == generation && k.table in tables {
          assert tables[k.table] == extended[g][k.table];
        } else {
          assert References(s.active, g, k);
        }
      }
    }
  }

  predicate AllCached(shards: map<ShardKey, Runtime>, tables: Tables) {
    forall t, id | t in tables && id in tables[t] :: ShardKey(t, id, tables[t][id]) in shards
  }

  /** Dropping keeps every named shard cached exactly when the set taken earlier still has all of them. */
  lemma SweepRetainsExactly(s: State, referenced: set<ShardKey>)
    requires Retained(s)
    ensures Retained(Swept(s, referenced)) <==> ReferencedKeys(s.active) <= referenced
  {
    var n := Swept(s, referenced);
    if Retained(n) {
      forall k | k in ReferencedKeys(s.active)
        ensures k in referenced
      {
        var g :| g in s.active && References(s.active, g, k);
        assert References(n.active, g, k);
      }
    } else {
      var g, k :| References(n.active, g, k) && k !in n.shards;
      assert References(s.active, g, k) && Referenced(s.active, k);
    }
  }

  /**
   Two activations that overlap: both pass their check, the first finishes and drops the second's shard,
   and the second then activates a generation whose shard is gone. Its queries fail from then on.
   */
  lemma OverlapLosesShard(p: Parameters, s: State, table: Table, one: Digest, two: Digest, g: nat, h: nat, query: Vector)
    requires Retained(s) && |s.active| + 2 <= RETAINED_GENERATIONS && g !in s.active && h !in s.active && g != h && one != two
    requires ShardKey(table, 0, one) in s.shards && ShardKey(table, 0, two) in s.shards
    requires !Referenced(s.active, ShardKey(table, 0, two)) && p.q(table) >= 2
    ensures Activatable(s, map[table := [ActivateShard(0, one)]]) && Activatable(s, map[table := [ActivateShard(0, two)]])
    ensures var first := Widened(s, g, map[table := map[0 := one]]);
      var middle := Swept(first, ReferencedKeys(first.active));
      var second := Widened(middle, h, map[table := map[0 := two]]);
      var end := Swept(second, ReferencedKeys(second.active));
      && !Retained(end)
      && Evaluated(p, end.active, end.shards, table, h, [ShardQuery(0, query)], false) == Err(ShardDisappeared)
  {
    hide Trim, Referenced, Retained, Evaluated, Activatable, Widened;
    OneActivatable(s, table, one);
    OneActivatable(s, table, two);
    WidenedNew(s, g, map[table := map[0 := one]]);
    var first := Widened(s, g, map[table := map[0 := one]]);
    NotReferencedYet(s.active, g, table, one, two);
    var middle := Swept(first, ReferencedKeys(first.active));
    OneMoreKey(s.active, g, map[table := map[0 := one]]);
    WidenedNew(middle, h, map[table := map[0 := two]]);
    var second := Widened(middle, h, map[table := map[0 := two]]);
    var end := Swept(second, ReferencedKeys(second.active));
    NotRetained(end, h, ShardKey(table, 0, two));
    OneShardGone(p, end, table, h, two, query);
  }

  lemma OneActivatable(s: State, table: Table, digest: Digest)
    requires ShardKey(table, 0, digest) in s.shards
    ensures Activatable(s, map[table := [ActivateShard(0, digest)]])
  {
    var request: ActivateTables := map[table := [ActivateShard(0, digest)]];
    assert request[table] != [] && TableActivatable(s.shards, table, request[table]);
  }

  lemma WidenedNew(s: State, g: nat, tables: Tables)
    requires g !in s.active && |s.active| < RETAINED_GENERATIONS
    ensures Widened(s, g, tables) == s.(active := s.active[g := tables])
  {
    hide Trim;
    var none: Tables := map[];
    assert none + tables == tables;
    OneMoreKey(s.active, g, tables);
    FewKept(s.active[g := tables]);
  }

  lemma OneMoreKey(active: map<nat, Tables>, g: nat, tables: Tables)
    requires g !in active
    ensures |active[g := tables]| == |active| + 1
  {
    assert active[g := tables].Keys == active.Keys + {g};
    assert |active.Keys + {g}| == |active.Keys| + 1;
  }

  lemma FewKept(active: map<nat, Tables>)
    requires |active| <= RETAINED_GENERATIONS
    ensures Trim(active) == active
  {
  }

  lemma NotReferencedYet(active: map<nat, Tables>, g: nat, table: Table, one: Digest, two: Digest)
    requires g !in active && one != two && !Referenced(active, ShardKey(table, 0, two))
    ensures !Referenced(active[g := map[table := map[0 := one]]], ShardKey(table, 0, two))
  {
    var more := active[g := map[table := map[0 := one]]];
    forall k | k in more
      ensures !References(more, k, ShardKey(table, 0, two))
    {
      if k != g {
        assert !References(active, k, ShardKey(table, 0, two));
      }
    }
  }

  lemma NotRetained(s: State, g: nat, key: ShardKey)
    requires References(s.active, g, key) && key !in s.shards
    ensures !Retained(s)
  {
  }

  lemma OneShardGone(p: Parameters, s: State, table: Table, g: nat, digest: Digest, query: Vector)
    requires p.q(table) >= 2 && g in s.active && table in s.active[g] && s.active[g][table] == map[0 := digest]
    requires ShardKey(table, 0, digest) !in s.shards
    ensures Evaluated(p, s.active, s.shards, table, g, [ShardQuery(0, query)], false) == Err(ShardDisappeared)
  {
    var requests := [ShardQuery(0, query)];
    var assignment: Assignment := map[0 := digest];
    assert requests[..0] == [] && requests[0].id == 0;
    assert Complete(assignment, requests);
    assert SumShards(p, s.shards, table, assignment, requests[..0]) == Ok(ZeroVector(p.cols(table)));
    assert SumShards(p, s.shards, table, assignment, requests) == Err(ShardDisappeared);
  }

  // ---- hints ----

  /** The runtime `crs_local` picks: the newest prepared for that shard, whatever its digest. */
  ghost predicate Newest(s: State, key: ShardKey) {
    && key in s.shards
    && forall k | k in s.shards && k.table == key.table && k.id == key.id :: s.shards[k].preparedAt <= s.shards[key].preparedAt
  }

  /**
   After a successful prepare, the hint handed out is the prepared digest's own exactly when the
   shard was not already cached under it, or nothing newer was prepared for the shard since.
   */
  lemma HintBelongsExactly(p: Parameters, s: State, key: ShardKey, start: nat, logicalRows: nat, rows: Matrix, persist: Persist)
    requires Sound(p, s)
    requires Prepared(p, s, key, start, logicalRows, rows, persist).1.Ok?
    ensures Newest(Prepared(p, s, key, start, logicalRows, rows, persist).0, key)
            <==> !Cached(s, key, start) || Newest(s, key)
  {
  }

  /** A digest that recurs while its older runtime is retained is answered with its successor's hint. */
  lemma RecurringDigestGetsWrongHint(p: Parameters, s: State, first: ShardKey, second: ShardKey, start: nat, logicalRows: nat,
                                     one: Matrix, two: Matrix)
    requires Sound(p, s) && first !in s.shards && second !in s.shards
    requires p.digest(one) == first.digest && p.digest(two) == second.digest && first.digest != second.digest
    requires first.table == second.table && first.id == second.id
    requires Buildable(p, first.table, start, logicalRows, one) && Buildable(p, second.table, start, logicalRows, two)
    ensures var steps := [PrepareStep(first, start, logicalRows, one, Saved), PrepareStep(second, start, logicalRows, two, Saved),
                          PrepareStep(first, start, logicalRows, one, Saved)];
      Newest(Run(p, s, steps), second) && !Newest(Run(p, s, steps), first)
  {
    var a, b := PrepareStep(first, start, logicalRows, one, Saved), PrepareStep(second, start, logicalRows, two, Saved);
    var s1 := Next(p, s, a);
    var s2 := Next(p, s1, b);
    PreparedFirst(p, s, first, start, logicalRows, one);
    PreparedFirst(p, s1, second, start, logicalRows, two);
    assert Cached(s2, first, start);
    ThreeSteps(p, s, a, b, a);
  }

  /** A shard that was not cached becomes the newest runtime of its shard. */
  lemma PreparedFirst(p: Parameters, s: State, key: ShardKey, start: nat, logicalRows: nat, rows: Matrix)
    requires Sound(p, s) && key !in s.shards && p.digest(rows) == key.digest
    requires Buildable(p, key.table, start, logicalRows, rows)
    ensures var n := Prepared(p, s, key, start, logicalRows, rows, Saved).0;
      && Sound(p, n) && Cached(n, key, start) && Newest(n, key)
      && n.shards.Keys == s.shards.Keys + {key}
      && (forall k | k in s.shards :: n.shards[k] == s.shards[k])
      && n.shards[key].preparedAt == s.clock
  {
    hide Sound, Retained, Buildable, Newest, Persisted;
    PreparedSound(p, s, key, start, logicalRows, rows, Saved);
    var n := Prepared(p, s, key, start, logicalRows, rows, Saved).0;
    assert n.shards == s.shards[key := n.shards[key]];
    InstalledIsNewest(p, s, key, n);
  }

  lemma InstalledIsNewest(p: Parameters, s: State, key: ShardKey, n: State)
    requires Sound(p, s) && key in n.shards && n.shards == s.shards[key := n.shards[key]]
    requires n.shards[key].preparedAt == s.clock
    ensures Newest(n, key)
  {
  }

  lemma ThreeSteps(p: Parameters, s: State, a: Step, b: Step, c: Step)
    ensures Run(p, s, [a, b, c]) == Next(p, Next(p, Next(p, s, a), b), c)
  {
    hide Next;
    assert [a, b, c][..2] == [a, b] && [a, b][..1] == [a] && [a][..0] == [];
    assert Run(p, s, [a]) == Next(p, s, a);
    assert Run(p, s, [a, b]) == Next(p, Next(p, s, a), b);
  }

  // ---- the worker process ----

  class WorkerNode {
    const p: Parameters
    var shards: map<ShardKey, Runtime>
    var active: map<nat, Tables>
    var artifacts: map<(Table, nat), Artifact>
    var clock: nat

    ghost function Now(): State
      reads this
    {
      State(shards, active, artifacts, clock)
    }

    ghost predicate Valid()
      reads this
    {
      p.Valid() && Sound(p, Now())
    }

    constructor (p: Parameters, artifacts: map<(Table, nat), Artifact>)
      requires p.Valid()
      requires ArtifactsSound(p, artifacts)
      ensures Valid() && this.p == p && Now() == State(map[], map[], artifacts, 0)
    {
      this.p := p;
      shards := map[];
      active := map[];
      this.artifacts := artifacts;
      clock := 0;
    }

    method PrepareLocal(key: ShardKey, start: nat, logicalRows: nat, rows: Matrix, persist: Persist)
      returns (r: Result<bool, WorkerError>)
      requires Valid()
      modifies this
      ensures Valid()
      ensures (Now(), r) == Prepared(p, old(Now()), key, start, logicalRows, rows, persist)
      ensures Retained(old(Now())) ==> Retained(Now())
      ensures p.shardRows(key.table) % p.degree == 0 ==> (r.Ok? <==> Preparable(p, old(Now()), key, start, logicalRows, rows, persist))
    {
      hide Sound, Retained, Buildable, Preparable;
      if p.shardRows(key.table) % p.degree == 0 {
        PrepareExactly(p, Now(), key, start, logicalRows, rows, persist);
      }
      PreparedSound(p, Now(), key, start, logicalRows, rows, persist);
      if Retained(Now()) {
        StepRetains(p, Now(), PrepareStep(key, start, logicalRows, rows, persist));
      }
      if p.digest(rows) != key.digest {
        return Err(DigestMismatch);
      }
      if key in shards && shards[key].start == start {
        return Ok(false);
      }
      var at := (key.table, key.id);
      var preparedAt := clock;
      if at in artifacts && artifacts[at].start == start && artifacts[at].digest == key.digest {
        clock := clock + 1;
        shards := shards[key := Runtime(start, artifacts[at].rows, artifacts[at].hint, preparedAt)];
        return Ok(false);
      }
      if !Buildable(p, key.table, start, logicalRows, rows) {
        return Err(BuildRefused);
      }
      var hint := p.hint(key.table, start, rows);
      clock := clock + 1;
      if !persist.LeftOld? {
        artifacts := if persist.Torn? then artifacts - {at} else artifacts[at := Artifact(start, key.digest, rows, hint)];
      }
      if !persist.Saved? {
        return Err(PersistFailed);
      }
      shards := shards[key := Runtime(start, rows, hint, preparedAt)];
      return Ok(true);
    }

    method EnsureLocal(key: ShardKey, start: nat) returns (r: Result<(), WorkerError>)
      requires Valid()
      modifies this
      ensures Valid()
      ensures (Now(), r) == Ensured(old(Now()), key, start)
      ensures Retained(old(Now())) ==> Retained(Now())
      ensures r.Ok? <==> OnHand(old(Now()), key, start)
      ensures if r.Ok? then LoadedFrom(old(Now()), Now(), key, start) else Now() == old(Now())
    {
      hide Sound, Retained, OnHand, LoadedFrom;
      LoadExactly(Now(), key, start);
      StepSound(p, Now(), EnsureStep(key, start));
      if Retained(Now()) {
        StepRetains(p, Now(), EnsureStep(key, start));
      }
      if key in shards && shards[key].start == start {
        return Ok(());
      }
      var at := (key.table, key.id);
      if at !in artifacts || artifacts[at].start != start || artifacts[at].digest != key.digest {
        return Err(NoArtifact);
      }
      shards := shards[key := Runtime(start, artifacts[at].rows, artifacts[at].hint, clock)];
      clock := clock + 1;
      return Ok(());
    }

    /** The check made of one table's list before anything changes. */
    method CheckTable(table: Table, list: seq<ActivateShard>) returns (r: Option<Assignment>)
      ensures r.Some? <==> TableActivatable(shards, table, list)
      ensures r.Some? ==> r.value == AssignmentOf(list)
    {
      var assignment: Assignment := map[];
      for i := 0 to |list|
        invariant TableActivatable(shards, table, list[..i])
        invariant assignment == AssignmentOf(list[..i])
        invariant forall id :: id in assignment <==> exists j :: 0 <= j < i && list[j].id == id
      {
        if list[i].id in assignment || ShardKey(table, list[i].id, list[i].digest) !in shards {
          return None;
        }
        assert list[..i + 1][..i] == list[..i];
        assignment := assignment[list[i].id := list[i].digest];
      }
      assert list[..|list|] == list;
      return Some(assignment);
    }

    /** The first phase: the tables to activate, or nothing if the request cannot be accepted. */
    method CheckRequest(request: ActivateTables) returns (r: Option<Tables>)
      ensures r.Some? <==> Activatable(Now(), request)
      ensures r.Some? ==> r.value == Requested(request)
      ensures r.None? <==> Unacceptable(shards, request)
      ensures r.Some? ==> NamesExactly(request, r.value)
    {
      hide Activatable, Requested, Unacceptable, NamesExactly;
      r := CheckTables(request);
      RefusedExactly(Now(), request);
      if r.Some? {
        RequestedNames(Now(), request);
      }
    }

    method CheckTables(request: ActivateTables) returns (r: Option<Tables>)
      ensures r.Some? <==> Activatable(Now(), request)
      ensures r.Some? ==> r.value == Requested(request)
    {
      hide AssignmentOf, TableActivatable;
      if forall t | t in request :: request[t] == [] {
        return None;
      }
      var tables: Tables := map[];
      var todo := request.Keys;
      while todo != {}
        invariant todo <= request.Keys
        invariant forall t | t in request && t !in todo :: TableActivatable(shards, t, request[t])
        invariant tables == map t | t in request && t !in todo && request[t] != [] :: AssignmentOf(request[t])
        decreases |todo|
      {
        var t :| t in todo;
        var assignment := CheckTable(t, request[t]);
        if assignment.None? {
          return None;
        }
        if request[t] != [] {
          tables := tables[t := assignment.value];
        }
        todo := todo - {t};
      }
      return Some(tables);
    }

    /** The second phase: extends the generation, evicts the oldest, and notes which shards are named. */
    method ExtendActive(generation: nat, tables: Tables) returns (referenced: set<ShardKey>)
      requires Valid()
      modifies this
      ensures Valid() && Now() == Widened(old(Now()), generation, tables)
      ensures referenced == ReferencedKeys(active)
      ensures Accumulates(old(active), generation, tables, active)
      ensures forall k :: k in referenced <==> Named(active, k)
    {
      hide Trim, Accumulates, Referenced, Named;
      WidenedAccumulates(Now(), generation, tables);
      active := Extended(active, generation, tables);
      Evict();
      referenced := ReferencedKeys(active);
      forall k
        ensures k in referenced <==> Named(active, k)
      {
        ReferencedIsNamed(active, k);
      }
    }

    /** The last phase: drops every shard not noted. */
    method RetainShards(referenced: set<ShardKey>)
      requires Valid()
      modifies this
      ensures Valid() && Now() == Swept(old(Now()), referenced)
      ensures shards.Keys == old(shards).Keys * referenced && forall k | k in shards :: shards[k] == old(shards)[k]
      ensures active == old(active) && artifacts == old(artifacts)
    {
      SweptSound(p, Now(), referenced);
      shards := map k | k in shards && k in referenced :: shards[k];
    }

    /** The three phases with nothing in between; what may happen in between is the business of whole runs. */
    method ActivateLocal(generation: nat, request: ActivateTables) returns (r: Result<(), WorkerError>)
      requires Valid()
      modifies this
      ensures Valid()
      ensures (Now(), r) == Activated(old(Now()), generation, request)
      ensures r.Ok? && Retained(old(Now())) ==> Retained(Now()) && CacheIsReferenced(Now())
      ensures r.Err? <==> Unacceptable(old(shards), request)
      ensures r.Err? ==> Now() == old(Now())
      ensures r.Ok? ==> exists tables :: NamesExactly(request, tables) && Accumulates(old(active), generation, tables, active)
    {
      hide Activatable, Requested, Sound, Retained, CacheIsReferenced, Trim, Referenced, Unacceptable, NamesExactly, Accumulates;
      var tables := CheckRequest(request);
      if tables.None? {
        return Err(ActivationRefused);
      }
      PhasesCompose(Now(), generation, request);
      if Retained(Now()) {
        ActivationExact(Now(), generation, request);
      }
      var referenced := ExtendActive(generation, tables.value);
      RetainShards(referenced);
      return Ok(());
    }

    /** Drops the oldest generations until at most eight remain. */
    method Evict()
      modifies this
      ensures active == Trim(old(active))
      ensures shards == old(shards) && artifacts == old(artifacts) && clock == old(clock)
    {
      while |active| > RETAINED_GENERATIONS
        invariant Trim(active) == Trim(old(active))
        invariant shards == old(shards) && artifacts == old(artifacts) && clock == old(clock)
        decreases |active|
      {
        active := active - {Oldest(active)};
      }
    }

    method LookUp(table: Table, generation: nat, requests: seq<ShardQuery>, busy: bool) returns (r: Result<Assignment, WorkerError>)
      ensures r == LookedUp(active, table, generation, requests, busy)
      ensures r.Ok? ==> generation in active && table in active[generation] && r.value == active[generation][table]
      ensures busy <==> r == Err(AtLimit)
      ensures !busy && generation !in active <==> r == Err(GenerationMismatch)
      ensures !busy && generation in active && table !in active[generation] <==> r == Err(NoSuchTable)
      ensures !busy && generation in active && table in active[generation] ==>
        (r.Ok? <==> AsksForAll(active[generation][table], requests))
    {
      if busy {
        return Err(AtLimit);
      }
      if generation !in active {
        return Err(GenerationMismatch);
      }
      if table !in active[generation] {
        return Err(NoSuchTable);
      }
      var assignment := active[generation][table];
      if !Complete(assignment, requests) {
        return Err(IncompleteAssignment);
      }
      return Ok(assignment);
    }

    /** Both halves with nothing in between; what may happen in between is the business of whole runs. */
    method EvaluateLocal(table: Table, generation: nat, requests: seq<ShardQuery>, busy: bool)
      returns (r: Result<Vector, WorkerError>)
      requires Valid()
      ensures r == Evaluated(p, active, shards, table, generation, requests, busy)
    {
      hide Evaluate, SumShards;
      var assignment := LookUp(table, generation, requests, busy);
      if assignment.Err? {
        return Err(assignment.error);
      }
      r := SumLocal(table, assignment.value, requests);
    }

    method SumLocal(table: Table, assignment: Assignment, requests: seq<ShardQuery>)
      returns (r: Result<Vector, WorkerError>)
      requires p.q(table) >= 2
      requires forall i :: 0 <= i < |requests| ==> requests[i].id in assignment
      ensures r == SumShards(p, shards, table, assignment, requests)
    {
      hide Evaluate;
      var q, cols := p.q(table), p.cols(table);
      var combined := new u64[cols](_ => 0);
      assert combined[..] == ZeroVector(cols);
      for i := 0 to |requests|
        invariant SumShards(p, shards, table, assignment, requests[..i]) == Ok(combined[..])
      {
        assert requests[..i + 1][..i] == requests[..i];
        var key := ShardKey(table, requests[i].id, assignment[requests[i].id]);
        if key !in shards {
          FirstError(p, shards, table, assignment, requests, i + 1);
          return Err(ShardDisappeared);
        }
        var partial := Evaluate(q, cols, requests[i].coefficients, shards[key].rows);
        if partial.Err? {
          FirstError(p, shards, table, assignment, requests, i + 1);
          return Err(Rejected(partial.error));
        }
        var added := AddIntermediateAssignMod(combined, partial.value, q);
        assert added.Ok?;
      }
      assert requests[..|requests|] == requests;
      return Ok(combined[..]);
    }

    /** The newest runtime of the shard, found by comparing every cached one. */
    method CrsLocal(table: Table, id: nat) returns (r: Option<ShardKey>)
      requires Valid()
      ensures r.None? <==> forall k | k in shards :: !(k.table == table && k.id == id)
      ensures r.Some? ==> r.value.table == table && r.value.id == id && Newest(Now(), r.value)
    {
      hide Valid, Sound, Retained;
      r := None;
      var todo := shards.Keys;
      while todo != {}
        invariant todo <= shards.Keys
        invariant r.None? ==> forall k | k in shards && k !in todo :: !(k.table == table && k.id == id)
        invariant r.Some? ==>
          && r.value in shards && r.value.table == table && r.value.id == id
          && forall k | k in shards && k !in todo && k.table == table && k.id == id ::
               shards[k].preparedAt <= shards[r.value].preparedAt
        decreases |todo|
      {
        var k :| k in todo;
        if k.table == table && k.id == id && (r.None? || shards[r.value].preparedAt < shards[k].preparedAt) {
          r := Some(k);
        }
        todo := todo - {k};
      }
    }
  }

  lemma {:induction false} FirstError(p: Parameters, shards: map<ShardKey, Runtime>, table: Table, assignment: Assignment,
                                      requests: seq<ShardQuery>, n: nat)
    requires p.q(table) >= 2 && n <= |requests|
    requires forall i :: 0 <= i < |requests| ==> requests[i].id in assignment
    requires SumShards(p, shards, table, assignment, requests[..n]).Err?
    ensures SumShards(p, shards, table, assignment, requests) == SumShards(p, shards, table, assignment, requests[..n])
    decreases |requests|
  {
    hide Evaluate;
    if n < |requests| {
      var m := |requests| - 1;
      assert requests[..m][..n] == requests[..n];
      FirstError(p, shards, table, assignment, requests[..m], n);
    } else {
      assert requests[..n] == requests;
    }
  }
}
