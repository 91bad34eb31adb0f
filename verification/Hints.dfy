/** The public CRS of a table: one hint per shard, collected from workers and summed. */
module Hints {
  import opened Bytes
  import opened Results
  import opened ShardEvaluation
  import opened Worker
  import opened Generations
  import opened Answers

  /** The last hint the coordinator fetched for a shard of one replica. */
  datatype CachedHint = CachedHint(start: nat, digest: Digest, hint: Hint)
  type HintCache = map<nat, CachedHint>

  /** Every cached hint is the one of some rows with its digest. */
  ghost predicate CacheSound(p: Parameters, table: Table, cache: HintCache) {
    forall id | id in cache ::
      exists rows :: p.digest(rows) == cache[id].digest && cache[id].hint == p.hint(table, cache[id].start, rows)
  }

  /** The shard was not prepared under this digest before, or nothing newer was prepared for it since. */
  ghost predicate Unrepeated(s: State, key: ShardKey, start: nat) {
    !Cached(s, key, start) || Worker.Newest(s, key)
  }

  lemma NewestUnique(p: Parameters, s: State, j: ShardKey, k: ShardKey)
    requires Sound(p, s) && Worker.Newest(s, j) && Worker.Newest(s, k) && j.table == k.table && j.id == k.id
    ensures j == k
  {
  }

  /** A newest runtime of the prepared shard exists and, unless its digest recurred, is the prepared one. */
  lemma PreparedHint(p: Parameters, s: State, key: ShardKey, start: nat, logicalRows: nat, rows: Matrix, persist: Persist, found: ShardKey)
    requires Sound(p, s) && Prepared(p, s, key, start, logicalRows, rows, persist).1.Ok? && Unrepeated(s, key, start)
    requires var n := Prepared(p, s, key, start, logicalRows, rows, persist).0;
      found.table == key.table && found.id == key.id && Worker.Newest(n, found)
    ensures var n := Prepared(p, s, key, start, logicalRows, rows, persist).0;
      found == key && n.shards[key].start == start
  {
    hide Sound, Buildable;
    PreparedSound(p, s, key, start, logicalRows, rows, persist);
    HintBelongsExactly(p, s, key, start, logicalRows, rows, persist);
    NewestUnique(p, Prepared(p, s, key, start, logicalRows, rows, persist).0, found, key);
  }

  /** Preparing one shard changes nothing about the others. */
  lemma OthersUntouched(p: Parameters, s: State, key: ShardKey, start: nat, logicalRows: nat, rows: Matrix, persist: Persist,
                        other: ShardKey, at: nat)
    requires Unrepeated(s, other, at) && other.id != key.id
    ensures Unrepeated(Prepared(p, s, key, start, logicalRows, rows, persist).0, other, at)
    ensures Unrepeated(Ensured(s, key, start).0, other, at)
  {
    hide Buildable, Persisted;
    var n := Prepared(p, s, key, start, logicalRows, rows, persist).0;
    assert n.shards == s.shards || (key in n.shards && n.shards == s.shards[key := n.shards[key]]);
    var e := Ensured(s, key, start).0;
    assert e.shards == s.shards || (key in e.shards && e.shards == s.shards[key := e.shards[key]]);
  }

  /** The hint of one shard from one replica: from the cache if the worker can load the shard, else prepared and fetched. */
  method PrepareReplicaShard(node: WorkerNode, cache: HintCache, table: Table, id: nat, start: nat, logicalRows: nat, rows: Matrix,
                             persist: Persist) returns (r: Option<Hint>, updated: HintCache)
    requires node.Valid() && CacheSound(node.p, table, cache) && Injective(node.p.digest)
    requires Unrepeated(node.Now(), ShardKey(table, id, node.p.digest(rows)), start)
    modifies node
    ensures node.Valid() && CacheSound(node.p, table, updated)
    ensures r.Some? ==> r.value == node.p.hint(table, start, rows)
    ensures r.None? ==> Refused(node.p, table, start, logicalRows, rows, persist)
    ensures r.Some? ==> ShardKey(table, id, node.p.digest(rows)) in node.shards
    ensures old(node.shards).Keys <= node.shards.Keys
    ensures forall other: ShardKey, at | other.id != id && old(Unrepeated(node.Now(), other, at)) :: Unrepeated(node.Now(), other, at)
  {
    hide Sound, Prepared, Ensured, Unrepeated;
    var digest := node.p.digest(rows);
    var key := ShardKey(table, id, digest);
    ghost var before := node.Now();
    NothingLost(node.p, before, key, start, logicalRows, rows, persist);
    forall other: ShardKey, at | other.id != id && Unrepeated(before, other, at)
      ensures Unrepeated(Prepared(node.p, before, key, start, logicalRows, rows, persist).0, other, at)
      ensures Unrepeated(Ensured(before, key, start).0, other, at)
    {
      OthersUntouched(node.p, before, key, start, logicalRows, rows, persist, other, at);
    }
    if id in cache && cache[id].start == start && cache[id].digest == digest {
      var loaded := node.EnsureLocal(key, start);
      if loaded.Ok? {
        return Some(cache[id].hint), cache;
      }
      EnsureFails(before, key, start);
    }
    var prepared := node.PrepareLocal(key, start, logicalRows, rows, persist);
    if prepared.Err? {
      RefusedPrepare(node.p, before, key, start, logicalRows, rows, persist);
      return None, cache;
    }
    var found := node.CrsLocal(table, id);
    assert found.Some?;
    PreparedHint(node.p, before, key, start, logicalRows, rows, persist, found.value);
    SoundHint(node.p, node.Now(), key);
    assert node.shards[key].rows == rows;
    var hint := node.shards[found.value].hint;
    updated := cache[id := CachedHint(start, digest, hint)];
    return Some(hint), updated;
  }

  /** The worker can refuse a prepare only for these rows' geometry or a failed write. */
  predicate Refused(p: Parameters, table: Table, start: nat, logicalRows: nat, rows: Matrix, persist: Persist) {
    !Buildable(p, table, start, logicalRows, rows) || !persist.Saved?
  }

  lemma RefusedPrepare(p: Parameters, s: State, key: ShardKey, start: nat, logicalRows: nat, rows: Matrix, persist: Persist)
    requires p.digest(rows) == key.digest && Prepared(p, s, key, start, logicalRows, rows, persist).1.Err?
    ensures Refused(p, key.table, start, logicalRows, rows, persist)
  {
  }

  /** Preparing and loading never drop a cached shard, and on success the shard is cached. */
  lemma NothingLost(p: Parameters, s: State, key: ShardKey, start: nat, logicalRows: nat, rows: Matrix, persist: Persist)
    ensures var r := Prepared(p, s, key, start, logicalRows, rows, persist);
      s.shards.Keys <= r.0.shards.Keys && (r.1.Ok? ==> key in r.0.shards)
    ensures var r := Ensured(s, key, start);
      s.shards.Keys <= r.0.shards.Keys && (r.1.Ok? ==> key in r.0.shards)
  {
    hide Buildable, Persisted;
  }

  lemma EnsureFails(s: State, key: ShardKey, start: nat)
    ensures Ensured(s, key, start).1.Err? ==> Ensured(s, key, start).0 == s
  {
  }

  lemma SoundHint(p: Parameters, s: State, key: ShardKey)
    requires Sound(p, s) && key in s.shards
    ensures s.shards[key].hint == p.hint(key.table, s.shards[key].start, s.shards[key].rows)
    ensures p.digest(s.shards[key].rows) == key.digest
  {
  }

  /** Hints have one width and reduced coefficients. */
  ghost predicate Shaped(p: Parameters, table: Table, width: nat) {
    forall start, rows :: |p.hint(table, start, rows)| == width && Canonical(p.q(table), p.hint(table, start, rows))
  }

  ghost function PlanHints(p: Parameters, table: Table, plan: Plan, n: nat): (h: seq<Hint>)
    requires ValidPlan(p, table, plan) && n <= |plan.slots|
    ensures |h| == n && forall k :: 0 <= k < n ==>
      plan.slots[k].id in plan.contents && h[k] == p.hint(table, plan.slots[k].start, plan.contents[plan.slots[k].id])
  {
    PlanIds(p, table, plan);
    seq(n, k requires 0 <= k < n => p.hint(table, plan.slots[k].start, plan.contents[plan.slots[k].id]))
  }

  /** The accumulator holds the sum of the first hints. */
  ghost predicate Summed(p: Parameters, table: Table, plan: Plan, width: nat, n: nat, v: Vector)
    requires ValidPlan(p, table, plan) && n <= |plan.slots|
  {
    && p.q(table) >= 2
    && (forall h | h in PlanHints(p, table, plan, n) :: |h| == width)
    && v == Fold(p.q(table), width, PlanHints(p, table, plan, n))
  }

  lemma FirstHint(p: Parameters, table: Table, plan: Plan, width: nat, hint: Hint)
    requires p.Valid() && ValidPlan(p, table, plan) && Shaped(p, table, width)
    requires hint == SlotHint(p, table, plan, 0)
    ensures Summed(p, table, plan, width, 1, hint)
  {
    assert PlanHints(p, table, plan, 1) == [hint];
    FoldOne(p.q(table), width, hint);
  }

  lemma OneMoreHint(p: Parameters, table: Table, plan: Plan, width: nat, k: nat, v: Vector, hint: Hint)
    requires ValidPlan(p, table, plan) && k < |plan.slots| && Shaped(p, table, width) && Summed(p, table, plan, width, k, v)
    requires hint == SlotHint(p, table, plan, k)
    ensures Addable(p.q(table), v, hint)
    ensures Summed(p, table, plan, width, k + 1, AddMod(p.q(table), v, hint))
  {
    hide ValidPlan;
    var all := PlanHints(p, table, plan, k + 1);
    assert all[..k] == PlanHints(p, table, plan, k);
    assert all[k] == hint;
    assert all == all[..k] + [hint];
  }

  // ---- one shard on every replica of its group ----

  function SlotKey(p: Parameters, table: Table, plan: Plan, k: nat): (key: ShardKey)
    requires ValidPlan(p, table, plan) && k < |plan.slots|
  {
    PlanIds(p, table, plan);
    ShardKey(table, plan.slots[k].id, p.digest(plan.contents[plan.slots[k].id]))
  }

  function SlotHint(p: Parameters, table: Table, plan: Plan, k: nat): (hint: Hint)
    requires ValidPlan(p, table, plan) && k < |plan.slots|
  {
    PlanIds(p, table, plan);
    p.hint(table, plan.slots[k].start, plan.contents[plan.slots[k].id])
  }

  predicate RefusesSlot(p: Parameters, table: Table, plan: Plan, k: nat, persist: Persist)
    requires ValidPlan(p, table, plan) && k < |plan.slots|
  {
    PlanIds(p, table, plan);
    Refused(p, table, plan.slots[k].start, plan.logicalRows, plan.contents[plan.slots[k].id], persist)
  }

  /** On this worker the digest of slot `k` is not a recurring one. */
  ghost predicate SlotClear(p: Parameters, s: State, table: Table, plan: Plan, k: nat)
    requires ValidPlan(p, table, plan) && k < |plan.slots|
  {
    Unrepeated(s, SlotKey(p, table, plan, k), plan.slots[k].start)
  }

  /** Nothing cached is dropped, and no other slot's digest starts to recur. */
  ghost predicate Keeps(p: Parameters, s: State, n: State, table: Table, plan: Plan, k: nat)
    requires ValidPlan(p, table, plan)
  {
    && s.shards.Keys <= n.shards.Keys
    && forall j | 0 <= j < |plan.slots| && j != k && SlotClear(p, s, table, plan, j) :: SlotClear(p, n, table, plan, j)
  }

  method PrepareSlot(node: WorkerNode, cache: HintCache, table: Table, plan: Plan, k: nat, persist: Persist)
    returns (r: Option<Hint>, updated: HintCache)
    requires node.Valid() && CacheSound(node.p, table, cache) && Injective(node.p.digest)
    requires ValidPlan(node.p, table, plan) && k < |plan.slots| && SlotClear(node.p, node.Now(), table, plan, k)
    modifies node
    ensures node.Valid() && CacheSound(node.p, table, updated)
    ensures Keeps(node.p, old(node.Now()), node.Now(), table, plan, k)
    ensures r.Some? ==> r.value == SlotHint(node.p, table, plan, k) && SlotKey(node.p, table, plan, k) in node.shards
    ensures r.None? ==> RefusesSlot(node.p, table, plan, k, persist)
  {
    hide Sound, Unrepeated, CacheSound, Injective, Refused;
    PlanIds(node.p, table, plan);
    var slot := plan.slots[k];
    r, updated := PrepareReplicaShard(node, cache, table, slot.id, slot.start, plan.logicalRows, plan.contents[slot.id], persist);
  }

  /** Distinct workers with the same parameters, each with its own cached hints. */
  ghost predicate Crew(p: Parameters, table: Table, nodes: seq<WorkerNode>, caches: seq<HintCache>)
    reads nodes
  {
    && |caches| == |nodes|
    && (forall i, j :: 0 <= i < j < |nodes| ==> nodes[i] != nodes[j])
    && (forall w :: 0 <= w < |nodes| ==> nodes[w].p == p && nodes[w].Valid() && CacheSound(p, table, caches[w]))
  }

  ghost function States(nodes: seq<WorkerNode>): (s: seq<State>)
    reads nodes
    ensures |s| == |nodes| && forall w :: 0 <= w < |nodes| ==> s[w] == nodes[w].Now()
  {
    seq(|nodes|, w requires 0 <= w < |nodes| reads nodes => nodes[w].Now())
  }

  ghost predicate AllKeep(p: Parameters, before: seq<State>, after: seq<State>, table: Table, plan: Plan, k: nat)
    requires ValidPlan(p, table, plan)
  {
    |before| == |after| && forall w :: 0 <= w < |before| ==> Keeps(p, before[w], after[w], table, plan, k)
  }

  lemma KeepsStep(p: Parameters, a: seq<State>, b: seq<State>, w: nat, n: State, table: Table, plan: Plan, k: nat)
    requires ValidPlan(p, table, plan) && w < |b| && AllKeep(p, a, b, table, plan, k) && Keeps(p, b[w], n, table, plan, k)
    ensures AllKeep(p, a, b[w := n], table, plan, k)
  {
    hide SlotClear;
    forall v | 0 <= v < |b|
      ensures Keeps(p, a[v], b[w := n][v], table, plan, k)
    {
      assert Keeps(p, a[v], b[v], table, plan, k);
    }
  }

  /** One replica's turn: the other workers stay as they are. */
  method PrepareOn(p: Parameters, nodes: seq<WorkerNode>, caches: seq<HintCache>, table: Table, plan: Plan, k: nat, w: nat,
                   persist: Persist) returns (r: Option<Hint>, updated: seq<HintCache>)
    requires Crew(p, table, nodes, caches) && Injective(p.digest) && ValidPlan(p, table, plan) && k < |plan.slots|
    requires w < |nodes| && SlotClear(p, nodes[w].Now(), table, plan, k)
    modifies nodes[w]
    ensures Crew(p, table, nodes, updated) && States(nodes) == old(States(nodes))[w := nodes[w].Now()]
    ensures Keeps(p, old(nodes[w].Now()), nodes[w].Now(), table, plan, k)
    ensures r.Some? ==> r.value == SlotHint(p, table, plan, k) && SlotKey(p, table, plan, k) in nodes[w].shards
    ensures r.None? ==> RefusesSlot(p, table, plan, k, persist)
  {
    hide Sound, SlotClear, CacheSound, Injective, RefusesSlot, SlotHint, SlotKey, Keeps;
    ghost var before := States(nodes);
    var hint, cache := PrepareSlot(nodes[w], caches[w], table, plan, k, persist);
    assert forall v :: 0 <= v < |nodes| && v != w ==> nodes[v] != nodes[w];
    assert States(nodes) == before[w := nodes[w].Now()];
    r, updated := hint, caches[w := cache];
  }

  /** What is known once only `todo` of the replicas are still to be asked. */
  ghost predicate Answered(p: Parameters, table: Table, plan: Plan, k: nat, replicas: set<nat>, persist: nat -> Persist,
                           before: seq<State>, now: seq<State>, todo: set<nat>, successful: map<nat, Hint>)
    requires ValidPlan(p, table, plan) && k < |plan.slots|
  {
    && AllKeep(p, before, now, table, plan, k)
    && todo <= replicas && successful.Keys <= replicas - todo
    && (forall w | w in replicas :: w < |now|)
    && (forall w | w in todo :: now[w] == before[w])
    && (forall w | w in successful :: successful[w] == SlotHint(p, table, plan, k) && SlotKey(p, table, plan, k) in now[w].shards)
    && (forall w | w in replicas - todo && w !in successful :: RefusesSlot(p, table, plan, k, persist(w)))
  }

  lemma NoneAnswered(p: Parameters, table: Table, plan: Plan, k: nat, replicas: set<nat>, persist: nat -> Persist, before: seq<State>)
    requires ValidPlan(p, table, plan) && k < |plan.slots| && forall w | w in replicas :: w < |before|
    ensures Answered(p, table, plan, k, replicas, persist, before, before, replicas, map[])
  {
  }

  lemma OneAnswered(p: Parameters, table: Table, plan: Plan, k: nat, replicas: set<nat>, persist: nat -> Persist,
                    before: seq<State>, now: seq<State>, todo: set<nat>, successful: map<nat, Hint>, w: nat, n: State, hint: Option<Hint>)
    requires ValidPlan(p, table, plan) && k < |plan.slots|
    requires Answered(p, table, plan, k, replicas, persist, before, now, todo, successful) && w in todo
    requires Keeps(p, now[w], n, table, plan, k)
    requires hint.Some? ==> hint.value == SlotHint(p, table, plan, k) && SlotKey(p, table, plan, k) in n.shards
    requires hint.None? ==> RefusesSlot(p, table, plan, k, persist(w))
    ensures Answered(p, table, plan, k, replicas, persist, before, now[w := n], todo - {w},
                     if hint.Some? then successful[w := hint.value] else successful)
  {
    hide SlotClear, SlotHint, SlotKey, RefusesSlot;
    KeepsStep(p, before, now, w, n, table, plan, k);
  }

  /**
   One shard on all candidate replicas. Every success reports the same hint, so comparing hints drops no
   replica: a replica that is not ready refused the shard itself.
   */
  method PrepareShard(p: Parameters, nodes: seq<WorkerNode>, caches: seq<HintCache>, table: Table, plan: Plan, k: nat,
                      replicas: set<nat>, persist: nat -> Persist)
    returns (r: Option<Hint>, ready: set<nat>, updated: seq<HintCache>)
    requires Crew(p, table, nodes, caches) && Injective(p.digest) && ValidPlan(p, table, plan) && k < |plan.slots|
    requires forall w | w in replicas :: w < |nodes| && SlotClear(p, nodes[w].Now(), table, plan, k)
    modifies nodes
    ensures Crew(p, table, nodes, updated) && AllKeep(p, old(States(nodes)), States(nodes), table, plan, k)
    ensures ready <= replicas && (r.Some? <==> ready != {})
    ensures r.Some? ==> r.value == SlotHint(p, table, plan, k)
    ensures forall w | w in ready :: SlotKey(p, table, plan, k) in States(nodes)[w].shards
    ensures forall w | w in replicas - ready :: RefusesSlot(p, table, plan, k, persist(w))
  {
    hide Sound, SlotClear, CacheSound, Injective, RefusesSlot, SlotHint, SlotKey, Crew, Keeps, AllKeep, Answered;
    updated := caches;
    var successful: map<nat, Hint> := map[];
    var todo := replicas;
    ghost var start := States(nodes);
    NoneAnswered(p, table, plan, k, replicas, persist, start);
    while todo != {}
      invariant todo <= replicas && Crew(p, table, nodes, updated)
      invariant Answered(p, table, plan, k, replicas, persist, start, States(nodes), todo, successful)
      decreases |todo|
    {
      var w :| w in todo;
      ghost var before := States(nodes);
      StillAsked(p, table, plan, k, replicas, persist, start, before, todo, successful, w);
      var hint, more := PrepareOn(p, nodes, updated, table, plan, k, w, persist(w));
      OneAnswered(p, table, plan, k, replicas, persist, start, before, todo, successful, w, nodes[w].Now(), hint);
      updated, todo := more, todo - {w};
      if hint.Some? {
        successful := successful[w := hint.value];
      }
    }
    AllAnswered(p, table, plan, k, replicas, persist, start, States(nodes), successful);
    r, ready := Agreed(successful, SlotHint(p, table, plan, k));
  }

  /** The first reported hint, and the replicas that reported the same one. */
  method Agreed(successful: map<nat, Hint>, ghost expected: Hint) returns (r: Option<Hint>, ready: set<nat>)
    requires forall w | w in successful :: successful[w] == expected
    ensures ready == successful.Keys && (r.Some? <==> ready != {}) && (r.Some? ==> r.value == expected)
  {
    if successful.Keys == {} {
      return None, {};
    }
    var first :| first in successful;
    ready := set w | w in successful && successful[w] == successful[first];
    return Some(successful[first]), ready;
  }

  lemma StillAsked(p: Parameters, table: Table, plan: Plan, k: nat, replicas: set<nat>, persist: nat -> Persist,
                   before: seq<State>, now: seq<State>, todo: set<nat>, successful: map<nat, Hint>, w: nat)
    requires ValidPlan(p, table, plan) && k < |plan.slots|
    requires Answered(p, table, plan, k, replicas, persist, before, now, todo, successful) && w in todo
    ensures w < |now| == |before| && now[w] == before[w]
  {
  }

  lemma AllAnswered(p: Parameters, table: Table, plan: Plan, k: nat, replicas: set<nat>, persist: nat -> Persist,
                    before: seq<State>, now: seq<State>, successful: map<nat, Hint>)
    requires ValidPlan(p, table, plan) && k < |plan.slots|
    requires Answered(p, table, plan, k, replicas, persist, before, now, {}, successful)
    ensures AllKeep(p, before, now, table, plan, k) && successful.Keys <= replicas
    ensures forall w | w in successful ::
      w < |now| && successful[w] == SlotHint(p, table, plan, k) && SlotKey(p, table, plan, k) in now[w].shards
    ensures forall w | w in replicas - successful.Keys :: RefusesSlot(p, table, plan, k, persist(w))
  {
  }

  // ---- the whole table ----

  predicate Candidate(plan: Plan, candidates: map<Group, set<nat>>, j: nat, w: nat)
    requires j < |plan.slots|
  {
    plan.slots[j].group in candidates && w in candidates[plan.slots[j].group]
  }

  /** Slots from `k` on have no recurring digest on any candidate of their group. */
  ghost predicate Ahead(p: Parameters, states: seq<State>, table: Table, plan: Plan, candidates: map<Group, set<nat>>, k: nat)
    requires ValidPlan(p, table, plan)
  {
    forall j, w: nat | k <= j < |plan.slots| && Candidate(plan, candidates, j, w) ::
      w < |states| && SlotClear(p, states[w], table, plan, j)
  }

  /** Every remaining candidate holds every earlier shard of its group. */
  ghost predicate Behind(p: Parameters, states: seq<State>, table: Table, plan: Plan, candidates: map<Group, set<nat>>, k: nat)
    requires ValidPlan(p, table, plan) && k <= |plan.slots|
  {
    forall j, w: nat | 0 <= j < k && Candidate(plan, candidates, j, w) ::
      w < |states| && SlotKey(p, table, plan, j) in states[w].shards
  }

  /** The replica refused one of its group's shards among the first `k`. */
  ghost predicate Faulty(p: Parameters, table: Table, plan: Plan, persist: (nat, nat) -> Persist, group: Group, w: nat, k: nat)
    requires ValidPlan(p, table, plan) && k <= |plan.slots|
  {
    exists j :: 0 <= j < k && plan.slots[j].group == group && RefusesSlot(p, table, plan, j, persist(w, j))
  }

  /** Only replicas that refused a shard are dropped. */
  ghost predicate Dropped(p: Parameters, table: Table, plan: Plan, persist: (nat, nat) -> Persist, all: map<Group, set<nat>>,
                          kept: map<Group, set<nat>>, k: nat)
    requires ValidPlan(p, table, plan) && k <= |plan.slots|
  {
    && kept.Keys == all.Keys
    && (forall g | g in all :: kept[g] <= all[g])
    && (forall g, w | g in all && w in all[g] && w !in kept[g] :: Faulty(p, table, plan, persist, g, w, k))
  }

  lemma AheadStep(p: Parameters, s: seq<State>, n: seq<State>, table: Table, plan: Plan, candidates: map<Group, set<nat>>, k: nat, ready: set<nat>)
    requires ValidPlan(p, table, plan) && k < |plan.slots| && plan.slots[k].group in candidates
    requires Ahead(p, s, table, plan, candidates, k) && Behind(p, s, table, plan, candidates, k)
    requires AllKeep(p, s, n, table, plan, k) && ready <= candidates[plan.slots[k].group]
    requires forall w | w in ready :: w < |n| && SlotKey(p, table, plan, k) in n[w].shards
    ensures var kept := candidates[plan.slots[k].group := ready];
      Ahead(p, n, table, plan, kept, k + 1) && Behind(p, n, table, plan, kept, k + 1)
  {
    hide SlotClear, SlotKey, ValidPlan;
    var kept := candidates[plan.slots[k].group := ready];
    forall j, w: nat | k + 1 <= j < |plan.slots| && Candidate(plan, kept, j, w)
      ensures w < |n| && SlotClear(p, n[w], table, plan, j)
    {
      assert Candidate(plan, candidates, j, w);
      assert w < |s| && SlotClear(p, s[w], table, plan, j);
      assert Keeps(p, s[w], n[w], table, plan, k);
    }
    forall j, w: nat | 0 <= j < k + 1 && Candidate(plan, kept, j, w)
      ensures w < |n| && SlotKey(p, table, plan, j) in n[w].shards
    {
      if j < k {
        assert Candidate(plan, candidates, j, w);
        assert w < |s| && SlotKey(p, table, plan, j) in s[w].shards;
        assert Keeps(p, s[w], n[w], table, plan, k);
      }
    }
  }

  lemma FaultyMore(p: Parameters, table: Table, plan: Plan, persist: (nat, nat) -> Persist, group: Group, w: nat, k: nat)
    requires ValidPlan(p, table, plan) && k < |plan.slots|
    ensures Faulty(p, table, plan, persist, group, w, k) ==> Faulty(p, table, plan, persist, group, w, k + 1)
    ensures plan.slots[k].group == group && RefusesSlot(p, table, plan, k, persist(w, k)) ==> Faulty(p, table, plan, persist, group, w, k + 1)
  {
    hide RefusesSlot, ValidPlan;
  }

  lemma DroppedStep(p: Parameters, table: Table, plan: Plan, persist: (nat, nat) -> Persist, all: map<Group, set<nat>>,
                    candidates: map<Group, set<nat>>, k: nat, ready: set<nat>)
    requires ValidPlan(p, table, plan) && k < |plan.slots| && plan.slots[k].group in candidates
    requires Dropped(p, table, plan, persist, all, candidates, k) && ready <= candidates[plan.slots[k].group]
    requires forall w | w in candidates[plan.slots[k].group] - ready :: RefusesSlot(p, table, plan, k, persist(w, k))
    ensures Dropped(p, table, plan, persist, all, candidates[plan.slots[k].group := ready], k + 1)
  {
    hide Faulty, RefusesSlot, ValidPlan;
    var kept := candidates[plan.slots[k].group := ready];
    forall g, w | g in all && w in all[g] && w !in kept[g]
      ensures Faulty(p, table, plan, persist, g, w, k + 1)
    {
      FaultyMore(p, table, plan, persist, g, w, k);
    }
  }

  /** No replica is left for some shard: its group is unknown, or each of its replicas refused one of the group's shards. */
  ghost predicate Unserved(p: Parameters, table: Table, plan: Plan, persist: (nat, nat) -> Persist, all: map<Group, set<nat>>, k: nat)
    requires ValidPlan(p, table, plan) && k < |plan.slots|
  {
    var g := plan.slots[k].group;
    g in all ==> forall w | w in all[g] :: Faulty(p, table, plan, persist, g, w, k + 1)
  }

  /**
   The published hint: unless some shard's digest recurred while an older runtime with it was kept, the sum
   over the shards is the sum of the hints of exactly the rows the manifest publishes, and every replica left
   to activate holds every shard of its group. Otherwise some group has no replica that took all its shards.
   */
  method CollectHints(p: Parameters, nodes: seq<WorkerNode>, known: seq<HintCache>, table: Table, plan: Plan, width: nat,
                      groups: map<Group, set<nat>>, persist: (nat, nat) -> Persist)
    returns (r: Option<Hint>, kept: map<Group, set<nat>>, caches: seq<HintCache>)
    requires p.Valid() && Crew(p, table, nodes, known) && Injective(p.digest) && ValidPlan(p, table, plan) && Shaped(p, table, width)
    requires Ahead(p, States(nodes), table, plan, groups, 0)
    modifies nodes
    ensures Crew(p, table, nodes, caches)
    ensures r.Some? ==> Summed(p, table, plan, width, |plan.slots|, r.value)
    ensures r.Some? ==> forall k :: 0 <= k < |plan.slots| ==> plan.slots[k].group in kept && kept[plan.slots[k].group] != {}
    ensures r.Some? ==>
      Dropped(p, table, plan, persist, groups, kept, |plan.slots|) && Behind(p, States(nodes), table, plan, kept, |plan.slots|)
    ensures r.None? ==> exists k :: 0 <= k < |plan.slots| && Unserved(p, table, plan, persist, groups, k)
  {
    hide *;
    caches, kept := known, groups;
    var combined := new u64[0];
    Opening(p, States(nodes), table, plan, groups, persist);
    for k := 0 to |plan.slots|
      invariant Crew(p, table, nodes, caches) && fresh(combined)
      invariant Ahead(p, States(nodes), table, plan, kept, k) && Behind(p, States(nodes), table, plan, kept, k)
      invariant Dropped(p, table, plan, persist, groups, kept, k)
      invariant forall j :: 0 <= j < k ==> plan.slots[j].group in kept && kept[plan.slots[j].group] != {}
      invariant k > 0 ==> Summed(p, table, plan, width, k, combined[..])
    {
      var group := plan.slots[k].group;
      if group !in kept {
        NoGroup(p, table, plan, persist, groups, kept, k);
        return None, kept, caches;
      }
      ghost var before := States(nodes);
      AskedClear(p, before, table, plan, kept, k);
      var hint, ready, more := PrepareShard(p, nodes, caches, table, plan, k, kept[group], (w: nat) => persist(w, k));
      caches := more;
      AheadStep(p, before, States(nodes), table, plan, kept, k, ready);
      DroppedStep(p, table, plan, persist, groups, kept, k, ready);
      kept := kept[group := ready];
      if hint.None? {
        GroupLost(p, table, plan, persist, groups, kept, k);
        return None, kept, caches;
      }
      combined := AddHint(p, table, plan, width, k, combined, hint.value);
    }
    assert |plan.slots| > 0 by { PlanNotEmpty(p, table, plan); }
    return Some(combined[..]), kept, caches;
  }

  /** The first hint is copied, the later ones are added in place. */
  method AddHint(p: Parameters, table: Table, plan: Plan, width: nat, k: nat, combined: array<u64>, hint: Hint) returns (sum: array<u64>)
    requires p.Valid() && ValidPlan(p, table, plan) && k < |plan.slots| && Shaped(p, table, width)
    requires k > 0 ==> Summed(p, table, plan, width, k, combined[..])
    requires hint == SlotHint(p, table, plan, k)
    modifies combined
    ensures Summed(p, table, plan, width, k + 1, sum[..]) && (sum == combined || fresh(sum))
  {
    hide *;
    if k == 0 {
      FirstHint(p, table, plan, width, hint);
      sum := new u64[|hint|](i requires 0 <= i < |hint| => hint[i]);
      assert sum[..] == hint;
    } else {
      OneMoreHint(p, table, plan, width, k, combined[..], hint);
      var added := AddIntermediateAssignMod(combined, hint, p.q(table));
      assert added.Ok?;
      sum := combined;
    }
  }

  lemma PlanNotEmpty(p: Parameters, table: Table, plan: Plan)
    requires ValidPlan(p, table, plan)
    ensures |plan.slots| > 0
  {
  }

  lemma Opening(p: Parameters, states: seq<State>, table: Table, plan: Plan, groups: map<Group, set<nat>>, persist: (nat, nat) -> Persist)
    requires ValidPlan(p, table, plan)
    ensures Behind(p, states, table, plan, groups, 0) && Dropped(p, table, plan, persist, groups, groups, 0)
  {
  }

  lemma AskedClear(p: Parameters, states: seq<State>, table: Table, plan: Plan, kept: map<Group, set<nat>>, k: nat)
    requires ValidPlan(p, table, plan) && k < |plan.slots| && Ahead(p, states, table, plan, kept, k) && plan.slots[k].group in kept
    ensures forall w | w in kept[plan.slots[k].group] :: w < |states| && SlotClear(p, states[w], table, plan, k)
  {
    assert forall w | w in kept[plan.slots[k].group] :: Candidate(plan, kept, k, w);
  }

  lemma NoGroup(p: Parameters, table: Table, plan: Plan, persist: (nat, nat) -> Persist, groups: map<Group, set<nat>>,
                kept: map<Group, set<nat>>, k: nat)
    requires ValidPlan(p, table, plan) && k < |plan.slots| && Dropped(p, table, plan, persist, groups, kept, k)
    requires plan.slots[k].group !in kept
    ensures Unserved(p, table, plan, persist, groups, k)
  {
  }

  lemma GroupLost(p: Parameters, table: Table, plan: Plan, persist: (nat, nat) -> Persist, groups: map<Group, set<nat>>,
                  kept: map<Group, set<nat>>, k: nat)
    requires ValidPlan(p, table, plan) && k < |plan.slots| && Dropped(p, table, plan, persist, groups, kept, k + 1)
    requires plan.slots[k].group in kept && kept[plan.slots[k].group] == {}
    ensures Unserved(p, table, plan, persist, groups, k)
  {
    hide Faulty;
  }
}
