/** When a replica's listing is the one a published generation relies on, and which deliveries keep it so. */
module Agreement {
  import opened Results
  import opened Worker
  import opened Generations

  /** If anything is listed in the activation's place, the last request that took effect there names the same digests. */
  ghost predicate Agrees(p: Parameters, s: System, b: Activation)
    requires b.worker < |s.workers| && b.table in b.attempt.plans
  {
    Lists(s.workers[b.worker], b) ==>
      && Place(b) in s.standing
      && var a := s.standing[Place(b)];
         a.table in a.attempt.plans && SameDigests(p, a, b)
  }

  /** If the worker's shards for the activation's generation and table are the ones it named, so are their digests. */
  ghost predicate Holds(p: Parameters, s: Worker.State, b: Activation)
    requires b.table in b.attempt.plans
  {
    var g := b.attempt.generation;
    Lists(s, b) && s.active[g][b.table].Keys == Assigned(p, b).Keys ==> s.active[g][b.table] == Assigned(p, b)
  }

  lemma AgreesHolds(p: Parameters, s: System, b: Activation)
    requires Inv(p, s) && b in s.extended
    ensures Addressed(s, b) && (Agrees(p, s, b) <==> Holds(p, s.workers[b.worker], b))
  {
    hide Sound, Assigned, ValidAttempt, Published, LatestValid, WorkersSound;
    assert Addressed(s, b);
    if Lists(s.workers[b.worker], b) {
      var a := s.standing[Place(b)];
      assert Place(a) == Place(b) && Addressed(s, a);
    }
  }

  /** The snapshot lists the activation's worker as ready. */
  ghost predicate ReadyIn(x: Snapshot, b: Activation) {
    b.attempt == x.attempt && (b.table, b.group) in x.ready && b.worker in x.ready[(b.table, b.group)]
  }

  /** A publish under way may still count on the activation, or a published snapshot does. */
  ghost predicate Relied(s: System, b: Activation) {
    && b in s.extended
    && ((s.building.Some? && b.attempt == s.building.value.attempt) || exists x :: x in s.published && ReadyIn(x, b))
  }

  ghost predicate Intact(p: Parameters, s: System) {
    forall b | Relied(s, b) :: Addressed(s, b) && Agrees(p, s, b)
  }

  /** The request names no other digest for shards that something relies on. */
  ghost predicate Harmless(p: Parameters, s: System, a: Activation)
    requires a.table in a.attempt.plans
  {
    forall b | Relied(s, b) && b.worker == a.worker :: b.table in b.attempt.plans && SameDigests(p, a, b)
  }

  lemma ReliedIsTimely(p: Parameters, s: System, b: Activation)
    requires Inv(p, s) && Relied(s, b)
    ensures Timely(s, b) && Addressed(s, b)
  {
    hide Sound, Assigned, ValidAttempt, GroupsReady, StandingTrue;
    if x :| x in s.published && ReadyIn(x, b) {
      assert Backed(s, x);
    }
  }

  /** A request that arrives before its number is taken again is always harmless. */
  lemma TimelyHarmless(p: Parameters, s: System, a: Activation)
    requires Inv(p, s) && a.table in a.attempt.plans && Timely(s, a)
    ensures Harmless(p, s, a)
  {
    hide Inv, Assigned;
    forall b | Relied(s, b) && b.worker == a.worker
      ensures b.table in b.attempt.plans && SameDigests(p, a, b)
    {
      ReliedIsTimely(p, s, b);
      if a.attempt.generation == b.attempt.generation && a.table == b.table && Assigned(p, a).Keys == Assigned(p, b).Keys {
        AssignedFaithful(p, a);
        AssignedFaithful(p, b);
        assert forall id | id in Assigned(p, a) :: Assigned(p, a)[id] == Assigned(p, b)[id];
      }
    }
  }

  // ---- which steps keep every listing right ----

  /** How one extension changes whether another activation holds. */
  lemma WidenHolds(p: Parameters, s: Worker.State, a: Activation, b: Activation)
    requires a.table in a.attempt.plans && b.table in b.attempt.plans && (Holds(p, s, b) || a == b)
    ensures Holds(p, Widen(p, s, a), b) <==> (a.attempt.generation in Widen(p, s, a).active ==> SameDigests(p, a, b))
  {
    hide Assigned, Widen;
    WidenActive(p, s, a);
  }

  /** Extending with a request that is not evicted at once keeps every listing right exactly when it is harmless. */
  lemma DeliveryExact(p: Parameters, s: System, a: Activation)
    requires Inv(p, s) && Intact(p, s) && Enabled(p, s, Extend(a))
    ensures Addressed(s, a)
    ensures Intact(p, Generations.Next(p, s, Extend(a))) <==> (TakesEffect(p, s, a) ==> Harmless(p, s, a))
  {
    hide Inv, Holds, Agrees, SameDigests, Widen;
    AdmittedAddressed(p, s, a);
    var n := Generations.Next(p, s, Extend(a));
    ExtendInv(p, s, a);
    forall b | Relied(n, b)
      ensures Addressed(n, b) && (b.worker != a.worker ==> Agrees(p, n, b))
      ensures b.worker == a.worker ==> (Agrees(p, n, b) <==> (TakesEffect(p, s, a) ==> SameDigests(p, a, b)))
    {
      AgreesHolds(p, n, b);
      if b != a {
        ReliedBefore(s, n, b);
        AgreesHolds(p, s, b);
      }
      if b.worker == a.worker {
        WidenHolds(p, s.workers[a.worker], a, b);
      }
    }
    SelfAgrees(p, a);
    assert forall b | Relied(s, b) :: Relied(n, b);
  }

  lemma AdmittedAddressed(p: Parameters, s: System, a: Activation)
    requires Inv(p, s) && a in s.admitted
    ensures Addressed(s, a) && CallsKnown(s)
  {
  }

  lemma ReliedBefore(s: System, n: System, b: Activation)
    requires Relied(n, b) && b in s.extended && n.building == s.building && n.published == s.published
    ensures Relied(s, b)
  {
  }

  lemma SelfAgrees(p: Parameters, a: Activation)
    requires a.table in a.attempt.plans
    ensures SameDigests(p, a, a)
  {
  }

  /** Steps other than an extension make nothing new relied upon. */
  lemma NothingNewRelied(p: Parameters, s: System, step: Generations.Step, b: Activation)
    requires Inv(p, s) && Enabled(p, s, step) && !step.Extend? && CallsKnown(s) && Relied(Generations.Next(p, s, step), b)
    ensures Relied(s, b)
  {
    hide Sound, Assigned, ValidAttempt, GroupsReady, StandingTrue, ExtendedStand, LatestValid, Worker.Next, Swept, Activatable;
    var n := Generations.Next(p, s, step);
    if step.Begin? {
      assert Addressed(s, b);
      assert b.attempt != n.building.value.attempt;
    }
    if !(n.building.Some? && b.attempt == n.building.value.attempt) {
      var x :| x in n.published && ReadyIn(x, b);
    }
  }

  /** Nor do they change what is listed, except that a restart lists nothing. */
  lemma ListingsUnchanged(p: Parameters, s: System, step: Generations.Step, w: nat)
    requires Enabled(p, s, step) && !step.Extend? && CallsKnown(s) && w < |s.workers|
    ensures var n := Generations.Next(p, s, step);
      && n.standing == s.standing && |n.workers| == |s.workers|
      && (n.workers[w].active == s.workers[w].active || n.workers[w].active == map[])
  {
    hide Worker.Next, Activatable;
    match step
    case WorkerStep(v, inner) => ActiveKept(p, s.workers[v], inner);
    case _ =>
  }

  lemma QuietIntact(p: Parameters, s: System, step: Generations.Step)
    requires Inv(p, s) && Intact(p, s) && Enabled(p, s, step) && !step.Extend? && CallsKnown(s)
    ensures Intact(p, Generations.Next(p, s, step))
  {
    hide Inv, Relied, SameDigests, Generations.Next, Enabled;
    var n := Generations.Next(p, s, step);
    StepInv(p, s, step);
    forall b | Relied(n, b)
      ensures Addressed(n, b) && Agrees(p, n, b)
    {
      NothingNewRelied(p, s, step, b);
      ReliedIsTimely(p, n, b);
      ListingsUnchanged(p, s, step, b.worker);
    }
  }

  // ---- over whole runs ----

  /** The step is no extension, or one that is evicted at once or harmless. */
  ghost predicate HarmlessStep(p: Parameters, s: System, step: Generations.Step) {
    step.Extend? ==>
      Addressed(s, step.activation) && (TakesEffect(p, s, step.activation) ==> Harmless(p, s, step.activation))
  }

  lemma StepIntactExactly(p: Parameters, s: System, step: Generations.Step)
    requires Inv(p, s) && Intact(p, s) && Enabled(p, s, step) && CallsKnown(s)
    ensures Intact(p, Generations.Next(p, s, step)) <==> HarmlessStep(p, s, step)
  {
    hide Inv, Intact, Harmless, TakesEffect, Generations.Next;
    if step.Extend? {
      DeliveryExact(p, s, step.activation);
    } else {
      QuietIntact(p, s, step);
    }
  }

  /** The listings are right throughout a run exactly when every extension that took effect was harmless. */
  lemma {:induction false} RunIntactExactly(p: Parameters, run: seq<System>, steps: seq<Generations.Step>, n: nat)
    requires Behaves(p, run, steps) && n < |run|
    ensures (forall i :: 0 <= i <= n ==> Intact(p, run[i])) <==> (forall i :: 0 <= i < n ==> HarmlessStep(p, run[i], steps[i]))
    decreases n
  {
    hide Inv, Intact, HarmlessStep, Generations.Next, Enabled, CallsKnown;
    if n == 0 {
      assert Intact(p, run[0]) by { NothingRelied(p, run[0]); }
    } else {
      RunIntactExactly(p, run, steps, n - 1);
      if forall i :: 0 <= i <= n - 1 ==> Intact(p, run[i]) {
        RunInv(p, run, steps, n - 1);
        assert Follows(p, run[n - 1], steps[n - 1], run[n]);
        StepIntactExactly(p, run[n - 1], steps[n - 1]);
      }
    }
  }

  lemma HarmlessIntact(p: Parameters, run: seq<System>, steps: seq<Generations.Step>, n: nat)
    requires Behaves(p, run, steps) && n < |run| && forall i :: 0 <= i < |steps| ==> HarmlessStep(p, run[i], steps[i])
    ensures Intact(p, run[n])
  {
    hide Intact, HarmlessStep, Follows;
    RunIntactExactly(p, run, steps, n);
  }

  lemma NothingRelied(p: Parameters, s: System)
    requires Init(p, s)
    ensures Intact(p, s)
  {
  }
}
