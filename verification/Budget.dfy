/** Fetching rows under a budget: what a call buys, when it finishes, and what it leaves for the next. */
module Budget {
  import opened Sorting

  /** A private row of one generation. */
  datatype RowId = DirectoryRow(row: nat) | PageRow(row: nat)

  function Least(s: set<nat>): (m: nat)
    requires s != {}
    ensures m in s && forall k | k in s :: m <= k
  {
    LeastExists(s, var x :| x in s; x);
    var m :| m in s && forall k | k in s :: m <= k;
    m
  }

  /** A set of rows in ascending order. */
  function Ascending(s: set<nat>): (r: seq<nat>)
    decreases |s|
  {
    if s == {} then [] else [Least(s)] + Ascending(s - {Least(s)})
  }

  lemma {:induction false} AscendingFacts(s: set<nat>)
    ensures forall x :: x in Ascending(s) <==> x in s
    ensures Distinct(Ascending(s))
    decreases |s|
  {
    if s != {} {
      AscendingFacts(s - {Least(s)});
    }
  }

  /** Every row of the set once, from the lowest up. */
  lemma {:induction false} AscendingSorts(s: set<nat>, i: nat, j: nat)
    requires i < j < |Ascending(s)|
    ensures Ascending(s)[i] < Ascending(s)[j]
    decreases i
  {
    var rest := s - {Least(s)};
    if i == 0 {
      AscendingFacts(rest);
      assert Ascending(s)[j] == Ascending(rest)[j - 1] && Ascending(rest)[j - 1] in Ascending(rest);
    } else {
      AscendingSorts(rest, i - 1, j - 1);
    }
  }

  function Tagged(rows: seq<nat>, pages: bool): (r: seq<RowId>)
    ensures |r| == |rows|
    ensures forall i :: 0 <= i < |r| ==> r[i] == if pages then PageRow(rows[i]) else DirectoryRow(rows[i])
  {
    seq(|rows|, i requires 0 <= i < |rows| => if pages then PageRow(rows[i]) else DirectoryRow(rows[i]))
  }

  function Missing(journal: set<RowId>, request: seq<RowId>): (r: seq<RowId>)
    ensures forall x :: x in r <==> x in request && x !in journal
    ensures Distinct(request) ==> Distinct(r)
  {
    if request == [] then []
    else
      var n := |request| - 1;
      assert request == request[..n] + [request[n]];
      var head := Missing(journal, request[..n]);
      if request[n] in journal then head else head + [request[n]]
  }

  function AsSet(s: seq<RowId>): (r: set<RowId>) {
    set x | x in s
  }

  /** The rows one fetch may still pay for: the first `budget` missing ones. */
  function Affordable(journal: set<RowId>, request: seq<RowId>, budget: nat): (r: seq<RowId>)
    ensures |r| <= budget && |r| <= |Missing(journal, request)|
  {
    var missing := Missing(journal, request);
    if budget < |missing| then missing[..budget] else missing
  }

  /** The journal after a run of requests, whether all completed, and the budget left. */
  datatype Fetched = Fetched(journal: set<RowId>, done: bool, left: nat)

  /** Requests in order; the first one the budget cannot complete pauses the rest. */
  function RunRequests(journal: set<RowId>, requests: seq<seq<RowId>>, budget: nat): (r: Fetched)
    decreases |requests|
  {
    if requests == [] then Fetched(journal, true, budget)
    else
      var bought := Affordable(journal, requests[0], budget);
      var now := journal + AsSet(bought);
      if |bought| < |Missing(journal, requests[0])| then Fetched(now, false, budget - |bought|)
      else RunRequests(now, requests[1..], budget - |bought|)
  }

  /** Every row some request names. */
  function Needed(requests: seq<seq<RowId>>): (r: set<RowId>) {
    if requests == [] then {} else AsSet(requests[0]) + Needed(requests[1..])
  }

  ghost predicate Separate(requests: seq<seq<RowId>>) {
    forall i :: 0 <= i < |requests| ==> Distinct(requests[i])
  }

  lemma {:induction false} DistinctSize(s: seq<RowId>)
    requires Distinct(s)
    ensures |AsSet(s)| == |s|
  {
    if s != [] {
      var n := |s| - 1;
      DistinctSize(s[..n]);
      assert s == s[..n] + [s[n]];
      assert AsSet(s) == AsSet(s[..n]) + {s[n]};
    }
  }

  lemma PrefixDistinct(s: seq<RowId>, n: nat)
    requires Distinct(s) && n <= |s|
    ensures Distinct(s[..n])
  {
  }

  lemma SetSum(a: set<RowId>, b: set<RowId>)
    requires a !! b
    ensures |a + b| == |a| + |b|
  {
  }

  /** All of `need` is durable, or the whole budget went into rows of it that were missing. */
  ghost predicate Spends(journal: set<RowId>, need: set<RowId>, budget: nat, after: set<RowId>, done: bool) {
    var missing := need - journal;
    && journal <= after <= journal + missing
    && (done <==> |missing| <= budget)
    && (done ==> after == journal + need)
    && |after - journal| == if budget < |missing| then budget else |missing|
  }

  /**
   One call buys exactly as many new rows as its budget allows: it finishes if and only if the rows
   still missing fit the budget, and never buys a row that was already journaled.
   */
  lemma {:induction false} BudgetExact(journal: set<RowId>, requests: seq<seq<RowId>>, budget: nat)
    requires Separate(requests)
    ensures var f := RunRequests(journal, requests, budget);
      Spends(journal, Needed(requests), budget, f.journal, f.done)
    decreases |requests|
  {
    hide Missing, Affordable, AsSet, Spends;
    if requests == [] {
      SpendsNothing(journal, budget);
    } else {
      var first, rest := requests[0], requests[1..];
      AffordableFacts(journal, first, budget);
      var bought := Affordable(journal, first, budget);
      var now := journal + AsSet(bought);
      if |bought| < |Missing(journal, first)| {
        SpendsAll(journal, AsSet(first), Needed(rest), AsSet(bought), budget);
      } else {
        var f := RunRequests(now, rest, budget - |bought|);
        BudgetExact(now, rest, budget - |bought|);
        assert now == journal + AsSet(first);
        SpendsSome(journal, AsSet(first), Needed(rest), budget, |bought|, f.journal, f.done);
      }
    }
  }

  lemma SpendsNothing(journal: set<RowId>, budget: nat)
    ensures Spends(journal, {}, budget, journal, true)
  {
    assert {} - journal == {} && journal - journal == {};
  }

  lemma SpendsAll(journal: set<RowId>, first: set<RowId>, rest: set<RowId>, bought: set<RowId>, budget: nat)
    requires bought <= first - journal && |bought| == budget < |first - journal|
    ensures Spends(journal, first + rest, budget, journal + bought, false)
  {
    assert journal + bought - journal == bought;
    SubsetSize(first - journal, first + rest - journal);
  }

  lemma SpendsSome(journal: set<RowId>, first: set<RowId>, rest: set<RowId>, budget: nat, spent: nat, after: set<RowId>, done: bool)
    requires spent == |first - journal| <= budget
    requires Spends(journal + first, rest, budget - spent, after, done)
    ensures Spends(journal, first + rest, budget, after, done)
  {
    SplitMissing(journal, first, rest, after);
  }

  lemma SplitMissing(journal: set<RowId>, first: set<RowId>, rest: set<RowId>, after: set<RowId>)
    requires journal + first <= after
    ensures |(first + rest) - journal| == |first - journal| + |rest - (journal + first)|
    ensures |after - journal| == |first - journal| + |after - (journal + first)|
  {
    var now := journal + first;
    assert (first + rest) - journal == (first - journal) + (rest - now);
    SetSum(first - journal, rest - now);
    assert after - journal == (first - journal) + (after - now);
    SetSum(first - journal, after - now);
  }

  lemma SubsetSize(a: set<RowId>, b: set<RowId>)
    requires a <= b
    ensures |a| <= |b|
  {
    assert b == a + (b - a);
    SetSum(a, b - a);
  }

  lemma AffordableFacts(journal: set<RowId>, request: seq<RowId>, budget: nat)
    requires Distinct(request)
    ensures var bought, missing := Affordable(journal, request, budget), Missing(journal, request);
      && |missing| == |AsSet(request) - journal|
      && |bought| == (if budget < |missing| then budget else |missing|)
      && |AsSet(bought)| == |bought|
      && AsSet(bought) <= AsSet(request) - journal
      && (|bought| == |missing| ==> AsSet(bought) == AsSet(request) - journal)
  {
    var bought, missing := Affordable(journal, request, budget), Missing(journal, request);
    DistinctSize(missing);
    assert AsSet(missing) == AsSet(request) - journal;
    PrefixDistinct(missing, |bought|);
    DistinctSize(bought);
  }

  lemma SubsetDifference(a: set<RowId>, b: set<RowId>)
    requires b <= a
    ensures |a - b| == |a| - |b|
  {
    assert a == b + (a - b);
    SetSum(b, a - b);
  }

  lemma SpendsMissing(journal: set<RowId>, need: set<RowId>, budget: nat, after: set<RowId>, done: bool)
    requires Spends(journal, need, budget, after, done)
    ensures var missing := need - journal;
      && (done <==> |missing| <= budget)
      && journal <= after <= journal + missing
      && (done ==> after == journal + missing)
      && (!done ==> |need - after| == |missing| - budget)
  {
    if done {
      assert journal + need == journal + (need - journal);
    } else {
      assert need - after == (need - journal) - (after - journal);
      SubsetDifference(need - journal, after - journal);
    }
  }

  lemma SameEnd(before: set<RowId>, after: set<RowId>, need: set<RowId>)
    requires before <= after <= before + (need - before)
    ensures after + (need - after) == before + (need - before)
  {
  }

  lemma {:induction false} RunAppend(journal: set<RowId>, a: seq<seq<RowId>>, b: seq<seq<RowId>>, budget: nat)
    ensures var f := RunRequests(journal, a, budget);
      RunRequests(journal, a + b, budget) == if f.done then RunRequests(f.journal, b, f.left) else f
    decreases |a|
  {
    hide Missing, Affordable, AsSet;
    if a == [] {
      assert a + b == b;
    } else {
      assert (a + b)[1..] == a[1..] + b;
      var bought := Affordable(journal, a[0], budget);
      if |bought| == |Missing(journal, a[0])| {
        RunAppend(journal + AsSet(bought), a[1..], b, budget - |bought|);
      }
    }
  }

  lemma RunOne(journal: set<RowId>, request: seq<RowId>, budget: nat)
    ensures var bought := Affordable(journal, request, budget);
      RunRequests(journal, [request], budget)
        == Fetched(journal + AsSet(bought), |bought| == |Missing(journal, request)|, budget - |bought|)
  {
    hide Missing, Affordable, AsSet;
    assert [request][1..] == [];
  }

  lemma FetchedAll(journal: set<RowId>, request: seq<RowId>, budget: nat)
    requires Distinct(request)
    ensures var bought := Affordable(journal, request, budget);
      (forall r | r in request :: r in journal + AsSet(bought)) <==> |bought| == |Missing(journal, request)|
  {
    var bought, missing := Affordable(journal, request, budget), Missing(journal, request);
    if |bought| < |missing| {
      var r := missing[|bought|];
      assert r in missing && r !in bought;
    }
  }
}
