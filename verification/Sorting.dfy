/** Sorting by a total order: the standard library sort every component relies on. */
module Sorting {
  ghost predicate TotalOrder<T(!new)>(leq: (T, T) -> bool) {
    && (forall a, b :: leq(a, b) || leq(b, a))
    && (forall a, b :: leq(a, b) && leq(b, a) ==> a == b)
    && (forall a, b, c :: leq(a, b) && leq(b, c) ==> leq(a, c))
  }

  predicate Sorted<T>(s: seq<T>, leq: (T, T) -> bool) {
    forall i, j :: 0 <= i < j < |s| ==> leq(s[i], s[j])
  }

  function Insert<T>(x: T, s: seq<T>, leq: (T, T) -> bool): (r: seq<T>)
    ensures multiset(r) == multiset(s) + multiset{x}
    ensures |r| == |s| + 1
  {
    if s == [] then [x]
    else if leq(x, s[0]) then [x] + s
    else
      assert s == [s[0]] + s[1..];
      [s[0]] + Insert(x, s[1..], leq)
  }

  function Sort<T>(s: seq<T>, leq: (T, T) -> bool): (r: seq<T>)
    ensures multiset(r) == multiset(s)
    ensures |r| == |s|
  {
    if s == [] then []
    else
      assert s == [s[0]] + s[1..];
      Insert(s[0], Sort(s[1..], leq), leq)
  }

  lemma SameElements<T>(s: seq<T>, t: seq<T>)
    requires multiset(s) == multiset(t)
    ensures forall x :: x in s <==> x in t
    ensures |s| == |t|
  {
    forall x
      ensures x in s <==> x in t
    {
      assert x in s <==> x in multiset(s);
      assert x in t <==> x in multiset(t);
    }
    assert |multiset(s)| == |s| && |multiset(t)| == |t|;
  }

  lemma {:induction false} InsertSorted<T(!new)>(x: T, s: seq<T>, leq: (T, T) -> bool)
    requires TotalOrder(leq) && Sorted(s, leq)
    ensures Sorted(Insert(x, s, leq), leq)
  {
    if s != [] && !leq(x, s[0]) {
      InsertSorted(x, s[1..], leq);
      var tail := Insert(x, s[1..], leq);
      forall y | y in tail
        ensures leq(s[0], y)
      {
        assert y in multiset(tail);
        if y != x {
          assert y in multiset(s[1..]);
          var i :| 0 <= i < |s[1..]| && s[1..][i] == y;
          assert s[i + 1] == y;
        }
      }
    }
  }

  lemma {:induction false} SortSorted<T(!new)>(s: seq<T>, leq: (T, T) -> bool)
    requires TotalOrder(leq)
    ensures Sorted(Sort(s, leq), leq)
  {
    if s != [] {
      SortSorted(s[1..], leq);
      InsertSorted(s[0], Sort(s[1..], leq), leq);
    }
  }

  lemma CancelOne<T>(x: T, a: multiset<T>, b: multiset<T>)
    requires multiset{x} + a == multiset{x} + b
    ensures a == b
  {
    assert multiset{x} + a - multiset{x} == a;
    assert multiset{x} + b - multiset{x} == b;
  }

  /** A sorted arrangement is unique. */
  lemma {:induction false} SortedUnique<T(!new)>(s: seq<T>, t: seq<T>, leq: (T, T) -> bool)
    requires TotalOrder(leq) && Sorted(s, leq) && Sorted(t, leq)
    requires multiset(s) == multiset(t)
    ensures s == t
  {
    SameElements(s, t);
    if s != [] {
      assert s[0] in t && t[0] in s;
      assert s[0] == t[0];
      assert s == [s[0]] + s[1..] && t == [t[0]] + t[1..];
      CancelOne(s[0], multiset(s[1..]), multiset(t[1..]));
      SortedUnique(s[1..], t[1..], leq);
    }
  }

  /** Sorting forgets the order of its input. */
  lemma SortCanonical<T(!new)>(s: seq<T>, t: seq<T>, leq: (T, T) -> bool)
    requires TotalOrder(leq) && multiset(s) == multiset(t)
    ensures Sort(s, leq) == Sort(t, leq)
  {
    SortSorted(s, leq);
    SortSorted(t, leq);
    SortedUnique(Sort(s, leq), Sort(t, leq), leq);
  }

  /** Keeping the elements that satisfy `p`, in order. */
  function Filter<T>(s: seq<T>, p: T -> bool): (r: seq<T>)
    ensures |r| <= |s|
    ensures forall x | x in r :: x in s && p(x)
    ensures forall x | x in s :: p(x) ==> x in r
  {
    if s == [] then []
    else
      assert s == [s[0]] + s[1..];
      (if p(s[0]) then [s[0]] else []) + Filter(s[1..], p)
  }

  lemma {:induction false} FilterAppend<T>(s: seq<T>, t: seq<T>, p: T -> bool)
    ensures Filter(s + t, p) == Filter(s, p) + Filter(t, p)
  {
    if s == [] {
      assert s + t == t;
    } else {
      assert (s + t)[1..] == s[1..] + t;
      FilterAppend(s[1..], t, p);
    }
  }

  lemma FilterMultiset<T(!new)>(s: seq<T>, t: seq<T>, p: T -> bool)
    requires multiset(s) == multiset(t)
    ensures multiset(Filter(s, p)) == multiset(Filter(t, p))
  {
    var a, b := multiset(Filter(s, p)), multiset(Filter(t, p));
    forall x: T
      ensures a[x] == b[x]
    {
      FilterCount(s, p, x);
      FilterCount(t, p, x);
    }
    assert a == b;
  }

  lemma {:induction false} FilterCount<T>(s: seq<T>, p: T -> bool, x: T)
    ensures multiset(Filter(s, p))[x] == if p(x) then multiset(s)[x] else 0
  {
    if s != [] {
      assert s == [s[0]] + s[1..];
      FilterCount(s[1..], p, x);
    }
  }

  lemma {:induction false} FilterSorted<T(!new)>(s: seq<T>, p: T -> bool, leq: (T, T) -> bool)
    requires Sorted(s, leq)
    ensures Sorted(Filter(s, p), leq)
  {
    if s != [] {
      FilterSorted(s[1..], p, leq);
      forall y | y in Filter(s[1..], p)
        ensures leq(s[0], y)
      {
        var i :| 0 <= i < |s[1..]| && s[1..][i] == y;
        assert s[i + 1] == y;
      }
    }
  }

  /** Filtering and sorting commute. */
  lemma SortOfFilter<T(!new)>(s: seq<T>, p: T -> bool, leq: (T, T) -> bool)
    requires TotalOrder(leq)
    ensures Sort(Filter(s, p), leq) == Filter(Sort(s, leq), p)
  {
    SortSorted(s, leq);
    FilterSorted(Sort(s, leq), p, leq);
    SortSorted(Filter(s, p), leq);
    FilterMultiset(s, Sort(s, leq), p);
    SortedUnique(Sort(Filter(s, p), leq), Filter(Sort(s, leq), p), leq);
  }

  function Map<T, U>(s: seq<T>, f: T -> U): (r: seq<U>)
    ensures |r| == |s|
    ensures forall i :: 0 <= i < |s| ==> r[i] == f(s[i])
  {
    seq(|s|, i requires 0 <= i < |s| => f(s[i]))
  }

  lemma RemoveAt<T>(s: seq<T>, k: nat)
    requires k < |s|
    ensures multiset(s) == multiset{s[k]} + multiset(s[..k] + s[k + 1..])
  {
    assert s == s[..k] + ([s[k]] + s[k + 1..]);
  }

  lemma MapRemoveAt<T, U>(s: seq<T>, k: nat, f: T -> U)
    requires k < |s|
    ensures multiset(Map(s, f)) == multiset{f(s[k])} + multiset(Map(s[..k] + s[k + 1..], f))
  {
    RemoveAt(Map(s, f), k);
    assert Map(s, f)[..k] + Map(s, f)[k + 1..] == Map(s[..k] + s[k + 1..], f);
  }

  /** Where the other arrangement has the first element. */
  lemma Occurrence<T>(s: seq<T>, t: seq<T>) returns (k: nat)
    requires multiset(s) == multiset(t) && s != []
    ensures k < |t| && t[k] == s[0]
  {
    assert s[0] in multiset(t);
    k :| 0 <= k < |t| && t[k] == s[0];
  }

  /** Taking the shared element out of both arrangements, before and after mapping. */
  lemma MapOneLess<T, U>(s: seq<T>, t: seq<T>, k: nat, f: T -> U, a: seq<T>, b: seq<T>)
    requires multiset(s) == multiset(t) && s != [] && k < |t| && t[k] == s[0]
    requires a == s[..0] + s[0 + 1..] && b == t[..k] + t[k + 1..]
    ensures multiset(a) == multiset(b)
    ensures multiset(Map(a, f)) == multiset(Map(b, f)) ==> multiset(Map(s, f)) == multiset(Map(t, f))
  {
    hide Map;
    RemoveAt(s, 0);
    RemoveAt(t, k);
    CancelOne(s[0], multiset(a), multiset(b));
    MapRemoveAt(s, 0, f);
    MapRemoveAt(t, k, f);
  }

  /** Mapping two arrangements of the same elements gives arrangements of the same results. */
  lemma {:induction false} MapMultiset<T(!new), U>(s: seq<T>, t: seq<T>, f: T -> U)
    requires multiset(s) == multiset(t)
    ensures multiset(Map(s, f)) == multiset(Map(t, f))
  {
    hide Map;
    assert |multiset(s)| == |s| && |multiset(t)| == |t|;
    if s == [] {
      assert t == [];
    } else {
      var k := Occurrence(s, t);
      var a, b := s[..0] + s[0 + 1..], t[..k] + t[k + 1..];
      MapOneLess(s, t, k, f, a, b);
      MapMultiset(a, b, f);
    }
  }

  predicate Distinct<T(==)>(s: seq<T>) {
    forall i, j :: 0 <= i < j < |s| ==> s[i] != s[j]
  }

  lemma {:induction false} DistinctCounts<T>(s: seq<T>, x: T)
    requires Distinct(s)
    ensures multiset(s)[x] == if x in s then 1 else 0
  {
    if s != [] {
      assert s == [s[0]] + s[1..];
      DistinctCounts(s[1..], x);
    }
  }

  lemma {:induction false} CountsDistinct<T(!new)>(s: seq<T>)
    requires forall x :: multiset(s)[x] <= 1
    ensures Distinct(s)
  {
    if s != [] {
      assert s == [s[0]] + s[1..];
      assert multiset(s) == multiset{s[0]} + multiset(s[1..]);
      forall x: T
        ensures multiset(s[1..])[x] <= 1
      {
        assert multiset(s)[x] <= 1;
      }
      CountsDistinct(s[1..]);
      assert multiset(s)[s[0]] <= 1;
      assert s[0] !in multiset(s[1..]);
    }
  }

  /** Rearranging keeps a sequence duplicate-free. */
  lemma DistinctPermutation<T(!new)>(s: seq<T>, t: seq<T>)
    requires Distinct(s) && multiset(s) == multiset(t)
    ensures Distinct(t)
  {
    forall x: T
      ensures multiset(t)[x] <= 1
    {
      DistinctCounts(s, x);
    }
    CountsDistinct(t);
  }

  /** Two duplicate-free sequences with the same elements are arrangements of each other. */
  lemma DistinctMultiset<T(!new)>(s: seq<T>, t: seq<T>)
    requires Distinct(s) && Distinct(t)
    requires forall x :: x in s <==> x in t
    ensures multiset(s) == multiset(t)
  {
    var a, b := multiset(s), multiset(t);
    forall x: T
      ensures a[x] == b[x]
    {
      DistinctCounts(s, x);
      DistinctCounts(t, x);
    }
    assert a == b;
  }

  predicate NatLeq(a: nat, b: nat) {
    a <= b
  }

  lemma NatTotalOrder()
    ensures TotalOrder(NatLeq)
  {
  }

  /** A set of naturals has a least element. */
  lemma {:induction false} LeastExists(s: set<nat>, bound: nat)
    requires bound in s
    ensures exists m :: m in s && forall k | k in s :: m <= k
    decreases bound
  {
    if k :| k in s && k < bound {
      LeastExists(s, k);
    } else {
      assert bound in s && forall k | k in s :: bound <= k;
    }
  }

  lemma {:induction false} DistinctCount<T>(s: seq<T>, all: set<T>)
    requires Distinct(s) && forall x :: x in s <==> x in all
    ensures |s| == |all|
    decreases |s|
  {
    if s != [] {
      assert s == [s[0]] + s[1..];
      assert s[0] !in s[1..];
      DistinctCount(s[1..], all - {s[0]});
    } else {
      assert all == {};
    }
  }
}
