/** Building a block's filter and matching wallet scripts against it, locally. */
module Matching {
  import opened Bytes
  import opened Results
  import opened Chain
  import opened Sorting
  import opened GolombRice
  import opened FilterValidation

  /** The high 64 bits of the 128-bit product. */
  function MapToRange(hash: u64, nm: u64): (v: nat)
    ensures v < U64_LIMIT
    ensures nm > 0 ==> v < nm
    ensures nm == 0 ==> v == 0
  {
    assert hash * nm <= U64_LIMIT * nm;
    hash * nm / U64_LIMIT
  }

  /** The first occurrences of the eligible scripts. */
  function Elements(scripts: seq<Script>): (r: seq<Script>)
    ensures |r| <= |scripts|
    ensures Distinct(r)
    ensures forall x :: x in r <==> x in scripts && IsFilterElement(x)
  {
    if scripts == [] then []
    else
      var last := |scripts| - 1;
      assert scripts == scripts[..last] + [scripts[last]];
      var head := Elements(scripts[..last]);
      if IsFilterElement(scripts[last]) && scripts[last] !in head then head + [scripts[last]] else head
  }

  /** The mapped set a block's filter encodes, sorted. */
  function BuiltValues(hasher: KeyedHash, block: BlockHash, scripts: seq<Script>): (values: seq<nat>)
    requires |Elements(scripts)| * M < U64_LIMIT
  {
    var elements := Elements(scripts);
    Sort(MappedElements(hasher, block, elements, |elements|), NatLeq)
  }

  function MappedElements(hasher: KeyedHash, block: BlockHash, elements: seq<Script>, count: nat): (r: seq<nat>)
    requires count * M < U64_LIMIT
    ensures |r| == |elements|
    ensures count > 0 ==> Below(r, count * M)
  {
    var r := Map(elements, script => MapToRange(hasher(block, script), count * M));
    assert forall i | 0 <= i < |r| :: r[i] == MapToRange(hasher(block, elements[i]), count * M);
    r
  }

  lemma {:induction false} AscendingFromSorted(last: nat, values: seq<nat>)
    requires Sorted(values, NatLeq)
    requires values != [] ==> last <= values[0]
    ensures Ascending(last, values)
    decreases |values|
  {
    if values != [] {
      AscendingFromSorted(values[0], values[1..]);
    }
  }

  lemma {:induction false} SortedFromAscending(last: nat, values: seq<nat>)
    requires Ascending(last, values)
    ensures Sorted(values, NatLeq)
    ensures forall i :: 0 <= i < |values| ==> last <= values[i]
    decreases |values|
  {
    if values != [] {
      SortedFromAscending(values[0], values[1..]);
      forall i | 0 < i < |values|
        ensures values[0] <= values[i]
      {
        assert values[i] == values[1..][i - 1];
      }
      forall i, j | 0 <= i < j < |values|
        ensures NatLeq(values[i], values[j])
      {
        assert i > 0 ==> values[i] == values[1..][i - 1];
        assert values[j] == values[1..][j - 1];
      }
    }
  }

  /** What is built can always be encoded. */
  lemma BuiltEncodable(hasher: KeyedHash, block: BlockHash, scripts: seq<Script>)
    requires |Elements(scripts)| * M < U64_LIMIT
    ensures EncodableValues(BuiltValues(hasher, block, scripts))
    ensures |BuiltValues(hasher, block, scripts)| == |Elements(scripts)|
  {
    hide Sort, Ascending;
    var elements := Elements(scripts);
    var mapped := MappedElements(hasher, block, elements, |elements|);
    var values := BuiltValues(hasher, block, scripts);
    NatTotalOrder();
    SortSorted(mapped, NatLeq);
    AscendingFromSorted(0, values);
    BelowPermutation(mapped, values, |elements| * M);
  }

  lemma BelowPermutation(s: seq<nat>, t: seq<nat>, range: nat)
    requires multiset(s) == multiset(t)
    requires s != [] ==> Below(s, range)
    ensures Below(t, range)
  {
    SameElements(s, t);
    forall i | 0 <= i < |t|
      ensures t[i] < range
    {
      assert t[i] in s;
    }
  }

  /** The mapped value is the hash's share of the range, rounded down. */
  lemma MapProportional(hash: u64, nm: u64)
    ensures var v := MapToRange(hash, nm);
      v * 0x1_0000_0000_0000_0000 <= hash * nm < (v + 1) * 0x1_0000_0000_0000_0000
  {
  }

  /** The scripts a filter holds: not empty, and not starting with the byte of a data output. */
  ghost function Eligible(scripts: seq<Script>): (r: set<Script>) {
    set x | x in scripts && x != [] && x[0] != 0x6a
  }

  /** `v` is the value of the hash in a range of 784931 per element. */
  ghost predicate ValueOf(hash: u64, count: nat, v: nat) {
    v * 0x1_0000_0000_0000_0000 <= hash * (count * 784_931) < (v + 1) * 0x1_0000_0000_0000_0000
  }

  /** A built filter has one value per eligible script, and no others, in nondecreasing order. */
  lemma BuiltExactly(hasher: KeyedHash, block: BlockHash, scripts: seq<Script>)
    requires |Elements(scripts)| * M < U64_LIMIT
    ensures var values := BuiltValues(hasher, block, scripts);
      && |values| == |Eligible(scripts)| && (forall a, b :: 0 <= a < b < |values| ==> values[a] <= values[b])
      && (forall x | x in Eligible(scripts) :: exists v :: v in values && ValueOf(hasher(block, x), |values|, v))
      && (forall v | v in values :: exists x :: x in Eligible(scripts) && ValueOf(hasher(block, x), |values|, v))
  {
    hide Sort, ValueOf, BuiltValues, Elements, Eligible;
    var values := BuiltValues(hasher, block, scripts);
    BuiltShape(hasher, block, scripts);
    forall v | v in values
      ensures exists x :: x in Eligible(scripts) && ValueOf(hasher(block, x), |values|, v)
    {
      var x := ElementOf(hasher, block, scripts, v);
    }
    forall x | x in Eligible(scripts)
      ensures exists v :: v in values && ValueOf(hasher(block, x), |values|, v)
    {
      var v := ValueFor(hasher, block, scripts, x);
    }
  }

  lemma BuiltShape(hasher: KeyedHash, block: BlockHash, scripts: seq<Script>)
    requires |Elements(scripts)| * M < U64_LIMIT
    ensures var values := BuiltValues(hasher, block, scripts);
      |values| == |Eligible(scripts)| == |Elements(scripts)| && forall a, b :: 0 <= a < b < |values| ==> values[a] <= values[b]
  {
    hide Sort, Elements, Eligible;
    ElementsAre(scripts);
    NatTotalOrder();
    SortSorted(MappedElements(hasher, block, Elements(scripts), |Elements(scripts)|), NatLeq);
  }

  lemma ValueFor(hasher: KeyedHash, block: BlockHash, scripts: seq<Script>, x: Script) returns (v: nat)
    requires |Elements(scripts)| * M < U64_LIMIT && x in Eligible(scripts)
    ensures v in BuiltValues(hasher, block, scripts) && ValueOf(hasher(block, x), |BuiltValues(hasher, block, scripts)|, v)
  {
    hide Sort, Elements, ValueOf, Eligible;
    var elements := Elements(scripts);
    var mapped := MappedElements(hasher, block, elements, |elements|);
    ElementsAre(scripts);
    SameElements(mapped, BuiltValues(hasher, block, scripts));
    var k :| 0 <= k < |elements| && elements[k] == x;
    v := mapped[k];
    assert v in mapped;
    MappedHasValue(hasher(block, x), |elements|);
  }

  lemma ElementOf(hasher: KeyedHash, block: BlockHash, scripts: seq<Script>, v: nat) returns (x: Script)
    requires |Elements(scripts)| * M < U64_LIMIT && v in BuiltValues(hasher, block, scripts)
    ensures x in Eligible(scripts) && ValueOf(hasher(block, x), |BuiltValues(hasher, block, scripts)|, v)
  {
    hide Sort, Elements, ValueOf, Eligible;
    var elements := Elements(scripts);
    var mapped := MappedElements(hasher, block, elements, |elements|);
    ElementsAre(scripts);
    SameElements(mapped, BuiltValues(hasher, block, scripts));
    var k :| 0 <= k < |mapped| && mapped[k] == v;
    x := elements[k];
    assert x in elements;
    MappedHasValue(hasher(block, x), |elements|);
  }

  lemma MappedHasValue(hash: u64, count: nat)
    requires count * M < U64_LIMIT
    ensures ValueOf(hash, count, MapToRange(hash, count * M))
  {
    MapProportional(hash, count * M);
  }

  lemma ElementsAre(scripts: seq<Script>)
    ensures |Elements(scripts)| == |Eligible(scripts)|
    ensures forall x :: x in Elements(scripts) <==> x in Eligible(scripts)
  {
    DistinctCount(Elements(scripts), Eligible(scripts));
  }

  /** The loop that feeds the library's filter writer, and its `finish`. */
  method BuildFilter(hasher: KeyedHash, block: BlockHash, scripts: seq<Script>) returns (bytes: seq<byte>)
    requires |Elements(scripts)| * M < U64_LIMIT
    ensures EncodableValues(BuiltValues(hasher, block, scripts))
    ensures bytes == EncodeFilter(BuiltValues(hasher, block, scripts))
  {
    hide EncodableValues, EncodeFilter, Sort;
    var elements: seq<Script> := [];
    for i := 0 to |scripts|
      invariant elements == Elements(scripts[..i])
    {
      assert scripts[..i + 1][..i] == scripts[..i];
      if IsFilterElement(scripts[i]) && scripts[i] !in elements {
        elements := elements + [scripts[i]];
      }
    }
    assert scripts[..|scripts|] == scripts;
    var values := Sort(MappedElements(hasher, block, elements, |elements|), NatLeq);
    BuiltEncodable(hasher, block, scripts);
    bytes := EncodeFilter(values);
  }

  /** A filter depends only on the set of its elements, not on their order or repetition. */
  lemma BuildCanonical(hasher: KeyedHash, block: BlockHash, scripts: seq<Script>, others: seq<Script>)
    requires |Elements(scripts)| * M < U64_LIMIT && |Elements(others)| * M < U64_LIMIT
    requires forall x | IsFilterElement(x) :: x in scripts <==> x in others
    ensures BuiltValues(hasher, block, scripts) == BuiltValues(hasher, block, others)
  {
    var a, b := Elements(scripts), Elements(others);
    DistinctMultiset(a, b);
    SameElements(a, b);
    var f := (script: Script) => MapToRange(hasher(block, script), |a| * M);
    MapMultiset(a, b, f);
    assert MappedElements(hasher, block, a, |a|) == Map(a, f);
    assert MappedElements(hasher, block, b, |a|) == Map(b, f);
    NatTotalOrder();
    SortCanonical<nat>(Map(a, f), Map(b, f), NatLeq);
  }

  /** Value first, then index: the order of a sort on pairs. */
  predicate PairLeq(a: (nat, nat), b: (nat, nat)) {
    a.0 < b.0 || (a.0 == b.0 && a.1 <= b.1)
  }

  lemma PairTotalOrder()
    ensures TotalOrder(PairLeq)
  {
  }

  /** The non-empty wallet scripts with their positions, mapped into a filter's range. */
  function MappedPairs(hasher: KeyedHash, block: BlockHash, range: u64, wallet: seq<Script>): (r: seq<(nat, nat)>)
    ensures forall p | p in r ::
      p.1 < |wallet| && wallet[p.1] != [] && p.0 == MapToRange(hasher(block, wallet[p.1]), range)
    ensures forall i | 0 <= i < |wallet| ::
      wallet[i] != [] ==> (MapToRange(hasher(block, wallet[i]), range), i) in r
    ensures forall i, j :: 0 <= i < j < |r| ==> r[i].1 < r[j].1
  {
    if wallet == [] then []
    else
      var last := |wallet| - 1;
      var head := MappedPairs(hasher, block, range, wallet[..last]);
      if wallet[last] == [] then head
      else head + [(MapToRange(hasher(block, wallet[last]), range), last)]
  }

  method MapWalletScripts(hasher: KeyedHash, block: BlockHash, range: u64, wallet: seq<Script>)
    returns (mapped: seq<(nat, nat)>)
    ensures mapped == Sort(MappedPairs(hasher, block, range, wallet), PairLeq)
  {
    hide Sort;
    mapped := [];
    for i := 0 to |wallet|
      invariant mapped == MappedPairs(hasher, block, range, wallet[..i])
    {
      assert wallet[..i + 1][..i] == wallet[..i];
      if wallet[i] != [] {
        mapped := mapped + [(MapToRange(hasher(block, wallet[i]), range), i)];
      }
    }
    assert wallet[..|wallet|] == wallet;
    mapped := Sort(mapped, PairLeq);
  }

  /** Indices of the pairs whose value occurs among `values`. */
  function Hits(values: seq<nat>, mapped: seq<(nat, nat)>): (r: seq<nat>) {
    Map(Filter(mapped, (p: (nat, nat)) => p.0 in values), (p: (nat, nat)) => p.1)
  }

  /** A single cursor over the sorted values serves every sorted wallet value. */
  method MatchMapped(values: seq<nat>, mapped: seq<(nat, nat)>) returns (matches: seq<nat>)
    requires Sorted(values, NatLeq) && Sorted(mapped, PairLeq)
    ensures matches == Sort(Hits(values, mapped), NatLeq)
  {
    hide Sort;
    matches := [];
    var cursor := 0;
    for i := 0 to |mapped|
      invariant 0 <= cursor <= |values|
      invariant forall k, j :: 0 <= k < cursor && i <= j < |mapped| ==> values[k] < mapped[j].0
      invariant matches == Hits(values, mapped[..i])
    {
      var (value, index) := mapped[i];
      while cursor < |values| && values[cursor] < value
        invariant 0 <= cursor <= |values|
        invariant forall k :: 0 <= k < cursor ==> values[k] < value
      {
        cursor := cursor + 1;
      }
      forall k, j | 0 <= k < cursor && i <= j < |mapped|
        ensures values[k] < mapped[j].0
      {
        assert i < j ==> PairLeq(mapped[i], mapped[j]);
      }
      CursorFinds(values, cursor, value);
      HitsStep(values, mapped[..i], mapped[i]);
      assert mapped[..i + 1] == mapped[..i] + [mapped[i]];
      if cursor < |values| && values[cursor] == value {
        matches := matches + [index];
      }
    }
    assert mapped[..|mapped|] == mapped;
    matches := Sort(matches, NatLeq);
  }

  lemma CursorFinds(values: seq<nat>, cursor: nat, value: nat)
    requires Sorted(values, NatLeq) && cursor <= |values|
    requires forall k :: 0 <= k < cursor ==> values[k] < value
    requires cursor < |values| ==> value <= values[cursor]
    ensures value in values <==> cursor < |values| && values[cursor] == value
  {
    if value in values {
      var k :| 0 <= k < |values| && values[k] == value;
      assert cursor < k ==> NatLeq(values[cursor], values[k]);
    }
  }

  lemma HitsStep(values: seq<nat>, head: seq<(nat, nat)>, p: (nat, nat))
    ensures Hits(values, head + [p]) == Hits(values, head) + (if p.0 in values then [p.1] else [])
  {
    var keep := (q: (nat, nat)) => q.0 in values;
    FilterAppend(head, [p], keep);
    assert [p][1..] == [];
    assert Filter([p], keep) == if p.0 in values then [p] else [];
  }

  /** What a wallet learns about one block: the positions of its matching scripts. */
  function Matches(hasher: KeyedHash, block: BlockHash, values: seq<nat>, wallet: seq<Script>): (r: seq<nat>)
    requires |values| * M < U64_LIMIT
  {
    Sort(Hits(values, Sort(MappedPairs(hasher, block, |values| * M, wallet), PairLeq)), NatLeq)
  }

  method MatchScripts(hasher: KeyedHash, block: BlockHash, values: seq<nat>, wallet: seq<Script>)
    returns (matches: seq<nat>)
    requires EncodableValues(values)
    ensures matches == Matches(hasher, block, values, wallet)
  {
    var mapped := MapWalletScripts(hasher, block, |values| * M, wallet);
    PairTotalOrder();
    SortSorted(MappedPairs(hasher, block, |values| * M, wallet), PairLeq);
    SortedFromAscending(0, values);
    matches := MatchMapped(values, mapped);
  }

  /**
   The result is exactly the positions of the non-empty scripts that map into the decoded set,
   strictly ascending, even when several scripts share a value.
   */
  lemma MatchesExact(hasher: KeyedHash, block: BlockHash, values: seq<nat>, wallet: seq<Script>)
    requires |values| * M < U64_LIMIT
    ensures var r := Matches(hasher, block, values, wallet);
      && (forall i :: i in r <==>
            0 <= i < |wallet| && wallet[i] != [] && MapToRange(hasher(block, wallet[i]), |values| * M) in values)
      && (forall a, b :: 0 <= a < b < |r| ==> r[a] < r[b])
  {
    hide Sort, Filter, Hits;
    var pairs := MappedPairs(hasher, block, |values| * M, wallet);
    var sorted := Sort(pairs, PairLeq);
    var hits, r := Hits(values, sorted), Matches(hasher, block, values, wallet);
    SameElements(pairs, sorted);
    SameElements(hits, r);
    HitsExact(values, sorted);
    HitsDistinct(values, pairs, sorted);
    DistinctPermutation(Hits(values, pairs), hits);
    NatTotalOrder();
    SortSorted(hits, NatLeq);
    SortedDistinct(hits, r);
    forall i
      ensures (i in r
        <==> 0 <= i < |wallet| && wallet[i] != [] && MapToRange(hasher(block, wallet[i]), |values| * M) in values)
    {
      if 0 <= i < |wallet| && wallet[i] != [] {
        assert (MapToRange(hasher(block, wallet[i]), |values| * M), i) in sorted;
      }
    }
  }

  /** Hits are the positions of the pairs whose value is in the set. */
  lemma HitsExact(values: seq<nat>, sorted: seq<(nat, nat)>)
    ensures forall p | p in sorted && p.0 in values :: p.1 in Hits(values, sorted)
    ensures forall i | i in Hits(values, sorted) :: exists p :: p in sorted && p.0 in values && p.1 == i
  {
    hide Filter;
    var keep := (p: (nat, nat)) => p.0 in values;
    var hits := Hits(values, sorted);
    assert hits == Map(Filter(sorted, keep), (p: (nat, nat)) => p.1);
    forall p | p in sorted && p.0 in values
      ensures p.1 in hits
    {
      assert p in Filter(sorted, keep);
      var k :| 0 <= k < |hits| && Filter(sorted, keep)[k] == p;
      assert hits[k] == p.1;
    }
    forall i | i in hits
      ensures exists p :: p in sorted && p.0 in values && p.1 == i
    {
      var k :| 0 <= k < |hits| && hits[k] == i;
      assert Filter(sorted, keep)[k] in sorted;
    }
  }

  /** Positions are distinct before sorting, so they are distinct after it. */
  lemma HitsDistinct(values: seq<nat>, pairs: seq<(nat, nat)>, sorted: seq<(nat, nat)>)
    requires multiset(pairs) == multiset(sorted)
    requires forall i, j :: 0 <= i < j < |pairs| ==> pairs[i].1 < pairs[j].1
    ensures multiset(Hits(values, pairs)) == multiset(Hits(values, sorted))
    ensures Distinct(Hits(values, pairs))
  {
    var keep := (p: (nat, nat)) => p.0 in values;
    var index := (p: (nat, nat)) => p.1;
    FilterMultiset(pairs, sorted, keep);
    MapMultiset(Filter(pairs, keep), Filter(sorted, keep), index);
    FilterSortedBy(pairs, keep);
  }

  lemma {:induction false} FilterSortedBy(pairs: seq<(nat, nat)>, keep: ((nat, nat)) -> bool)
    requires forall i, j :: 0 <= i < j < |pairs| ==> pairs[i].1 < pairs[j].1
    ensures forall i, j :: 0 <= i < j < |Filter(pairs, keep)| ==> Filter(pairs, keep)[i].1 < Filter(pairs, keep)[j].1
  {
    if pairs != [] {
      FilterSortedBy(pairs[1..], keep);
      forall p | p in Filter(pairs[1..], keep)
        ensures pairs[0].1 < p.1
      {
        var k :| 0 <= k < |pairs[1..]| && pairs[1..][k] == p;
        assert pairs[k + 1] == p;
      }
    }
  }

  lemma SortedDistinct(hits: seq<nat>, r: seq<nat>)
    requires multiset(hits) == multiset(r) && Distinct(hits) && Sorted(r, NatLeq)
    ensures forall a, b :: 0 <= a < b < |r| ==> r[a] < r[b]
  {
    DistinctPermutation(hits, r);
    forall a, b | 0 <= a < b < |r|
      ensures r[a] < r[b]
    {
      assert NatLeq(r[a], r[b]);
    }
  }

  /**
   End to end, no eligible script of a block is missed: building, validating, mapping and
   matching return its position for every hash function and every wallet.
   */
  lemma NoFalseNegatives(hasher: KeyedHash, block: BlockHash, scripts: seq<Script>, limits: FilterLimits,
                         wallet: seq<Script>, i: nat)
    requires |Elements(scripts)| * M < U64_LIMIT
    requires i < |wallet| && wallet[i] in scripts && IsFilterElement(wallet[i])
    ensures EncodableValues(BuiltValues(hasher, block, scripts))
    ensures var values := BuiltValues(hasher, block, scripts);
      WithinLimits(EncodeFilter(values), values, limits) ==>
        && Validate(EncodeFilter(values), limits) == Ok(values)
        && i in Matches(hasher, block, values, wallet)
  {
    hide Sort, Validate, EncodeFilter, EncodableValues, Matches;
    BuiltEncodable(hasher, block, scripts);
    var values := BuiltValues(hasher, block, scripts);
    if WithinLimits(EncodeFilter(values), values, limits) {
      ValidateOfEncode(values, limits);
      BuiltContains(hasher, block, scripts, wallet[i]);
      MatchesExact(hasher, block, values, wallet);
    }
  }

  lemma BuiltContains(hasher: KeyedHash, block: BlockHash, scripts: seq<Script>, script: Script)
    requires |Elements(scripts)| * M < U64_LIMIT && script in scripts && IsFilterElement(script)
    ensures |BuiltValues(hasher, block, scripts)| * M < U64_LIMIT
    ensures MapToRange(hasher(block, script), |BuiltValues(hasher, block, scripts)| * M)
         in BuiltValues(hasher, block, scripts)
  {
    hide Sort;
    var elements := Elements(scripts);
    var mapped := MappedElements(hasher, block, elements, |elements|);
    var k :| 0 <= k < |elements| && elements[k] == script;
    assert mapped[k] == MapToRange(hasher(block, script), |elements| * M);
    assert mapped[k] in mapped;
    SameElements(mapped, BuiltValues(hasher, block, scripts));
  }

  /** The values of a built filter are strict exactly when no two elements of the block share a mapped value. */
  lemma BuiltStrictExactly(hasher: KeyedHash, block: BlockHash, scripts: seq<Script>)
    requires |Elements(scripts)| * M < U64_LIMIT
    ensures var values, elements := BuiltValues(hasher, block, scripts), Elements(scripts);
      StrictlyAscending(values) <==> Distinct(MappedElements(hasher, block, elements, |elements|))
  {
    var elements := Elements(scripts);
    var mapped := MappedElements(hasher, block, elements, |elements|);
    var values := BuiltValues(hasher, block, scripts);
    NatTotalOrder();
    SortSorted(mapped, NatLeq);
    if Distinct(mapped) {
      SortedDistinct(mapped, values);
    }
    if StrictlyAscending(values) {
      assert Distinct(values);
      DistinctPermutation(values, mapped);
    }
  }

  /** So a built filter stores a zero delta after its first element exactly when two elements collide. */
  lemma BuiltRepeatsExactly(hasher: KeyedHash, block: BlockHash, scripts: seq<Script>, limits: FilterLimits)
    requires |Elements(scripts)| * M < U64_LIMIT && EncodableValues(BuiltValues(hasher, block, scripts))
    requires WithinLimits(EncodeFilter(BuiltValues(hasher, block, scripts)), BuiltValues(hasher, block, scripts), limits)
    ensures var elements := Elements(scripts);
      var repeats := RepeatsValue(EncodeFilter(BuiltValues(hasher, block, scripts)));
      repeats <==> !Distinct(MappedElements(hasher, block, elements, |elements|))
  {
    hide Validate, EncodeFilter, BuiltValues, RepeatsValue, EncodableValues, WithinLimits, MappedElements, Elements;
    var values := BuiltValues(hasher, block, scripts);
    ValidateOfEncode(values, limits);
    StrictExactly(EncodeFilter(values), limits, values);
    BuiltStrictExactly(hasher, block, scripts);
  }

  /** A filter with a repeated value is accepted, so decoded values need not be strictly ascending. */
  lemma RepeatedValueAccepted()
    ensures EncodableValues([7, 7])
    ensures Validate(EncodeFilter([7, 7]), FilterLimits(2_097_152, 1_000_000)) == Ok([7, 7]) && !StrictlyAscending([7, 7])
  {
    hide Validate, EncodeFrom, DecodeFrom;
    assert [7, 7][1..] == [7] && [7][1..] == [];
    assert Ascending(7, [7]);
    EncodedLength(0, [7, 7], 2 * M);
    ValidateOfEncode([7, 7], FilterLimits(2_097_152, 1_000_000));
  }
}
