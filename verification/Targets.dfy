/** Which wallet scripts a generation's published filters match. */
module Targets {
  import opened Results
  import opened Chain
  import opened Ledger
  import opened History
  import opened GolombRice
  import opened FilterValidation
  import opened Bytes
  import Matching
  import Bloom
  import SyncExact
  import WalletSync

  const MAX_FILTER_BYTES: nat := 16 * 1024 * 1024

  datatype FilterFormat = BloomV1 | Bip158V1

  /** The generation's filter format, the hash functions of both formats, and the decoder's limits. */
  datatype Matcher = Matcher(format: FilterFormat, hasher: KeyedHash, position: Bloom.PositionHash, limits: FilterLimits)

  /** One block's entry of the filter file. */
  datatype PublishedFilter = PublishedFilter(height: nat, hash: BlockHash, hashes: nat, bytes: seq<byte>)

  /** The header checks: consecutive heights from `start`, the wallet's own hashes, the format's hash count, a size in bounds. */
  predicate Headed(format: FilterFormat, f: PublishedFilter, expected: nat, accepted: map<nat, BlockHash>) {
    && f.height == expected && WalletSync.At(accepted, f.height) == Some(f.hash)
    && (if format == Bip158V1 then f.hashes == 0 else 1 <= f.hashes <= 64)
    && 1 <= |f.bytes| <= MAX_FILTER_BYTES
  }

  /** The wallet scripts one filter matches, or none if the filter is malformed. */
  function MatchedBy(k: Matcher, f: PublishedFilter, wallet: seq<Script>): (r: Option<set<Script>>)
    requires f.bytes != []
  {
    if k.format == BloomV1 then Some(set s | s in wallet && Bloom.Contains(k.position, f.hash, f.hashes, f.bytes, s))
    else if wallet == [] then Some({})
    else
      var values := Validate(f.bytes, k.limits);
      if values.Err? then None
      else
        EncodeOfValidate(f.bytes, k.limits, values.value);
        Some(set i | i in Matching.Matches(k.hasher, f.hash, values.value, wallet) && 0 <= i < |wallet| :: wallet[i])
  }

  function Scanned(k: Matcher, filters: seq<PublishedFilter>, wallet: seq<Script>, start: nat, checkpoint: nat,
                   accepted: map<nat, BlockHash>): (r: Option<set<Script>>)
  {
    if filters == [] then Some({})
    else
      var n := |filters| - 1;
      var head :- Scanned(k, filters[..n], wallet, start, checkpoint, accepted);
      if !Headed(k.format, filters[n], start + n, accepted) then None
      else if filters[n].height <= checkpoint then Some(head)
      else
        var matched :- MatchedBy(k, filters[n], wallet);
        Some(head + matched)
  }

  /** Every filter of the range, checked and matched above the checkpoint. */
  function TargetsOf(k: Matcher, m: Manifest, filters: seq<PublishedFilter>, wallet: seq<Script>, checkpoint: nat,
                     accepted: map<nat, BlockHash>): (r: Option<set<Script>>)
  {
    var found :- Scanned(k, filters, wallet, m.start, checkpoint, accepted);
    if m.start + |filters| != m.end + 1 then None else Some(found)
  }

  // ---- which filter files are readable, and what they match ----

  /** A header the wallet takes: its height in turn, its own hash, the format's hash count, one byte to sixteen megabytes. */
  ghost predicate GoodHeader(format: FilterFormat, f: PublishedFilter, height: nat, accepted: map<nat, BlockHash>) {
    && f.height == height && height in accepted && accepted[height] == f.hash
    && (format == Bip158V1 ==> f.hashes == 0) && (format == BloomV1 ==> 1 <= f.hashes <= 64)
    && 1 <= |f.bytes| <= 16_777_216
  }

  /** The file covers the generation block by block, and every filter that is matched decodes. */
  ghost predicate Readable(k: Matcher, start: nat, next: nat, filters: seq<PublishedFilter>, wallet: seq<Script>, checkpoint: nat,
                           accepted: map<nat, BlockHash>)
  {
    && start + |filters| == next
    && (forall i :: 0 <= i < |filters| ==> GoodHeader(k.format, filters[i], start + i, accepted))
    && (k.format == Bip158V1 && wallet != [] ==>
          forall i :: 0 <= i < |filters| && filters[i].height > checkpoint ==> Validate(filters[i].bytes, k.limits).Ok?)
  }

  /** The script is in the wallet, and its bits, or its mapped value, are in the filter. */
  ghost predicate HitBy(k: Matcher, f: PublishedFilter, wallet: seq<Script>, script: Script)
    requires f.bytes != []
  {
    && script in wallet
    && match k.format
       case BloomV1 => Bloom.Contains(k.position, f.hash, f.hashes, f.bytes, script)
       case Bip158V1 =>
         var values := Validate(f.bytes, k.limits);
         && values.Ok? && |values.value| * M < U64_LIMIT && script != []
         && Matching.MapToRange(k.hasher(f.hash, script), |values.value| * M) in values.value
  }

  lemma MatchedExactly(k: Matcher, f: PublishedFilter, wallet: seq<Script>)
    requires f.bytes != []
    ensures MatchedBy(k, f, wallet).Some? <==> k.format == BloomV1 || wallet == [] || Validate(f.bytes, k.limits).Ok?
    ensures MatchedBy(k, f, wallet).Some? ==> forall s :: s in MatchedBy(k, f, wallet).value <==> HitBy(k, f, wallet, s)
  {
    hide Validate, Matching.Matches, Bloom.Contains;
    if k.format == Bip158V1 && wallet != [] && Validate(f.bytes, k.limits).Ok? {
      var values := Validate(f.bytes, k.limits).value;
      EncodeOfValidate(f.bytes, k.limits, values);
      Matching.MatchesExact(k.hasher, f.hash, values, wallet);
      var matched := MatchedBy(k, f, wallet).value;
      forall s
        ensures s in matched <==> HitBy(k, f, wallet, s)
      {
        if HitBy(k, f, wallet, s) {
          var i :| 0 <= i < |wallet| && wallet[i] == s;
          assert i in Matching.Matches(k.hasher, f.hash, values, wallet);
        }
      }
    }
  }

  ghost predicate Targeted(k: Matcher, filters: seq<PublishedFilter>, wallet: seq<Script>, checkpoint: nat, script: Script) {
    exists i :: 0 <= i < |filters| && filters[i].height > checkpoint && filters[i].bytes != [] && HitBy(k, filters[i], wallet, script)
  }

  lemma {:induction false} ScannedExactly(k: Matcher, filters: seq<PublishedFilter>, wallet: seq<Script>, start: nat, checkpoint: nat,
                                          accepted: map<nat, BlockHash>)
    ensures Scanned(k, filters, wallet, start, checkpoint, accepted).Some?
      <==> Readable(k, start, start + |filters|, filters, wallet, checkpoint, accepted)
    ensures Scanned(k, filters, wallet, start, checkpoint, accepted).Some? ==>
      forall s :: s in Scanned(k, filters, wallet, start, checkpoint, accepted).value <==> Targeted(k, filters, wallet, checkpoint, s)
  {
    hide MatchedBy, HitBy, Validate;
    if filters != [] {
      var n := |filters| - 1;
      ScannedExactly(k, filters[..n], wallet, start, checkpoint, accepted);
      assert Headed(k.format, filters[n], start + n, accepted) <==> GoodHeader(k.format, filters[n], start + n, accepted);
      if filters[n].bytes != [] {
        MatchedExactly(k, filters[n], wallet);
      }
      ReadableMore(k, start, filters, wallet, checkpoint, accepted);
      forall s
        ensures (Targeted(k, filters, wallet, checkpoint, s)
          <==> Targeted(k, filters[..n], wallet, checkpoint, s)
               || (filters[n].height > checkpoint && filters[n].bytes != [] && HitBy(k, filters[n], wallet, s)))
      {
        TargetedMore(k, filters, wallet, checkpoint, s);
      }
    }
  }

  lemma ReadableMore(k: Matcher, start: nat, filters: seq<PublishedFilter>, wallet: seq<Script>, checkpoint: nat, accepted: map<nat, BlockHash>)
    requires filters != []
    ensures var n := |filters| - 1;
      Readable(k, start, start + |filters|, filters, wallet, checkpoint, accepted)
      <==> (&& Readable(k, start, start + n, filters[..n], wallet, checkpoint, accepted)
            && GoodHeader(k.format, filters[n], start + n, accepted)
            && (k.format == Bip158V1 && wallet != [] && filters[n].height > checkpoint ==> Validate(filters[n].bytes, k.limits).Ok?))
  {
    hide Validate, GoodHeader;
    var n := |filters| - 1;
    assert forall i :: 0 <= i < n ==> filters[..n][i] == filters[i];
  }

  lemma TargetedMore(k: Matcher, filters: seq<PublishedFilter>, wallet: seq<Script>, checkpoint: nat, s: Script)
    requires filters != []
    ensures var n := |filters| - 1;
      Targeted(k, filters, wallet, checkpoint, s)
      <==> (Targeted(k, filters[..n], wallet, checkpoint, s)
            || (filters[n].height > checkpoint && filters[n].bytes != [] && HitBy(k, filters[n], wallet, s)))
  {
    hide HitBy;
    var n := |filters| - 1;
    if Targeted(k, filters[..n], wallet, checkpoint, s) {
      var i :| 0 <= i < n && filters[..n][i].height > checkpoint && filters[..n][i].bytes != [] && HitBy(k, filters[..n][i], wallet, s);
      assert filters[i] == filters[..n][i];
    }
    if Targeted(k, filters, wallet, checkpoint, s) {
      var i :| 0 <= i < |filters| && filters[i].height > checkpoint && filters[i].bytes != [] && HitBy(k, filters[i], wallet, s);
      if i < n {
        assert filters[..n][i] == filters[i];
      }
    }
  }

  /** Reading succeeds exactly for readable files, and yields exactly the wallet scripts some filter above the checkpoint hits. */
  lemma TargetsExactly(k: Matcher, m: Manifest, filters: seq<PublishedFilter>, wallet: seq<Script>, checkpoint: nat, accepted: map<nat, BlockHash>)
    ensures TargetsOf(k, m, filters, wallet, checkpoint, accepted).Some? <==> Readable(k, m.start, m.end + 1, filters, wallet, checkpoint, accepted)
    ensures TargetsOf(k, m, filters, wallet, checkpoint, accepted).Some? ==>
      forall s :: s in TargetsOf(k, m, filters, wallet, checkpoint, accepted).value <==> Targeted(k, filters, wallet, checkpoint, s)
  {
    hide Scanned, Targeted;
    ScannedExactly(k, filters, wallet, m.start, checkpoint, accepted);
  }

  /** Every honest filter file is readable. */
  lemma HonestFiltersRead(k: Matcher, m: Manifest, filters: seq<PublishedFilter>, elements: seq<seq<Script>>, wallet: seq<Script>,
                          checkpoint: nat, accepted: map<nat, BlockHash>)
    requires m.start + |filters| == m.end + 1 && |elements| == |filters|
    requires forall i :: 0 <= i < |filters| ==>
      && GoodHeader(k.format, filters[i], m.start + i, accepted) && BuiltFrom(k, filters[i], elements[i])
    ensures TargetsOf(k, m, filters, wallet, checkpoint, accepted).Some?
  {
    hide Validate, EncodeFilter, EncodableValues, Matching.BuiltValues, GoodHeader, Bloom.Filters;
    TargetsExactly(k, m, filters, wallet, checkpoint, accepted);
    forall i | 0 <= i < |filters| && k.format == Bip158V1
      ensures Validate(filters[i].bytes, k.limits).Ok?
    {
      assert BuiltFrom(k, filters[i], elements[i]);
      ValidateOfEncode(Matching.BuiltValues(k.hasher, filters[i].hash, elements[i]), k.limits);
    }
  }

  method ReadTargets(k: Matcher, m: Manifest, filters: seq<PublishedFilter>, wallet: seq<Script>, checkpoint: nat,
                     accepted: map<nat, BlockHash>) returns (r: Option<set<Script>>)
    ensures r == TargetsOf(k, m, filters, wallet, checkpoint, accepted)
    ensures r.Some? <==> Readable(k, m.start, m.end + 1, filters, wallet, checkpoint, accepted)
    ensures r.Some? ==> forall s :: s in r.value <==> Targeted(k, filters, wallet, checkpoint, s)
  {
    hide Validate, MatchedBy, Readable, Targeted;
    TargetsExactly(k, m, filters, wallet, checkpoint, accepted);
    var targets: set<Script> := {};
    var expected := m.start;
    for i := 0 to |filters|
      invariant expected == m.start + i
      invariant Scanned(k, filters[..i], wallet, m.start, checkpoint, accepted) == Some(targets)
    {
      assert filters[..i + 1][..i] == filters[..i];
      var f := filters[i];
      if !Headed(k.format, f, expected, accepted) {
        ScanFails(k, filters, wallet, m.start, checkpoint, accepted, i + 1);
        return None;
      }
      expected := expected + 1;
      if f.height > checkpoint {
        var matched := MatchedBy(k, f, wallet);
        if matched.None? {
          ScanFails(k, filters, wallet, m.start, checkpoint, accepted, i + 1);
          return None;
        }
        targets := targets + matched.value;
      }
    }
    assert filters[..|filters|] == filters;
    if expected != m.end + 1 {
      return None;
    }
    return Some(targets);
  }

  lemma {:induction false} ScanFails(m: Matcher, filters: seq<PublishedFilter>, wallet: seq<Script>, start: nat, checkpoint: nat,
                                     accepted: map<nat, BlockHash>, n: nat)
    requires n <= |filters| && Scanned(m, filters[..n], wallet, start, checkpoint, accepted).None?
    ensures Scanned(m, filters, wallet, start, checkpoint, accepted).None?
    decreases |filters|
  {
    hide MatchedBy;
    if n < |filters| {
      var k := |filters| - 1;
      assert filters[..k][..n] == filters[..n];
      ScanFails(m, filters[..k], wallet, start, checkpoint, accepted, n);
    } else {
      assert filters[..n] == filters;
    }
  }

  /** The filter is the one built from the block's scripts, in its format and within the decoder's limits. */
  ghost predicate BuiltFrom(m: Matcher, f: PublishedFilter, elements: seq<Script>) {
    if m.format == BloomV1 then Bloom.Filters(m.position, f.hash, elements, f.hashes, f.bytes)
    else
      && |Matching.Elements(elements)| * M < U64_LIMIT
      && EncodableValues(Matching.BuiltValues(m.hasher, f.hash, elements))
      && f.bytes == EncodeFilter(Matching.BuiltValues(m.hasher, f.hash, elements))
      && WithinLimits(f.bytes, Matching.BuiltValues(m.hasher, f.hash, elements), m.limits)
  }

  lemma MatchesElements(m: Matcher, f: PublishedFilter, elements: seq<Script>, wallet: seq<Script>, i: nat)
    requires f.bytes != [] && BuiltFrom(m, f, elements)
    requires i < |wallet| && wallet[i] in elements && IsFilterElement(wallet[i])
    ensures MatchedBy(m, f, wallet).Some? && wallet[i] in MatchedBy(m, f, wallet).value
  {
    hide Validate, EncodeFilter, EncodableValues, Matching.Matches, Matching.BuiltValues, Bloom.Contains, Bloom.Filters;
    if m.format == BloomV1 {
      Bloom.BloomFindsAll(m.position, f.hash, elements, f.hashes, f.bytes, wallet[i]);
    } else {
      Matching.NoFalseNegatives(m.hasher, f.hash, elements, m.limits, wallet, i);
    }
  }

  lemma {:induction false} ScanKeeps(m: Matcher, filters: seq<PublishedFilter>, wallet: seq<Script>, start: nat, checkpoint: nat,
                                     accepted: map<nat, BlockHash>, k: nat)
    requires k < |filters| && Scanned(m, filters, wallet, start, checkpoint, accepted).Some?
    ensures filters[k].height == start + k && filters[k].bytes != []
    ensures filters[k].height > checkpoint ==>
      && MatchedBy(m, filters[k], wallet).Some?
      && MatchedBy(m, filters[k], wallet).value <= Scanned(m, filters, wallet, start, checkpoint, accepted).value
    decreases |filters|
  {
    hide MatchedBy;
    var n := |filters| - 1;
    if k < n {
      ScanKeeps(m, filters[..n], wallet, start, checkpoint, accepted, k);
    }
  }

  lemma {:induction false} ScanInWallet(m: Matcher, filters: seq<PublishedFilter>, wallet: seq<Script>, start: nat, checkpoint: nat,
                                        accepted: map<nat, BlockHash>)
    requires Scanned(m, filters, wallet, start, checkpoint, accepted).Some?
    ensures forall s | s in Scanned(m, filters, wallet, start, checkpoint, accepted).value :: s in wallet
  {
    hide Validate, Matching.Matches;
    if filters != [] {
      ScanInWallet(m, filters[..|filters| - 1], wallet, start, checkpoint, accepted);
    }
  }

  /** Each block's element set holds every script with an event in that block. */
  ghost predicate Covers(histories: seq<History>, m: Manifest, elements: seq<seq<Script>>) {
    forall k, e | 0 <= k < |histories| && e in histories[k].events && m.start <= e.height < m.start + |elements| ::
      histories[k].script in elements[e.height - m.start] && IsFilterElement(histories[k].script)
  }

  /**
   Public filters lose nothing: when each block's filter was built from a set that holds every script
   with an event in the block, the targets read from the filters include every wallet script with an
   event above the checkpoint.
   */
  lemma FiltersFindTargets(k: Matcher, histories: seq<History>, m: Manifest, filters: seq<PublishedFilter>,
                           elements: seq<seq<Script>>, wallet: seq<Script>, checkpoint: nat, accepted: map<nat, BlockHash>)
    requires ValidHistories(histories, m.start, m.end) && |elements| == |filters| && Covers(histories, m, elements)
    requires forall i :: 0 <= i < |filters| ==> BuiltFrom(k, filters[i], elements[i])
    requires TargetsOf(k, m, filters, wallet, checkpoint, accepted).Some?
    ensures SyncExact.NoFalseNegatives(histories, (set s | s in wallet), TargetsOf(k, m, filters, wallet, checkpoint, accepted).value, checkpoint)
  {
    hide MatchedBy, BuiltFrom, Scanned;
    var targets := TargetsOf(k, m, filters, wallet, checkpoint, accepted).value;
    ScanInWallet(k, filters, wallet, m.start, checkpoint, accepted);
    forall j | 0 <= j < |histories| && histories[j].script in wallet && histories[j].script !in targets
      ensures SyncExact.Above(histories[j].events, checkpoint) == []
    {
      forall e | e in histories[j].events
        ensures e.height <= checkpoint
      {
        if e.height > checkpoint {
          var at := e.height - m.start;
          var i :| 0 <= i < |wallet| && wallet[i] == histories[j].script;
          ScanKeeps(k, filters, wallet, m.start, checkpoint, accepted, at);
          MatchesElements(k, filters[at], elements[at], wallet, i);
        }
      }
      FilterNone(histories[j].events, checkpoint);
    }
  }
}
