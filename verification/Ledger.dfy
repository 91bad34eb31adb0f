/** The wallet's UTXO ledger: applying history events, conservation, and replay after a rewind. */
module Ledger {
  import opened Bytes
  import opened Results
  import opened Chain
  import opened Sorting

  type Txid = BlockHash

  const NO_SPENDER: Txid := Zeros(HASH_BYTES)

  datatype Outpoint = Outpoint(txid: Txid, n: nat)

  /** Kind 1 receives, 3 receives from a coinbase, 2 spends; any other kind is an error. */
  datatype Event = Event(kind: nat, height: nat, index: nat, outpoint: Outpoint, value: nat, spender: Txid)

  /** An event of one script's history. */
  datatype Item = Item(script: Script, event: Event)

  datatype Coin = Coin(script: Script, value: nat, height: nat, coinbase: bool)
  type Utxos = map<Outpoint, Coin>

  datatype Identity = Identity(kind: nat, outpoint: Outpoint, spender: Txid)

  /** The ledger while events are applied: coins and the event identities seen. */
  datatype Progress = Progress(utxos: Utxos, identities: set<Identity>)

  /** The last sort key compares script and packed event as strings; any injective ranking will do. */
  type Rank = Item -> nat

  ghost predicate Injective(rank: Rank) {
    forall a, b :: rank(a) == rank(b) ==> a == b
  }

  /** Height, then transaction index, receives before spends, then the pair itself. */
  predicate Before(rank: Rank, a: Item, b: Item) {
    var x, y := a.event, b.event;
    || x.height < y.height
    || (x.height == y.height && x.index < y.index)
    || (x.height == y.height && x.index == y.index && x.kind != 2 && y.kind == 2)
    || (x.height == y.height && x.index == y.index && (x.kind == 2 <==> y.kind == 2) && rank(a) <= rank(b))
  }

  function Order(rank: Rank): (leq: (Item, Item) -> bool) {
    (a, b) => Before(rank, a, b)
  }

  lemma OrderTotal(rank: Rank)
    requires Injective(rank)
    ensures TotalOrder(Order(rank))
  {
    var leq := Order(rank);
    assert forall a, b :: leq(a, b) == Before(rank, a, b);
    assert forall a, b, c :: Before(rank, a, b) && Before(rank, b, c) ==> Before(rank, a, c);
  }

  predicate Receives(e: Event) {
    e.kind == 1 || e.kind == 3
  }

  function IdentityOf(e: Event): (i: Identity) {
    Identity(if Receives(e) then 1 else e.kind, e.outpoint, e.spender)
  }

  /** An unspent receive adds its coin; a spend must find a coin of the same script and value. */
  function ApplyOne(p: Progress, item: Item): (r: Option<Progress>) {
    var e := item.event;
    var seen := p.identities + {IdentityOf(e)};
    if IdentityOf(e) in p.identities then None
    else if Receives(e) then
      if e.spender != NO_SPENDER || e.outpoint in p.utxos then None
      else Some(Progress(p.utxos[e.outpoint := Coin(item.script, e.value, e.height, e.kind == 3)], seen))
    else if e.kind == 2 then
      if e.spender == NO_SPENDER || e.outpoint !in p.utxos
         || p.utxos[e.outpoint].script != item.script || p.utxos[e.outpoint].value != e.value then None
      else Some(Progress(p.utxos - {e.outpoint}, seen))
    else None
  }

  function ApplyAll(p: Progress, items: seq<Item>): (r: Option<Progress>) {
    if items == [] then Some(p)
    else
      var before :- ApplyAll(p, items[..|items| - 1]);
      ApplyOne(before, items[|items| - 1])
  }

  /** The ledger after `events` on top of `base`, in chain order. */
  function ApplyEvents(rank: Rank, base: Utxos, events: seq<Item>): (r: Option<Utxos>) {
    var done :- ApplyAll(Progress(base, {}), Sort(events, Order(rank)));
    Some(done.utxos)
  }
  // ---- what a ledger holds, and when one exists ----

  /** Earlier blocks first, then earlier transactions, spends after everything else in a transaction. */
  ghost predicate Follows(rank: Rank, a: Item, b: Item) {
    var x, y := a.event, b.event;
    if x.height != y.height then x.height < y.height
    else if x.index != y.index then x.index < y.index
    else if x.kind == 2 && y.kind != 2 then false
    else if x.kind != 2 && y.kind == 2 then true
    else rank(a) <= rank(b)
  }

  ghost predicate InOrder(rank: Rank, s: seq<Item>) {
    forall i, j :: 0 <= i < j < |s| ==> Follows(rank, s[i], s[j])
  }

  /** The `n` first events leave the outpoint alone. */
  ghost predicate Untouched(s: seq<Item>, n: nat, o: Outpoint)
    requires n <= |s|
  {
    forall j :: 0 <= j < n ==> s[j].event.outpoint != o
  }

  /** Event `j` is the last of the `n` first ones on the outpoint. */
  ghost predicate LastOn(s: seq<Item>, n: nat, o: Outpoint, j: nat)
    requires n <= |s|
  {
    j < n && s[j].event.outpoint == o && forall k :: j < k < n ==> s[k].event.outpoint != o
  }

  /** The coin a receive makes: its own script, value and height, a coinbase coin for kind 3. */
  ghost predicate MadeBy(x: Item, c: Coin) {
    x.event.kind in {1, 3} && c.script == x.script && c.value == x.event.value && c.height == x.event.height && (c.coinbase <==> x.event.kind == 3)
  }

  /** After `n` events the outpoint holds the coin: the one last received there, or the base's, untouched. */
  ghost predicate CoinAt(base: Utxos, s: seq<Item>, n: nat, o: Outpoint, c: Coin)
    requires n <= |s|
  {
    (Untouched(s, n, o) && o in base && base[o] == c) || exists j: nat :: LastOn(s, n, o, j) && MadeBy(s[j], c)
  }

  ghost predicate HoldsCoin(base: Utxos, s: seq<Item>, n: nat, o: Outpoint)
    requires n <= |s|
  {
    exists c :: CoinAt(base, s, n, o, c)
  }

  /** Two events of one identity: receives or spends of an outpoint, with the same spender. */
  ghost predicate Twins(x: Event, y: Event) {
    x.outpoint == y.outpoint && x.spender == y.spender && ((x.kind in {1, 3} && y.kind in {1, 3}) || x.kind == y.kind)
  }

  /** Event `n` can follow the ones before it: a receive onto a free outpoint, or a spend of the very coin that is there. */
  ghost predicate Admissible(base: Utxos, s: seq<Item>, n: nat)
    requires n < |s|
  {
    var e := s[n].event;
    && (forall j :: 0 <= j < n ==> !Twins(s[j].event, e))
    && (e.kind in {1, 3} || e.kind == 2)
    && (e.kind in {1, 3} ==> e.spender == NO_SPENDER && !HoldsCoin(base, s, n, e.outpoint))
    && (e.kind == 2 ==>
          e.spender != NO_SPENDER && exists c :: CoinAt(base, s, n, e.outpoint, c) && c.script == s[n].script && c.value == e.value)
  }

  ghost predicate Replays(base: Utxos, s: seq<Item>) {
    forall n :: 0 <= n < |s| ==> Admissible(base, s, n)
  }

  ghost predicate HoldsExactly(base: Utxos, s: seq<Item>, n: nat, utxos: Utxos)
    requires n <= |s|
  {
    && (forall o :: o in utxos ==> CoinAt(base, s, n, o, utxos[o]))
    && forall o :: o !in utxos ==> !HoldsCoin(base, s, n, o)
  }

  lemma OneCoin(base: Utxos, s: seq<Item>, n: nat, o: Outpoint, c: Coin, d: Coin)
    requires n <= |s| && CoinAt(base, s, n, o, c) && CoinAt(base, s, n, o, d)
    ensures c == d
  {
  }

  lemma TouchedNow(s: seq<Item>, n: nat, o: Outpoint, j: nat)
    requires n < |s| && s[n].event.outpoint == o
    ensures !Untouched(s, n + 1, o) && (LastOn(s, n + 1, o, j) <==> j == n)
  {
  }

  lemma NotTouchedNow(s: seq<Item>, n: nat, o: Outpoint, j: nat)
    requires n < |s| && s[n].event.outpoint != o
    ensures (Untouched(s, n + 1, o) <==> Untouched(s, n, o)) && (LastOn(s, n + 1, o, j) <==> LastOn(s, n, o, j))
  {
  }

  /** How one more event on an outpoint decides what it holds. */
  lemma CoinStep(base: Utxos, s: seq<Item>, n: nat, o: Outpoint, c: Coin)
    requires n < |s|
    ensures CoinAt(base, s, n + 1, o, c) <==> if s[n].event.outpoint == o then MadeBy(s[n], c) else CoinAt(base, s, n, o, c)
  {
    hide Untouched, LastOn, MadeBy;
    var m := n + 1;
    if s[n].event.outpoint == o {
      forall j: nat
        ensures !Untouched(s, m, o) && (LastOn(s, m, o, j) <==> j == n)
      {
        TouchedNow(s, n, o, j);
      }
      TouchedNow(s, n, o, n);
      assert LastOn(s, n + 1, o, n);
    } else {
      forall j: nat
        ensures (Untouched(s, m, o) <==> Untouched(s, n, o)) && (LastOn(s, m, o, j) <==> LastOn(s, n, o, j))
      {
        NotTouchedNow(s, n, o, j);
      }
      NotTouchedNow(s, n, o, 0);
    }
  }

  lemma HoldsStep(base: Utxos, s: seq<Item>, n: nat, utxos: Utxos, after: Utxos)
    requires n < |s| && HoldsExactly(base, s, n, utxos)
    requires forall o | o != s[n].event.outpoint :: (o in after <==> o in utxos) && (o in after ==> after[o] == utxos[o])
    requires s[n].event.outpoint in after ==> MadeBy(s[n], after[s[n].event.outpoint])
    requires s[n].event.outpoint !in after ==> s[n].event.kind !in {1, 3}
    ensures HoldsExactly(base, s, n + 1, after)
  {
    hide CoinAt;
    forall o
      ensures o in after ==> CoinAt(base, s, n + 1, o, after[o])
      ensures o !in after ==> !HoldsCoin(base, s, n + 1, o)
    {
      if o in after {
        CoinStep(base, s, n, o, after[o]);
      } else {
        NoCoinStep(base, s, n, o);
      }
    }
  }

  lemma NoCoinStep(base: Utxos, s: seq<Item>, n: nat, o: Outpoint)
    requires n < |s| && if s[n].event.outpoint == o then s[n].event.kind !in {1, 3} else !HoldsCoin(base, s, n, o)
    ensures !HoldsCoin(base, s, n + 1, o)
  {
    hide CoinAt;
    var m := n + 1;
    if c :| CoinAt(base, s, m, o, c) {
      CoinStep(base, s, n, o, c);
    }
  }

  /** One event applies exactly when it is admissible. */
  lemma OneApplies(base: Utxos, s: seq<Item>, n: nat, p: Progress)
    requires n < |s| && HoldsExactly(base, s, n, p.utxos)
    requires p.identities == set j | 0 <= j < n :: IdentityOf(s[j].event)
    ensures ApplyOne(p, s[n]).Some? <==> Admissible(base, s, n)
    ensures ApplyOne(p, s[n]).Some? ==> HoldsExactly(base, s, n + 1, ApplyOne(p, s[n]).value.utxos)
  {
    hide CoinAt;
    var e := s[n].event;
    assert IdentityOf(e) in p.identities <==> exists j :: 0 <= j < n && Twins(s[j].event, e) by {
      TwinsByIdentity(s, n, p.identities);
    }
    if e.outpoint in p.utxos {
      forall c | CoinAt(base, s, n, e.outpoint, c)
        ensures c == p.utxos[e.outpoint]
      {
        OneCoin(base, s, n, e.outpoint, c, p.utxos[e.outpoint]);
      }
    }
    if ApplyOne(p, s[n]).Some? {
      HoldsStep(base, s, n, p.utxos, ApplyOne(p, s[n]).value.utxos);
    }
  }

  lemma TwinsByIdentity(s: seq<Item>, n: nat, identities: set<Identity>)
    requires n < |s| && identities == set j | 0 <= j < n :: IdentityOf(s[j].event)
    ensures IdentityOf(s[n].event) in identities <==> exists j :: 0 <= j < n && Twins(s[j].event, s[n].event)
  {
    forall j | 0 <= j < n
      ensures IdentityOf(s[j].event) == IdentityOf(s[n].event) <==> Twins(s[j].event, s[n].event)
    {
    }
  }

  lemma {:induction false} PrefixReplays(base: Utxos, s: seq<Item>, n: nat)
    requires n <= |s|
    ensures ApplyAll(Progress(base, {}), s[..n]).Some? <==> forall k :: 0 <= k < n ==> Admissible(base, s, k)
    ensures ApplyAll(Progress(base, {}), s[..n]).Some? ==>
      var p := ApplyAll(Progress(base, {}), s[..n]).value;
      HoldsExactly(base, s, n, p.utxos) && p.identities == set j | 0 <= j < n :: IdentityOf(s[j].event)
    decreases n
  {
    hide Admissible, HoldsExactly, ApplyOne;
    if n == 0 {
      NothingYet(base, s);
    } else {
      PrefixReplays(base, s, n - 1);
      assert s[..n][..n - 1] == s[..n - 1] && s[..n][n - 1] == s[n - 1];
      var before := ApplyAll(Progress(base, {}), s[..n - 1]);
      if before.Some? {
        OneApplies(base, s, n - 1, before.value);
        OneIdentifies(before.value, s[n - 1]);
      }
    }
  }

  lemma NothingYet(base: Utxos, s: seq<Item>)
    ensures HoldsExactly(base, s, 0, base)
  {
    forall o
      ensures Untouched(s, 0, o)
    {
    }
  }

  lemma OneIdentifies(p: Progress, item: Item)
    ensures ApplyOne(p, item).Some? ==> ApplyOne(p, item).value.identities == p.identities + {IdentityOf(item.event)}
  {
  }

  lemma InOrderIsSorted(rank: Rank, s: seq<Item>)
    ensures InOrder(rank, s) <==> Sorted(s, Order(rank))
  {
  }

  /**
   Replaying events in order succeeds exactly when every event is admissible where it stands, and then holds,
   outpoint by outpoint, the coin last received or the untouched base coin.
   */
  lemma LedgerExactly(rank: Rank, base: Utxos, events: seq<Item>, s: seq<Item>)
    requires Injective(rank) && multiset(s) == multiset(events) && InOrder(rank, s)
    ensures ApplyEvents(rank, base, events).Some? <==> Replays(base, s)
    ensures ApplyEvents(rank, base, events).Some? ==> HoldsExactly(base, s, |s|, ApplyEvents(rank, base, events).value)
  {
    hide Admissible, HoldsExactly, ApplyOne, InOrder, Sort, ApplyAll;
    OrderTotal(rank);
    InOrderIsSorted(rank, s);
    SortSorted(events, Order(rank));
    SortedUnique(s, Sort(events, Order(rank)), Order(rank));
    PrefixReplays(base, s, |s|);
    assert s[..|s|] == s;
  }

  // ---- the same, whatever the order ----

  ghost predicate ReceivedIn(events: seq<Item>, o: Outpoint) {
    exists x :: x in events && x.event.outpoint == o && x.event.kind in {1, 3}
  }

  ghost predicate SpentIn(events: seq<Item>, o: Outpoint) {
    exists x :: x in events && x.event.outpoint == o && x.event.kind == 2
  }

  ghost predicate SpentOnce(events: seq<Item>, o: Outpoint) {
    forall x, y | x in events && y in events && x.event.outpoint == o && y.event.outpoint == o && x.event.kind == y.event.kind == 2 :: x == y
  }

  /**
   An outpoint ends with a coin exactly when it was received or in the base, and not spent; except that a base
   coin's outpoint may be received again after it was spent, and then holds the new coin if it was spent once.
   */
  ghost predicate Survives(base: Utxos, events: seq<Item>, o: Outpoint) {
    if o in base && ReceivedIn(events, o) then SpentOnce(events, o)
    else (o in base || ReceivedIn(events, o)) && !SpentIn(events, o)
  }

  /** The coin it then holds: the received one if there is one, the base's otherwise. */
  ghost predicate OwnCoin(base: Utxos, events: seq<Item>, o: Outpoint, c: Coin) {
    if ReceivedIn(events, o) then exists x :: x in events && x.event.outpoint == o && MadeBy(x, c)
    else o in base && base[o] == c
  }

  lemma {:induction false} LastExists(s: seq<Item>, n: nat, o: Outpoint) returns (j: nat)
    requires n <= |s| && !Untouched(s, n, o)
    ensures LastOn(s, n, o, j)
    decreases n
  {
    if s[n - 1].event.outpoint == o {
      j := n - 1;
    } else {
      j := LastExists(s, n - 1, o);
    }
  }

  /** At a spend the outpoint held a coin, at a receive it did not. */
  lemma HeldBefore(base: Utxos, s: seq<Item>, n: nat)
    requires Replays(base, s) && n < |s|
    ensures s[n].event.kind == 2 <==> HoldsCoin(base, s, n, s[n].event.outpoint)
    ensures s[n].event.kind in {1, 2, 3}
  {
    hide CoinAt;
    assert Admissible(base, s, n);
  }

  lemma NoTwins(base: Utxos, s: seq<Item>, i: nat, j: nat)
    requires Replays(base, s) && i < j < |s| && s[i].event.outpoint == s[j].event.outpoint
    ensures !(s[i].event.kind in {1, 3} && s[j].event.kind in {1, 3}) && s[i] != s[j]
  {
    assert Admissible(base, s, j) && Admissible(base, s, i);
  }

  /** What the last event on an outpoint says about it. */
  lemma HeldByLast(base: Utxos, s: seq<Item>, n: nat, o: Outpoint, j: nat)
    requires n <= |s| && LastOn(s, n, o, j)
    ensures HoldsCoin(base, s, n, o) <==> s[j].event.kind in {1, 3}
  {
    if s[j].event.kind in {1, 3} {
      var c := Coin(s[j].script, s[j].event.value, s[j].event.height, s[j].event.kind == 3);
      assert MadeBy(s[j], c) && CoinAt(base, s, n, o, c);
    }
  }

  lemma HeldUntouched(base: Utxos, s: seq<Item>, n: nat, o: Outpoint)
    requires n <= |s| && Untouched(s, n, o)
    ensures HoldsCoin(base, s, n, o) <==> o in base
  {
    if o in base {
      assert CoinAt(base, s, n, o, base[o]);
    }
  }

  /** Between two spends of an outpoint, or after an earlier receive of it, there is a receive. */
  lemma ReceiveBetween(base: Utxos, s: seq<Item>, i: nat, m: nat) returns (j: nat)
    requires Replays(base, s) && i < m < |s| && s[i].event.outpoint == s[m].event.outpoint && s[m].event.kind == 2
    ensures i <= j < m && s[j].event.outpoint == s[m].event.outpoint && s[j].event.kind in {1, 3}
  {
    hide Replays, CoinAt, Admissible;
    var o := s[m].event.outpoint;
    j := LastExists(s, m, o);
    HeldBefore(base, s, m);
    HeldByLast(base, s, m, o, j);
  }

  /** A spend comes before the receive of a base coin's outpoint. */
  lemma SpendBefore(base: Utxos, s: seq<Item>, r: nat) returns (m: nat)
    requires Replays(base, s) && r < |s| && s[r].event.kind in {1, 3} && s[r].event.outpoint in base
    ensures m < r && s[m].event.outpoint == s[r].event.outpoint && s[m].event.kind == 2
  {
    hide Replays, CoinAt, Admissible;
    var o := s[r].event.outpoint;
    HeldBefore(base, s, r);
    if Untouched(s, r, o) {
      HeldUntouched(base, s, r, o);
    }
    m := LastExists(s, r, o);
    HeldByLast(base, s, r, o, m);
    HeldBefore(base, s, m);
  }

  lemma SurvivesExactly(base: Utxos, s: seq<Item>, o: Outpoint)
    requires Replays(base, s)
    ensures HoldsCoin(base, s, |s|, o) <==> Survives(base, s, o)
  {
    hide Replays, CoinAt, Admissible, HoldsCoin;
    if Untouched(s, |s|, o) {
      HeldUntouched(base, s, |s|, o);
    } else {
      var j := LastExists(s, |s|, o);
      HeldByLast(base, s, |s|, o, j);
      HeldBefore(base, s, j);
      if s[j].event.kind == 2 {
        SpentLast(base, s, o, j);
      } else {
        ReceivedLast(base, s, o, j);
      }
    }
  }

  lemma SpentLast(base: Utxos, s: seq<Item>, o: Outpoint, j: nat)
    requires Replays(base, s) && LastOn(s, |s|, o, j) && s[j].event.kind == 2
    ensures !Survives(base, s, o)
  {
    hide Replays, Admissible;
    assert s[j] in s && SpentIn(s, o);
    if o in base && ReceivedIn(s, o) {
      var x :| x in s && x.event.outpoint == o && x.event.kind in {1, 3};
      var r :| 0 <= r < |s| && s[r] == x;
      var m := SpendBefore(base, s, r);
      NoTwins(base, s, m, j);
      assert s[m] in s;
    }
  }

  lemma ReceivedLast(base: Utxos, s: seq<Item>, o: Outpoint, j: nat)
    requires Replays(base, s) && LastOn(s, |s|, o, j) && s[j].event.kind in {1, 3}
    ensures Survives(base, s, o)
  {
    hide Replays, Admissible;
    assert s[j] in s && ReceivedIn(s, o);
    forall m | 0 <= m < |s| && s[m].event.outpoint == o && s[m].event.kind == 2
      ensures o in base && Untouched(s, m, o)
    {
      assert m < j;
      if !Untouched(s, m, o) {
        var i :| 0 <= i < m && s[i].event.outpoint == o;
        var r := ReceiveBetween(base, s, i, m);
        NoTwins(base, s, r, j);
      }
      HeldBefore(base, s, m);
      HeldUntouched(base, s, m, o);
    }
    if o in base {
      forall x, y | x in s && y in s && x.event.outpoint == o && y.event.outpoint == o && x.event.kind == y.event.kind == 2
        ensures x == y
      {
        var a :| 0 <= a < |s| && s[a] == x;
        var b :| 0 <= b < |s| && s[b] == y;
        assert Untouched(s, a, o) && Untouched(s, b, o);
      }
    } else {
      forall x | x in s && x.event.outpoint == o
        ensures x.event.kind != 2
      {
        var m :| 0 <= m < |s| && s[m] == x;
      }
    }
  }

  /** The resulting ledger, from the events alone: which outpoints hold a coin, and which coin. */
  ghost predicate LedgerOf(base: Utxos, events: seq<Item>, utxos: Utxos) {
    && (forall o :: o in utxos <==> Survives(base, events, o))
    && forall o | o in utxos :: OwnCoin(base, events, o, utxos[o])
  }

  lemma SameEvents(base: Utxos, s: seq<Item>, events: seq<Item>, utxos: Utxos)
    requires multiset(s) == multiset(events) && LedgerOf(base, s, utxos)
    ensures LedgerOf(base, events, utxos)
  {
    hide MadeBy;
    SameElements(s, events);
    forall o
      ensures ReceivedIn(s, o) <==> ReceivedIn(events, o)
      ensures SpentIn(s, o) <==> SpentIn(events, o)
      ensures SpentOnce(s, o) <==> SpentOnce(events, o)
    {
    }
  }

  lemma HeldIsOwn(base: Utxos, s: seq<Item>, o: Outpoint, c: Coin)
    requires Replays(base, s) && CoinAt(base, s, |s|, o, c)
    ensures OwnCoin(base, s, o, c)
  {
    if j: nat :| LastOn(s, |s|, o, j) && MadeBy(s[j], c) {
      assert s[j] in s;
    } else {
      assert forall x | x in s :: x.event.outpoint != o;
    }
  }

  lemma CoinsExactly(rank: Rank, base: Utxos, events: seq<Item>)
    requires Injective(rank) && ApplyEvents(rank, base, events).Some?
    ensures LedgerOf(base, events, ApplyEvents(rank, base, events).value)
  {
    hide ApplyEvents, CoinAt, Replays, Survives, OwnCoin, InOrder;
    var s := OrderedEvents(rank, events);
    var utxos := ApplyEvents(rank, base, events).value;
    LedgerExactly(rank, base, events, s);
    forall o
      ensures o in utxos <==> Survives(base, s, o)
      ensures o in utxos ==> OwnCoin(base, s, o, utxos[o])
    {
      SurvivesExactly(base, s, o);
      if o in utxos {
        HeldIsOwn(base, s, o, utxos[o]);
      }
    }
    SameEvents(base, s, events, utxos);
  }

  lemma OrderedEvents(rank: Rank, events: seq<Item>) returns (s: seq<Item>)
    requires Injective(rank)
    ensures multiset(s) == multiset(events) && InOrder(rank, s)
  {
    hide InOrder;
    OrderTotal(rank);
    SortSorted(events, Order(rank));
    s := Sort(events, Order(rank));
    InOrderIsSorted(rank, s);
  }

  lemma SpendFirst(rank: Rank, spend: Item, receive: Item)
    requires Injective(rank) && spend.event.height < receive.event.height
    ensures Sort([receive, spend], Order(rank)) == [spend, receive]
  {
    OrderTotal(rank);
    SortSorted([receive, spend], Order(rank));
    assert Sorted([spend, receive], Order(rank));
    assert multiset([receive, spend]) == multiset([spend, receive]);
    SortedUnique([spend, receive], Sort([receive, spend], Order(rank)), Order(rank));
  }

  /** A base coin may be spent and its outpoint received again, so a spent outpoint can hold a coin. */
  lemma ReceivedAgain(rank: Rank, o: Outpoint, c: Coin, spender: Txid, spendHeight: nat, script: Script, value: nat, height: nat)
    requires Injective(rank) && spendHeight < height && spender != NO_SPENDER
    ensures var spend, receive := Item(c.script, Event(2, spendHeight, 0, o, c.value, spender)), Item(script, Event(1, height, 0, o, value, NO_SPENDER));
      ApplyEvents(rank, map[o := c], [receive, spend]) == Some(map[o := Coin(script, value, height, false)])
  {
    var spend, receive := Item(c.script, Event(2, spendHeight, 0, o, c.value, spender)), Item(script, Event(1, height, 0, o, value, NO_SPENDER));
    SpendFirst(rank, spend, receive);
    var start := Progress(map[o := c], {});
    assert [spend, receive][..1] == [spend] && [spend][..0] == [];
    assert ApplyAll(start, []) == Some(start);
    var one := ApplyOne(start, spend).value;
    assert ApplyAll(start, [spend]) == Some(one);
    assert one.utxos == map[];
  }

  method ApplyHistory(rank: Rank, base: Utxos, events: seq<Item>) returns (r: Option<Utxos>)
    ensures r == ApplyEvents(rank, base, events)
    ensures Injective(rank) ==> exists s ::
      (multiset(s) == multiset(events) && InOrder(rank, s) && (r.Some? <==> Replays(base, s)))
    ensures Injective(rank) && r.Some? ==> LedgerOf(base, events, r.value)
  {
    hide ApplyOne, Sort, InOrder, Replays, LedgerOf;
    if Injective(rank) {
      ghost var s := OrderedEvents(rank, events);
      LedgerExactly(rank, base, events, s);
      if ApplyEvents(rank, base, events).Some? {
        CoinsExactly(rank, base, events);
      }
    }
    var sorted := Sort(events, Order(rank));
    var utxos, identities := base, {};
    for i := 0 to |sorted|
      invariant ApplyAll(Progress(base, {}), sorted[..i]) == Some(Progress(utxos, identities))
    {
      assert sorted[..i + 1][..i] == sorted[..i];
      var next := ApplyOne(Progress(utxos, identities), sorted[i]);
      if next.None? {
        PrefixFails(Progress(base, {}), sorted, i + 1);
        return None;
      }
      utxos, identities := next.value.utxos, next.value.identities;
    }
    assert sorted[..|sorted|] == sorted;
    return Some(utxos);
  }

  lemma {:induction false} PrefixFails(p: Progress, items: seq<Item>, n: nat)
    requires n <= |items| && ApplyAll(p, items[..n]).None?
    ensures ApplyAll(p, items).None?
    decreases |items|
  {
    if n < |items| {
      var m := |items| - 1;
      assert items[..m][..n] == items[..n];
      PrefixFails(p, items[..m], n);
    } else {
      assert items[..n] == items;
    }
  }

  // ---- order independence ----

  /** The result depends only on which events there are, not on the order they were collected in. */
  lemma OrderIrrelevant(rank: Rank, base: Utxos, events: seq<Item>, shuffled: seq<Item>)
    requires Injective(rank) && multiset(events) == multiset(shuffled)
    ensures ApplyEvents(rank, base, events) == ApplyEvents(rank, base, shuffled)
  {
    OrderTotal(rank);
    SortCanonical(events, shuffled, Order(rank));
  }

  // ---- conservation ----

  ghost function TotalValue(utxos: Utxos): (v: nat)
    decreases |utxos|
  {
    if utxos == map[] then 0
    else
      var k :| k in utxos;
      Smaller(utxos, k);
      utxos[k].value + TotalValue(utxos - {k})
  }

  lemma Smaller(utxos: Utxos, k: Outpoint)
    requires k in utxos
    ensures |utxos - {k}| == |utxos| - 1
  {
    assert (utxos - {k}).Keys == utxos.Keys - {k};
    assert |utxos.Keys - {k}| == |utxos.Keys| - 1;
  }

  /** The total does not depend on which coin is taken out first. */
  lemma {:induction false} TotalWithout(utxos: Utxos, k: Outpoint)
    requires k in utxos
    ensures TotalValue(utxos) == utxos[k].value + TotalValue(utxos - {k})
    decreases |utxos|
  {
    var c :| c in utxos && TotalValue(utxos) == utxos[c].value + TotalValue(utxos - {c});
    if c != k {
      Smaller(utxos, c);
      Smaller(utxos, k);
      TotalWithout(utxos - {c}, k);
      TotalWithout(utxos - {k}, c);
      assert utxos - {c} - {k} == utxos - {k} - {c};
    }
  }

  ghost function Received(items: seq<Item>): (v: nat) {
    if items == [] then 0
    else
      var e := items[|items| - 1].event;
      Received(items[..|items| - 1]) + if Receives(e) then e.value else 0
  }

  ghost function Spent(items: seq<Item>): (v: nat) {
    if items == [] then 0
    else
      var e := items[|items| - 1].event;
      Spent(items[..|items| - 1]) + if e.kind == 2 then e.value else 0
  }

  lemma OneConserves(p: Progress, item: Item)
    requires ApplyOne(p, item).Some?
    ensures TotalValue(ApplyOne(p, item).value.utxos) + (if item.event.kind == 2 then item.event.value else 0)
      == TotalValue(p.utxos) + if Receives(item.event) then item.event.value else 0
  {
    hide TotalValue;
    var e, n := item.event, ApplyOne(p, item).value.utxos;
    if Receives(e) {
      TotalWithout(n, e.outpoint);
      assert n - {e.outpoint} == p.utxos;
    } else {
      TotalWithout(p.utxos, e.outpoint);
    }
  }

  lemma {:induction false} AllConserves(p: Progress, items: seq<Item>)
    requires ApplyAll(p, items).Some?
    ensures TotalValue(ApplyAll(p, items).value.utxos) + Spent(items) == TotalValue(p.utxos) + Received(items)
  {
    hide TotalValue, ApplyOne;
    if items != [] {
      var n := |items| - 1;
      AllConserves(p, items[..n]);
      OneConserves(ApplyAll(p, items[..n]).value, items[n]);
    }
  }

  lemma {:induction false} TotalsAppend(a: seq<Item>, b: seq<Item>)
    ensures Received(a + b) == Received(a) + Received(b) && Spent(a + b) == Spent(a) + Spent(b)
    decreases |b|
  {
    if b == [] {
      assert a + b == a;
    } else {
      var n := |b| - 1;
      assert (a + b)[..|a + b| - 1] == a + b[..n];
      TotalsAppend(a, b[..n]);
    }
  }

  /** Sums over events forget their order. */
  lemma {:induction false} TotalsPermute(a: seq<Item>, b: seq<Item>)
    requires multiset(a) == multiset(b)
    ensures Received(a) == Received(b) && Spent(a) == Spent(b)
    decreases |a|
  {
    assert |multiset(a)| == |a| && |multiset(b)| == |b|;
    if a != [] {
      var k := Occurrence(a, b);
      var x, y := a[1..], b[..k] + b[k + 1..];
      assert a == [a[0]] + x && b == b[..k] + ([b[k]] + b[k + 1..]);
      RemoveAt(b, k);
      CancelOne(a[0], multiset(x), multiset(y));
      TotalsPermute(x, y);
      TotalsAppend([a[0]], x);
      TotalsAppend(b[..k], [b[k]] + b[k + 1..]);
      TotalsAppend([b[k]], b[k + 1..]);
      TotalsAppend(b[..k], b[k + 1..]);
    }
  }

  /** Value is conserved: base plus receives is the resulting ledger plus spends. */
  lemma ValueConserved(rank: Rank, base: Utxos, events: seq<Item>)
    requires ApplyEvents(rank, base, events).Some?
    ensures TotalValue(ApplyEvents(rank, base, events).value) + Spent(events) == TotalValue(base) + Received(events)
  {
    hide TotalValue, ApplyAll, Sort;
    var sorted := Sort(events, Order(rank));
    AllConserves(Progress(base, {}), sorted);
    TotalsPermute(sorted, events);
  }

  // ---- replay after a rewind ----

  function UpTo(events: seq<Item>, height: nat): (r: seq<Item>) {
    Filter(events, (i: Item) => i.event.height <= height)
  }

  lemma {:induction false} UpToNone(events: seq<Item>, height: nat)
    requires forall x | x in events :: x.event.height > height
    ensures UpTo(events, height) == []
  {
    if events != [] {
      UpToNone(events[1..], height);
    }
  }

  /** Sorted by height first, the events up to a height are a prefix. */
  lemma {:induction false} LowIsPrefix(rank: Rank, items: seq<Item>, height: nat)
    requires Sorted(items, Order(rank))
    ensures UpTo(items, height) <= items
  {
    if items != [] {
      LowIsPrefix(rank, items[1..], height);
      if items[0].event.height > height {
        forall x | x in items[1..]
          ensures x.event.height > height
        {
          var i :| 0 <= i < |items[1..]| && items[1..][i] == x;
          assert Order(rank)(items[0], items[i + 1]);
        }
        UpToNone(items[1..], height);
      }
    }
  }

  lemma {:induction false} PrefixApplies(p: Progress, items: seq<Item>, n: nat)
    requires n <= |items| && ApplyAll(p, items).Some?
    ensures ApplyAll(p, items[..n]).Some?
  {
    if ApplyAll(p, items[..n]).None? {
      PrefixFails(p, items, n);
    }
  }

  /** Replaying the events of a valid ledger up to any height never fails. */
  lemma ReplayNeverFails(rank: Rank, base: Utxos, events: seq<Item>, height: nat)
    requires Injective(rank) && ApplyEvents(rank, base, events).Some?
    ensures ApplyEvents(rank, base, UpTo(events, height)).Some?
  {
    hide ApplyAll, Sort;
    var p := (i: Item) => i.event.height <= height;
    var sorted := Sort(events, Order(rank));
    OrderTotal(rank);
    SortSorted(events, Order(rank));
    SortOfFilter(events, p, Order(rank));
    LowIsPrefix(rank, sorted, height);
    var low := UpTo(sorted, height);
    assert low == sorted[..|low|];
    PrefixApplies(Progress(base, {}), sorted, |low|);
  }
}
