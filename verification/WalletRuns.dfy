/** A wallet's life: any sequence of syncs and rewinds leaves exactly the events of its own branch for its scripts. */
module WalletRuns {
  import opened Results
  import opened Chain
  import opened Sorting
  import opened Ledger
  import opened History
  import opened WalletSync
  import opened SyncExact
  import opened Targets

  // ---- the block tree ----

  /** What a block hash stands for: its parent, and the events of supported scripts in the block. */
  datatype Tree = Tree(parent: BlockHash -> BlockHash, items: BlockHash -> multiset<Item>)

  ghost function Ancestor(t: Tree, hash: BlockHash, k: nat): (r: BlockHash) {
    if k == 0 then hash else t.parent(Ancestor(t, hash, k - 1))
  }

  lemma {:induction false} AncestorSum(t: Tree, hash: BlockHash, a: nat, b: nat)
    ensures Ancestor(t, Ancestor(t, hash, a), b) == Ancestor(t, hash, a + b)
    decreases b
  {
    if b > 0 {
      AncestorSum(t, hash, a, b - 1);
    }
  }

  /** Blocks at neighbouring heights are parent and child. */
  ghost predicate Linked(t: Tree, chain: map<nat, BlockHash>) {
    forall h: nat | h in chain && h + 1 in chain :: t.parent(chain[h + 1]) == chain[h]
  }

  lemma {:induction false} LinkedAncestor(t: Tree, chain: map<nat, BlockHash>, lo: nat, hi: nat)
    requires Linked(t, chain) && lo <= hi && forall h: nat | lo <= h <= hi :: h in chain
    ensures chain[lo] == Ancestor(t, chain[hi], hi - lo)
    decreases hi - lo
  {
    if lo < hi {
      LinkedAncestor(t, chain, lo + 1, hi);
      assert chain[lo] == t.parent(chain[lo + 1]);
    }
  }

  /** How often the branch that ends in block `hash` at `height` holds an item. */
  ghost function OnBranch(t: Tree, hash: BlockHash, height: nat, x: Item): (n: nat) {
    if x.event.height <= height then t.items(Ancestor(t, hash, height - x.event.height))[x] else 0
  }

  /** The shorter branch holds what the longer one does, up to its own end. */
  lemma OnShorter(t: Tree, hash: BlockHash, height: nat, lower: nat, x: Item)
    requires x.event.height <= lower <= height
    ensures OnBranch(t, Ancestor(t, hash, height - lower), lower, x) == OnBranch(t, hash, height, x)
  {
    AncestorSum(t, hash, height - lower, lower - x.event.height);
  }

  // ---- what publishers do ----

  /** A published generation, the histories it was built from, and its filters with their element sets. */
  datatype Published = Published(g: Generation, histories: seq<History>, filters: seq<PublishedFilter>, elements: seq<seq<Script>>,
                                 matcher: Matcher)

  /** The blocks there are, and every generation ever published, by identity. */
  datatype World = World(tree: Tree, book: map<string, Published>)

  /** How often the histories hold an item. */
  ghost function CountIn(histories: seq<History>, x: Item): (n: nat) {
    if k: nat :| k < |histories| && histories[k].script == x.script then multiset(histories[k].events)[x.event] else 0
  }

  /** The histories are the events of the generation's blocks, which end in its anchor. */
  ghost predicate Represents(p: Published, t: Tree) {
    forall x: Item :: p.g.m.start <= x.event.height <= p.g.m.end ==> CountIn(p.histories, x) == OnBranch(t, p.g.m.anchor, p.g.m.end, x)
  }

  /** Each block's filter was built from a set that holds every script with an event in it. */
  ghost predicate Filtered(p: Published) {
    && |p.elements| == |p.filters| && Targets.Covers(p.histories, p.g.m, p.elements)
    && forall i :: 0 <= i < |p.filters| ==> BuiltFrom(p.matcher, p.filters[i], p.elements[i])
  }

  ghost predicate HonestlyPublished(p: Published, t: Tree) {
    Built(p.histories, p.g) && Represents(p, t) && Filtered(p)
  }

  ghost predicate HonestWorld(world: World) {
    forall id | id in world.book :: HonestlyPublished(world.book[id], world.tree)
  }

  // ---- the wallet's steps ----

  function NewWallet(scripts: set<Script>, height: nat, hash: BlockHash, utxos: Utxos): (w: Wallet) {
    Wallet(scripts, height, hash, height, utxos, utxos, map[height := hash], [], None)
  }

  datatype Step =
    | SyncStep(src: Source, budget: nat, list: seq<Script>)
    | RewindStep(height: nat, hash: BlockHash, accepted: map<nat, BlockHash>)

  /**
   A sync reads rows of a published generation and matches the wallet's scripts against its filters; the
   chain the wallet accepts is a branch of the block tree. A rewind is unrestricted.
   */
  ghost predicate Legal(world: World, w: Wallet, step: Step) {
    match step
    case SyncStep(src, budget, list) =>
      && src.id in world.book && Linked(world.tree, src.accepted)
      && var p := world.book[src.id];
      && Serves(src, p.g)
      && (set s | s in list) == w.scripts
      && src.matched == TargetsOf(p.matcher, p.g.m, p.filters, list, w.height, src.accepted)
    case RewindStep(height, hash, accepted) => true
  }

  ghost function Next(rank: Rank, world: World, w: Wallet, step: Step): (n: Wallet)
    requires Legal(world, w, step)
  {
    match step
    case SyncStep(src, budget, list) => Sync(rank, w, src, budget).0
    case RewindStep(height, hash, accepted) =>
      var r := Rewind(rank, w, height, hash, accepted);
      if r.None? then w else r.value
  }

  /** The wallet holds exactly its scripts' events above the base on the branch of its checkpoint. */
  ghost predicate HoldsExactly(w: Wallet, t: Tree) {
    forall x: Item :: multiset(w.events)[x]
      == if x.script in w.scripts && w.baseHeight < x.event.height <= w.height then OnBranch(t, w.hash, w.height, x) else 0
  }

  /** The blocks it remembers are ancestors of its checkpoint. */
  ghost predicate Remembers(w: Wallet, t: Tree) {
    forall h | h in w.chain :: h <= w.height && w.chain[h] == Ancestor(t, w.hash, w.height - h)
  }

  /** An open journal holds rows of its generation, and its targets miss nothing. */
  ghost predicate JournalSound(w: Wallet, book: map<string, Published>) {
    w.pending.Some? ==>
      var p := w.pending.value;
      && p.generation in book && Within(p.rows, book[p.generation].g)
      && NoFalseNegatives(book[p.generation].histories, w.scripts, p.targets, w.height)
  }

  ghost predicate Inv(rank: Rank, world: World, w: Wallet) {
    ValidWallet(rank, w) && HoldsExactly(w, world.tree) && Remembers(w, world.tree) && JournalSound(w, world.book)
  }

  lemma NewWalletInv(rank: Rank, world: World, scripts: set<Script>, height: nat, hash: BlockHash, utxos: Utxos)
    ensures Inv(rank, world, NewWallet(scripts, height, hash, utxos))
    ensures var w := NewWallet(scripts, height, hash, utxos);
      forall accepted :: At(accepted, height) == Some(hash) ==> Rewind(rank, w, height, hash, accepted) == Some(w)
  {
    var w := NewWallet(scripts, height, hash, utxos);
    assert UpTo(w.events, height) == [];
    assert (map h | h in w.chain && h <= height :: w.chain[h]) == w.chain;
  }

  // ---- a sync ----

  /** One generation's contribution is its branch's events of the wallet's scripts above the checkpoint. */
  lemma SourceIsBranch(p: Published, scripts: set<Script>, checkpoint: nat, t: Tree, x: Item)
    requires Built(p.histories, p.g) && Represents(p, t) && p.g.m.start <= checkpoint + 1
    ensures multiset(SourceItems(p.histories, scripts, checkpoint))[x]
      == if x.script in scripts && checkpoint < x.event.height <= p.g.m.end then OnBranch(t, p.g.m.anchor, p.g.m.end, x) else 0
  {
    hide Built, OnBranch;
    BuiltFacts(p.histories, p.g);
    if k: nat :| k < |p.histories| && p.histories[k].script == x.script {
      CountSource(p.histories, scripts, checkpoint, k, x);
      FilterCount(p.histories[k].events, (e: Event) => e.height > checkpoint, x.event);
      OnlyOne(p.histories, x, k);
      if x.event.height > p.g.m.end {
        BeyondRange(p, k, x.event);
      }
    } else {
      CountNoSource(p.histories, scripts, checkpoint, x);
    }
  }

  lemma OnlyOne(histories: seq<History>, x: Item, k: nat)
    requires DistinctScripts(histories) && k < |histories| && histories[k].script == x.script
    ensures CountIn(histories, x) == multiset(histories[k].events)[x.event]
  {
  }

  lemma BeyondRange(p: Published, k: nat, e: Event)
    requires Built(p.histories, p.g) && k < |p.histories| && e.height > p.g.m.end
    ensures multiset(p.histories[k].events)[e] == 0
  {
    assert e !in p.histories[k].events;
  }

  /** The accepted chain leads from the generation's anchor down to the wallet's checkpoint. */
  lemma CheckpointIsAncestor(w: Wallet, src: Source, t: Tree)
    requires Linked(t, src.accepted) && Spanned(src.accepted, src.m) && Admit(w, src).Ready?
    ensures w.height < src.m.end && w.hash == Ancestor(t, src.m.anchor, src.m.end - w.height)
    ensures forall h: nat | src.m.start <= h <= src.m.end :: h in src.accepted && src.accepted[h] == Ancestor(t, src.m.anchor, src.m.end - h)
  {
    hide Linked;
    assert forall h: nat | w.height <= h <= src.m.end :: h in src.accepted;
    LinkedAncestor(t, src.accepted, w.height, src.m.end);
    forall h: nat | src.m.start <= h <= src.m.end
      ensures src.accepted[h] == Ancestor(t, src.m.anchor, src.m.end - h)
    {
      LinkedAncestor(t, src.accepted, h, src.m.end);
    }
  }

  /** The targets a new journal starts with miss nothing. */
  lemma MatchedSound(p: Published, t: Tree, list: seq<Script>, checkpoint: nat, accepted: map<nat, BlockHash>)
    requires HonestlyPublished(p, t)
    requires TargetsOf(p.matcher, p.g.m, p.filters, list, checkpoint, accepted).Some?
    ensures NoFalseNegatives(p.histories, (set s | s in list),
                             TargetsOf(p.matcher, p.g.m, p.filters, list, checkpoint, accepted).value, checkpoint)
  {
    hide TargetsOf, NoFalseNegatives, BuiltFrom, Targets.Covers, Represents;
    FiltersFindTargets(p.matcher, p.histories, p.g.m, p.filters, p.elements, list, checkpoint, accepted);
  }

  /** The journal an admitted call works on: the wallet's own, or a new one with the matched scripts. */
  lemma AdmittedSound(rank: Rank, world: World, w: Wallet, src: Source, budget: nat, list: seq<Script>)
    requires HonestWorld(world) && JournalSound(w, world.book) && Legal(world, w, SyncStep(src, budget, list)) && Admit(w, src).Ready?
    ensures Arranges(src.visit)
    ensures var ready, p := Admit(w, src).wallet, world.book[src.id];
      && Open(ready, src, p.g) && ready == w.(pending := ready.pending)
      && Sync(rank, w, src, budget) == Sync(rank, ready, src, budget)
      && src.m.start <= w.height + 1 && ready.pending.value.generation == src.id
      && NoFalseNegatives(p.histories, ready.scripts, ready.pending.value.targets, ready.height)
      && HonestlyPublished(p, world.tree) && src.m == p.g.m
  {
    hide Sync, HonestlyPublished, NoFalseNegatives, Within, Honest, Bucketed, Arranges, Admit, TargetsOf, Linked;
    var p := world.book[src.id];
    Admitted(rank, w, src, p.g, budget);
    if w.pending.None? {
      MatchedSound(p, world.tree, list, w.height, src.accepted);
    }
  }

  lemma SyncInv(rank: Rank, world: World, w: Wallet, src: Source, budget: nat, list: seq<Script>)
    requires Ledger.Injective(rank) && HonestWorld(world) && Inv(rank, world, w) && Legal(world, w, SyncStep(src, budget, list))
    ensures Inv(rank, world, Next(rank, world, w, SyncStep(src, budget, list)))
  {
    hide Sync, ValidWallet, Within, Serves, HoldsExactly, Remembers, Admit, JournalSound, HonestWorld, TargetsOf, Linked;
    ServesArranges(src, world.book[src.id].g);
    SafeAgainstAnyTransport(rank, w, src, budget);
    if Admit(w, src).Ready? {
      SyncedInv(rank, world, w, src, budget, list);
    } else {
      NotAdmitted(rank, w, src, budget);
    }
  }

  lemma SyncedInv(rank: Rank, world: World, w: Wallet, src: Source, budget: nat, list: seq<Script>)
    requires Ledger.Injective(rank) && HonestWorld(world) && Inv(rank, world, w) && Legal(world, w, SyncStep(src, budget, list))
    requires Admit(w, src).Ready?
    ensures Arranges(src.visit)
    ensures var next := Sync(rank, w, src, budget).0;
      HoldsExactly(next, world.tree) && Remembers(next, world.tree) && JournalSound(next, world.book)
  {
    hide Sync, HonestlyPublished, HonestWorld, ValidWallet, NoFalseNegatives, Within, Serves, HoldsExactly, Remembers, Admit, CommitsSource,
      Open, TargetsOf, Linked;
    var p := world.book[src.id];
    AdmittedSound(rank, world, w, src, budget, list);
    var ready := Admit(w, src).wallet;
    var (next, outcome) := Sync(rank, w, src, budget);
    CallExact(rank, ready, src, p.g, budget);
    if outcome == Paused {
      PausedOpen(next, src, p.g);
      Unchanged(w, next, world.tree);
    } else {
      assert Built(p.histories, p.g) by { Honesty(p, world.tree); }
      SyncCommitsSource(rank, p.histories, ready, src, p.g, budget);
      if outcome == Committed {
        CommitGrowsChain(rank, w, src, budget);
        CommittedFacts(rank, p.histories, ready, src, next);
        CommitExact(rank, world, w, src, next);
      } else {
        CommitsOrFails(rank, p.histories, ready, src, next, outcome);
        FailedJournal(rank, ready, src, p.g, budget);
        Unchanged(w, next, world.tree);
      }
    }
  }

  lemma Honesty(p: Published, t: Tree)
    requires HonestlyPublished(p, t)
    ensures Built(p.histories, p.g) && Represents(p, t)
  {
  }

  lemma CommittedFacts(rank: Rank, histories: seq<History>, w: Wallet, src: Source, next: Wallet)
    requires w.pending.Some? && CommitsSource(rank, histories, w, src, next, Committed)
    ensures Spanned(src.accepted, src.m) && next.height == src.m.end && next.hash == src.m.anchor && next.pending.None?
    ensures multiset(next.events) == multiset(w.events) + multiset(SourceItems(histories, w.scripts, w.height))
  {
    hide Spanned, SourceItems, ApplyEvents;
  }

  lemma CommitExact(rank: Rank, world: World, w: Wallet, src: Source, next: Wallet)
    requires src.id in world.book && HonestlyPublished(world.book[src.id], world.tree) && Linked(world.tree, src.accepted)
    requires Inv(rank, world, w) && src.m == world.book[src.id].g.m && Admit(w, src).Ready? && Spanned(src.accepted, src.m)
    requires next.scripts == w.scripts && next.baseHeight == w.baseHeight && next.height == src.m.end && next.hash == src.m.anchor
    requires multiset(next.events) == multiset(w.events) + multiset(SourceItems(world.book[src.id].histories, w.scripts, w.height))
    requires next.chain == w.chain + Extension(src.accepted, src.m)
    ensures HoldsExactly(next, world.tree) && Remembers(next, world.tree)
  {
    hide Filtered, SourceItems, Linked, Spanned, HoldsExactly, Remembers, JournalSound, Represents, Built, Extension;
    CheckpointIsAncestor(w, src, world.tree);
    BaseBelow(rank, w);
    HoldsMore(world.book[src.id], world.tree, w, next);
    RemembersMore(world.tree, w, src, next);
  }

  /** The events of the old branch and of the generation's blocks are the events of the new branch. */
  lemma HoldsMore(p: Published, t: Tree, w: Wallet, next: Wallet)
    requires Built(p.histories, p.g) && Represents(p, t) && HoldsExactly(w, t) && p.g.m.start <= w.height + 1
    requires w.baseHeight <= w.height < p.g.m.end && w.hash == Ancestor(t, p.g.m.anchor, p.g.m.end - w.height)
    requires next.scripts == w.scripts && next.baseHeight == w.baseHeight && next.height == p.g.m.end && next.hash == p.g.m.anchor
    requires multiset(next.events) == multiset(w.events) + multiset(SourceItems(p.histories, w.scripts, w.height))
    ensures HoldsExactly(next, t)
  {
    hide Built, Represents, SourceItems, OnBranch;
    forall x: Item
      ensures multiset(next.events)[x]
        == if x.script in next.scripts && next.baseHeight < x.event.height <= next.height then OnBranch(t, next.hash, next.height, x) else 0
    {
      SourceIsBranch(p, w.scripts, w.height, t, x);
      if x.event.height <= w.height {
        OnShorter(t, p.g.m.anchor, p.g.m.end, w.height, x);
      }
    }
  }

  lemma RemembersMore(t: Tree, w: Wallet, src: Source, next: Wallet)
    requires Remembers(w, t) && w.height < src.m.end && w.hash == Ancestor(t, src.m.anchor, src.m.end - w.height)
    requires forall h: nat | src.m.start <= h <= src.m.end :: h in src.accepted && src.accepted[h] == Ancestor(t, src.m.anchor, src.m.end - h)
    requires next.height == src.m.end && next.hash == src.m.anchor && next.chain == w.chain + Extension(src.accepted, src.m)
    ensures Remembers(next, t)
  {
    forall h | h in next.chain
      ensures h <= next.height && next.chain[h] == Ancestor(t, next.hash, next.height - h)
    {
      if !(src.m.start <= h <= src.m.end) {
        AncestorSum(t, src.m.anchor, src.m.end - w.height, w.height - h);
      }
    }
  }

  lemma ServesArranges(src: Source, g: Generation)
    requires Serves(src, g)
    ensures Arranges(src.visit) && src.m == g.m
  {
  }

  lemma PausedOpen(next: Wallet, src: Source, g: Generation)
    requires Open(next, src, g)
    ensures next.pending.Some? && Within(next.pending.value.rows, g)
  {
  }

  lemma CommitsOrFails(rank: Rank, histories: seq<History>, w: Wallet, src: Source, next: Wallet, outcome: Outcome)
    requires w.pending.Some? && CommitsSource(rank, histories, w, src, next, outcome) && outcome != Committed
    ensures outcome == Failed
  {
  }

  lemma Admitted(rank: Rank, w: Wallet, src: Source, g: Generation, budget: nat)
    requires Serves(src, g) && Admit(w, src).Ready?
    requires w.pending.Some? ==> w.pending.value.generation != src.id || Within(w.pending.value.rows, g)
    ensures var ready := Admit(w, src).wallet;
      && Open(ready, src, g) && ready == w.(pending := ready.pending)
      && Sync(rank, w, src, budget) == Sync(rank, ready, src, budget)
      && src.m.start <= w.height + 1
      && (w.pending.Some? ==> ready == w && w.pending.value.generation == src.id)
      && (w.pending.None? ==> src.matched.Some? && ready.pending.value == Pending(src.id, src.matched.value, NO_ROWS))
  {
    hide Advance;
  }

  lemma NotAdmitted(rank: Rank, w: Wallet, src: Source, budget: nat)
    requires Arranges(src.visit) && !Admit(w, src).Ready?
    ensures Sync(rank, w, src, budget).0 == w
  {
  }

  lemma Unchanged(w: Wallet, next: Wallet, t: Tree)
    requires HoldsExactly(w, t) && Remembers(w, t) && next == w.(pending := next.pending)
    ensures HoldsExactly(next, t) && Remembers(next, t)
  {
    hide OnBranch, Ancestor;
  }

  /** A call that fails keeps its journal, with rows of its generation. */
  lemma FailedJournal(rank: Rank, w: Wallet, src: Source, g: Generation, budget: nat)
    requires Serves(src, g) && Open(w, src, g) && Sync(rank, w, src, budget).1 == Failed
    ensures var next := Sync(rank, w, src, budget).0;
      && next.pending.Some? && next == Journaled(w, next.pending.value.rows) && Within(next.pending.value.rows, g)
  {
    hide Collect, PlanOf, Held, Within, Admit, FinishAll, ApplyEvents, Spanned, Sync;
    SyncAdvances(rank, w, src, budget);
    CollectExact(w, src, g, budget);
  }

  lemma BaseBelow(rank: Rank, w: Wallet)
    requires ValidWallet(rank, w)
    ensures w.baseHeight <= w.height
  {
  }

  // ---- a rewind ----

  lemma RewindInv(rank: Rank, world: World, w: Wallet, height: nat, hash: BlockHash, accepted: map<nat, BlockHash>)
    requires Ledger.Injective(rank) && Inv(rank, world, w)
    ensures Inv(rank, world, Next(rank, world, w, RewindStep(height, hash, accepted)))
  {
    hide ValidWallet, OnBranch, Rewind;
    RewindExact(rank, w, height, hash, accepted);
    RewindKeeps(rank, w, height, hash, accepted);
    BaseBelow(rank, w);
    if Rewind(rank, w, height, hash, accepted).Some? {
      var r, t := Rewind(rank, w, height, hash, accepted).value, world.tree;
      assert hash == Ancestor(t, w.hash, w.height - height);
      forall x: Item
        ensures multiset(r.events)[x]
          == if x.script in r.scripts && r.baseHeight < x.event.height <= r.height then OnBranch(t, r.hash, r.height, x) else 0
      {
        if x.event.height <= height {
          OnShorter(t, w.hash, w.height, height, x);
        }
      }
      forall h | h in r.chain
        ensures h <= r.height && r.chain[h] == Ancestor(t, r.hash, r.height - h)
      {
        AncestorSum(t, w.hash, w.height - height, height - h);
      }
    }
  }

  lemma RewindKeeps(rank: Rank, w: Wallet, height: nat, hash: BlockHash, accepted: map<nat, BlockHash>)
    ensures Rewind(rank, w, height, hash, accepted).Some? ==>
      var r := Rewind(rank, w, height, hash, accepted).value;
      && r.scripts == w.scripts && r.baseHeight == w.baseHeight && r.height == height && r.hash == hash && r.pending.None?
      && w.baseHeight <= height <= w.height && height in w.chain && w.chain[height] == hash
      && (forall h | h in r.chain :: h in w.chain && h <= height && r.chain[h] == w.chain[h])
  {
    hide ApplyEvents, UpTo;
  }

  // ---- whole lives ----

  ghost predicate Lives(rank: Rank, world: World, lives: seq<Wallet>, steps: seq<Step>) {
    && |lives| == |steps| + 1
    && forall i :: 0 <= i < |steps| ==> Legal(world, lives[i], steps[i]) && lives[i + 1] == Next(rank, world, lives[i], steps[i])
  }

  /**
   The whole life of a wallet. From a fresh wallet, after any sequence of syncs on honestly published
   generations of any branches, with any budgets, pauses, failures and resumptions, and of rewinds, its
   events are exactly its scripts' events in the blocks of its checkpoint's branch above the base, and its
   coins are their ledger.
   */
  lemma {:induction false} LifeExact(rank: Rank, world: World, lives: seq<Wallet>, steps: seq<Step>, i: nat)
    requires Ledger.Injective(rank) && HonestWorld(world) && Lives(rank, world, lives, steps) && Inv(rank, world, lives[0]) && i < |lives|
    ensures Inv(rank, world, lives[i])
    decreases i
  {
    hide Inv, Legal, Next, HonestWorld;
    if i > 0 {
      LifeExact(rank, world, lives, steps, i - 1);
      match steps[i - 1]
      case SyncStep(src, budget, list) => SyncInv(rank, world, lives[i - 1], src, budget, list);
      case RewindStep(height, hash, accepted) => RewindInv(rank, world, lives[i - 1], height, hash, accepted);
    }
  }
}
