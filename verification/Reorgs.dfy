// A reorg from end to end: the index followed one chain, the node now reports
// another, the check rolls back to the fork it finds and the loop goes on.
module Reorgs {
  import opened Text
  import opened Tables
  import opened Journal
  import opened JournalRuns
  import opened Convergence
  import opened Mismatch
  import opened Chains
  import opened TopologyIndex
  import opened CatchUp

  // The database rolled back to the first mismatch, or left as it was if there
  // is none.
  ghost predicate Checked(db: Db, node: int -> string, fork: Option<int>, at: string, e: Db) {
    if fork.Some? then FirstMismatch(db.history, node, fork.value) && e == Rollback(db, fork.value, at)
    else AllMatch(db.history, node) && e == db
  }

  // cmd_reorg_check --rollback
  method ReorgCheck(index: Index, node: int -> string, at: string) returns (fork: Option<int>)
    requires Sound(index.Model())
    modifies index
    ensures Checked(old(index.Model()), node, fork, at, index.Model())
  {
    fork := index.FindReorgMismatch(node);
    if fork.Some? { var _ := index.RollbackToHeight(fork.value, at); }
  }

  // Each of the `n` blocks from `from` on captures every row before it writes it.
  ghost predicate AllCaptured(chain: NodeChain, from: int, n: nat) {
    forall h :: from <= h < from + n ==> WellCaptured(BlockAt(chain, h))
  }

  // The blocks a loop came through can be indexed one after another.
  lemma {:induction false} FollowedChain(db: Db, chain: NodeChain, from: int, n: nat, allowUnresolved: bool, keep: int)
    requires Accepted(db, chain, from, n, allowUnresolved, keep) == n && AllCaptured(chain, from, n)
    ensures Usable(db, BlocksOf(chain, from, n), keep)
  {
    forall i: nat | i < n ensures IndexableAfter(db, chain, from, i, allowUnresolved, keep) {
      AcceptedIs(db, chain, from, n, allowUnresolved, keep, i);
    }
    IndexableIsUsable(db, chain, from, n, allowUnresolved, keep);
  }

  lemma {:induction false} IndexableIsUsable(db: Db, chain: NodeChain, from: int, n: nat, allowUnresolved: bool,
        keep: int)
    requires AllCaptured(chain, from, n)
    requires forall i: nat :: i < n ==> IndexableAfter(db, chain, from, i, allowUnresolved, keep)
    ensures Usable(db, BlocksOf(chain, from, n), keep)
  {
    if n > 0 {
      IndexableIsUsable(db, chain, from, n - 1, allowUnresolved, keep);
      FollowedNextUsable(db, chain, from, n - 1, allowUnresolved, keep);
    }
  }

  lemma {:induction false} FollowedNextUsable(db: Db, chain: NodeChain, from: int, i: nat, allowUnresolved: bool,
        keep: int)
    requires Usable(db, BlocksOf(chain, from, i), keep) && WellCaptured(BlockAt(chain, from + i))
    requires IndexableAfter(db, chain, from, i, allowUnresolved, keep)
    ensures Usable(db, BlocksOf(chain, from, i + 1), keep)
  {
    BlockSucceeds(db, chain, from, i, allowUnresolved, keep);
    BlocksOfNext(chain, from, i + 1);
    UsableNext(db, BlocksOf(chain, from, i), BlockAt(chain, from + i), keep);
  }

  lemma {:induction false} BlockSucceeds(db: Db, chain: NodeChain, from: int, i: nat, allowUnresolved: bool, keep: int)
    requires IndexableAfter(db, chain, from, i, allowUnresolved, keep)
    ensures Succeeds(IndexBlocks(db, BlocksOf(chain, from, i), keep), BlockAt(chain, from + i))
  {
    FollowedIsIndexBlocks(db, chain, from, i, keep);
  }

  lemma {:induction false} BlocksAreChain(chain: NodeChain, from: int, n: nat)
    ensures ChainFrom(BlocksOf(chain, from, n), from - 1)
  {}

  // Two chains share their first `p` blocks; then the first one ends or they
  // part.
  ghost predicate Part(stale: seq<Block>, current: seq<Block>, p: nat) {
    && p <= |stale| && p <= |current| && stale[..p] == current[..p]
    && (p < |stale| ==> p < |current| && stale[p].hash != current[p].hash)
  }

  // The check finds the fork, and no mismatch if there is none.
  ghost predicate ForkFound(fork: Option<int>, base: int, n: nat, p: nat) {
    fork == if p < n then Some(base + 1 + p) else None
  }

  // The node reports these blocks.
  ghost predicate Reports(node: int -> string, blocks: seq<Block>) {
    forall i {:trigger blocks[i]} :: 0 <= i < |blocks| ==> node(blocks[i].height) == blocks[i].hash
  }

  // It agrees with the history there is.
  ghost predicate AgreesBelow(node: int -> string, start: Db, base: int) {
    forall g :: g in start.history ==> g <= base && start.history[g].hash == node(g)
  }

  lemma {:induction false} SharedMatches(start: Db, e: Db, base: int, stale: seq<Block>, current: seq<Block>, p: nat,
        keep: int, node: int -> string)
    requires ChainRows(start, e, stale, base, WindowStart(keep, base + |stale|))
    requires AgreesBelow(node, start, base) && Reports(node, current)
    requires ChainFrom(stale, base) && ChainFrom(current, base) && Part(stale, current, p)
    ensures forall k :: k in e.history && k < base + 1 + p ==> e.history[k].hash == node(k)
  {
    forall k | k in e.history && k < base + 1 + p ensures e.history[k].hash == node(k) {
      if k > base {
        var i := k - base - 1;
        assert stale[i].height == k && stale[..p][i] == current[..p][i];
        assert node(current[i].height) == current[i].hash;
      }
    }
  }

  lemma {:induction false} CheckFindsFork(start: Db, e: Db, base: int, stale: seq<Block>, current: seq<Block>, p: nat,
        keep: int, node: int -> string, fork: Option<int>)
    requires ChainRows(start, e, stale, base, WindowStart(keep, base + |stale|))
    requires AgreesBelow(node, start, base) && Reports(node, current)
    requires ChainFrom(stale, base) && ChainFrom(current, base) && Part(stale, current, p)
    requires WindowStart(keep, base + |stale|) <= base + 1 + p
    requires if fork.Some? then FirstMismatch(e.history, node, fork.value) else AllMatch(e.history, node)
    ensures ForkFound(fork, base, |stale|, p)
  {
    SharedMatches(start, e, base, stale, current, p, keep, node);
    if p < |stale| {
      assert stale[p].height == base + 1 + p;
      ForkIsFirstMismatch(start, e, base, stale, current, p, keep, node);
    }
  }

  // What the whole comes to: the database that followed the current chain.
  ghost predicate Healed(start: Db, after: Db, current: seq<Block>, base: int, n: nat, keep: int) {
    Converged(after, IndexBlocks(start, current, keep), WindowStart(keep, base + n),
      WindowStart(keep, base + |current|))
  }

  lemma {:induction false} ChainSplit(blocks: seq<Block>, base: int, p: nat)
    requires ChainFrom(blocks, base) && p <= |blocks|
    ensures blocks == blocks[..p] + blocks[p..]
    ensures ChainFrom(blocks[..p], base) && ChainFrom(blocks[p..], base + p)
  {}

  // A starting point: no journal rows, and a history that ends at `base`.
  ghost predicate StartsAt(start: Db, base: int) {
    Sound(start) && start.journal == map[] && base >= 0 && forall g :: g in start.history ==> g <= base
  }

  // The fork is a point the rollback gives back.
  lemma {:induction false} ForkGivenBack(start: Db, base: int, common: seq<Block>, stale: seq<Block>, keep: int, h: int,
        at: string)
    requires StartsAt(start, base) && h == base + |common| + 1 && ChainFrom(common, base)
    requires Usable(start, common + stale, keep) && ChainFrom(stale, h - 1) && |stale| > 0
    requires WindowStart(keep, base + |common + stale|) <= h
    ensures Agree(IndexBlocks(start, common, keep), Rollback(IndexBlocks(start, common + stale, keep), h, at),
                  WindowStart(keep, base + |common + stale|))
  {
    UsableAppend(start, common, stale, keep);
    IndexBlocksAppend(start, common, stale, keep);
    var marks := FollowedIsForkPoint(start, common, base, keep, h);
    assert stale[|stale| - 1].height == base + |common + stale|;
    RollbackAgrees(IndexBlocks(start, common, keep), marks, stale, keep, h, at);
  }

  lemma {:induction false} HealsSplit(start: Db, base: int, common: seq<Block>, stale: seq<Block>,
        current: seq<Block>, keep: int, h: int, at: string, e: Db)
    requires StartsAt(start, base) && h == base + |common| + 1 && ChainFrom(common, base)
    requires Usable(start, common + stale, keep) && ChainFrom(stale, h - 1) && |stale| > 0
    requires Usable(start, common + current, keep) && ChainFrom(current, h - 1) && |current| > 0
    requires WindowStart(keep, base + |common + stale|) <= h
    requires e == IndexBlocks(Rollback(IndexBlocks(start, common + stale, keep), h, at), current, keep)
    ensures Healed(start, e, common + current, base, |common + stale|, keep)
  {
    ReorgHeals(start, base, common, stale, current, keep, h, at);
    assert stale[|stale| - 1].height == base + |common + stale|;
    assert current[|current| - 1].height == base + |common + current|;
  }

  // Without a fork the loop just goes on.
  lemma {:induction false} GoesOn(start: Db, base: int, stale: seq<Block>, current: seq<Block>, p: nat, keep: int,
        e: Db)
    requires Part(stale, current, p) && p == |stale|
    requires e == IndexBlocks(IndexBlocks(start, stale, keep), current[p..], keep)
    ensures Healed(start, e, current, base, |stale|, keep)
  {
    assert stale[..p] == stale && current == current[..p] + current[p..];
    IndexBlocksAppend(start, stale, current[p..], keep);
  }

  lemma {:induction false} KeptSound(db: Db, blocks: seq<Block>, keep: int)
    requires Sound(db)
    ensures Sound(IndexBlocks(db, blocks, keep))
    decreases |blocks|
  {
    if blocks != [] {
      IndexBlockSound(db, blocks[0], keep);
      KeptSound(IndexBlock(db, blocks[0], keep), blocks[1..], keep);
    }
  }

  // The loop; if it catches up, the blocks were usable and are indexed.
  method Follow(index: Index, chain: NodeChain, from: int, n: nat, allowUnresolved: bool, keep: int)
      returns (exit: Exit)
    requires AllCaptured(chain, from, n)
    modifies index
    ensures exit == CaughtUp ==>
      Usable(old(index.Model()), BlocksOf(chain, from, n), keep)
      && index.Model() == IndexBlocks(old(index.Model()), BlocksOf(chain, from, n), keep)
  {
    ghost var db := index.Model();
    exit := FollowChain(index, chain, from, n, allowUnresolved, keep);
    if exit == CaughtUp { CaughtUpMeans(db, index.Model(), chain, from, n, allowUnresolved, keep, exit); }
  }

  lemma {:induction false} CaughtUpMeans(db: Db, e: Db, chain: NodeChain, from: int, n: nat, allowUnresolved: bool,
        keep: int, exit: Exit)
    requires LoopOutcome(db, e, chain, from, n, allowUnresolved, keep, exit) && exit == CaughtUp
    requires AllCaptured(chain, from, n)
    ensures Usable(db, BlocksOf(chain, from, n), keep) && e == IndexBlocks(db, BlocksOf(chain, from, n), keep)
  {
    FollowedChain(db, chain, from, n, allowUnresolved, keep);
    FollowedIsIndexBlocks(db, chain, from, n, keep);
  }

  // The blocks left when the loop goes on at `next`.
  lemma {:induction false} RestOf(chain: NodeChain, base: int, p: nat, m: nat, next: int)
    requires p <= m && next == base + 1 + p
    ensures BlocksOf(chain, base + 1, m)[p..] == BlocksOf(chain, next, m - p)
    ensures AllCaptured(chain, base + 1, m) ==> AllCaptured(chain, next, m - p)
  {}

  // Two chains on one starting point that part within the window, and a node
  // that reports the second.
  ghost predicate Reorg(start: Db, base: int, stale: seq<Block>, current: seq<Block>, p: nat, keep: int,
        node: int -> string) {
    && StartsAt(start, base) && AgreesBelow(node, start, base) && Reports(node, current)
    && ChainFrom(stale, base) && Usable(start, stale, keep) && ChainFrom(current, base)
    && Part(stale, current, p) && WindowStart(keep, base + |stale|) <= base + 1 + p
  }

  lemma {:induction false} CheckOutcome(start: Db, base: int, stale: seq<Block>, current: seq<Block>, p: nat, keep: int,
        node: int -> string, fork: Option<int>, at: string, e: Db)
    requires Reorg(start, base, stale, current, p, keep, node)
    requires Checked(IndexBlocks(start, stale, keep), node, fork, at, e)
    ensures ForkFound(fork, base, |stale|, p)
  {
    ChainHistory(start, stale, base, keep);
    CheckFindsFork(start, IndexBlocks(start, stale, keep), base, stale, current, p, keep, node, fork);
  }

  // The check leaves the tables of the shared blocks.
  lemma {:induction false} CheckGivesBack(start: Db, base: int, stale: seq<Block>, current: seq<Block>, p: nat,
        keep: int, node: int -> string, fork: Option<int>, at: string, checked: Db)
    requires Reorg(start, base, stale, current, p, keep, node) && ForkFound(fork, base, |stale|, p)
    requires Checked(IndexBlocks(start, stale, keep), node, fork, at, checked)
    ensures checked.t == IndexBlocks(start, current[..p], keep).t
  {
    if p < |stale| {
      ChainSplit(stale, base, p);
      ForkGivenBack(start, base, stale[..p], stale[p..], keep, fork.value, at);
    } else {
      assert stale[..p] == stale;
    }
  }

  lemma {:induction false} HealedAt(start: Db, base: int, stale: seq<Block>, current: seq<Block>, p: nat, keep: int,
        h: int, at: string, e: Db)
    requires StartsAt(start, base) && ChainFrom(stale, base) && Usable(start, stale, keep)
    requires ChainFrom(current, base) && Usable(start, current, keep) && Part(stale, current, p) && p < |stale|
    requires WindowStart(keep, base + |stale|) <= h == base + 1 + p
    requires e == IndexBlocks(Rollback(IndexBlocks(start, stale, keep), h, at), current[p..], keep)
    ensures Healed(start, e, current, base, |stale|, keep)
  {
    ChainSplit(stale, base, p);
    ChainSplit(current, base, p);
    HealsSplit(start, base, stale[..p], stale[p..], current[p..], keep, h, at, e);
  }

  // Blocks usable behind the check are usable behind the shared ones.
  lemma {:induction false} CurrentIsUsable(start: Db, base: int, stale: seq<Block>, current: seq<Block>, p: nat,
        keep: int, node: int -> string, fork: Option<int>, at: string, checked: Db)
    requires Reorg(start, base, stale, current, p, keep, node) && ForkFound(fork, base, |stale|, p)
    requires Checked(IndexBlocks(start, stale, keep), node, fork, at, checked) && Usable(checked, current[p..], keep)
    ensures Usable(start, current, keep)
  {
    CheckGivesBack(start, base, stale, current, p, keep, node, fork, at, checked);
    UsableSplit(start, stale, p, keep);
    UsableSame(checked, IndexBlocks(start, current[..p], keep), current[p..], keep);
    UsableSplit(start, current, p, keep);
  }

  lemma {:induction false} UsableSplit(db: Db, blocks: seq<Block>, p: nat, keep: int)
    requires p <= |blocks|
    ensures Usable(db, blocks, keep) <==>
      Usable(db, blocks[..p], keep) && Usable(IndexBlocks(db, blocks[..p], keep), blocks[p..], keep)
  {
    assert blocks == blocks[..p] + blocks[p..];
    UsableAppend(db, blocks[..p], blocks[p..], keep);
  }

  lemma {:induction false} HealedEither(start: Db, base: int, stale: seq<Block>, current: seq<Block>, p: nat, keep: int,
        node: int -> string, fork: Option<int>, at: string, checked: Db, e: Db)
    requires Reorg(start, base, stale, current, p, keep, node) && ForkFound(fork, base, |stale|, p)
    requires Checked(IndexBlocks(start, stale, keep), node, fork, at, checked) && Usable(checked, current[p..], keep)
    requires e == IndexBlocks(checked, current[p..], keep)
    ensures Healed(start, e, current, base, |stale|, keep)
  {
    CurrentIsUsable(start, base, stale, current, p, keep, node, fork, at, checked);
    if p < |stale| { HealedAt(start, base, stale, current, p, keep, fork.value, at, e); }
    else { GoesOn(start, base, stale, current, p, keep, e); }
  }

  // The check and the loop behind it.
  method CheckAndFollow(index: Index, ghost start: Db, ghost stale: seq<Block>, after: NodeChain, node: int -> string,
        base: int, n: nat, m: nat, ghost p: nat, allowUnresolved: bool, keep: int, at: string)
      returns (fork: Option<int>, exit: Exit)
    requires Sound(index.Model()) && index.Model() == IndexBlocks(start, stale, keep) && |stale| == n
    requires AllCaptured(after, base + 1, m)
    requires Reorg(start, base, stale, BlocksOf(after, base + 1, m), p, keep, node)
    modifies index
    ensures ForkFound(fork, base, n, p)
    ensures exit == CaughtUp ==> Healed(start, index.Model(), BlocksOf(after, base + 1, m), base, n, keep)
  {
    ghost var current := BlocksOf(after, base + 1, m);
    fork := ReorgCheck(index, node, at);
    ghost var checked := index.Model();
    CheckOutcome(start, base, stale, current, p, keep, node, fork, at, checked);
    var next := if fork.Some? then fork.value else base + 1 + n;
    RestOf(after, base, p, m, next);
    exit := Follow(index, after, next, base + 1 + m - next, allowUnresolved, keep);
    if exit == CaughtUp {
      HealedEither(start, base, stale, current, p, keep, node, fork, at, checked, index.Model());
    }
  }

  // An index without journal rows follows `n` blocks of one chain; the node
  // then reports another; the check runs and the loop follows that chain to
  // its end. The check finds the fork within the window, and if the loop
  // catches up, the index is as if it had followed the other chain from the
  // start.
  method FollowThroughReorg(index: Index, before: NodeChain, after: NodeChain, node: int -> string, base: int,
        n: nat, m: nat, ghost p: nat, allowUnresolved: bool, keep: int, at: string)
      returns (first: Exit, fork: Option<int>, second: Exit)
    requires StartsAt(index.Model(), base) && AgreesBelow(node, index.Model(), base)
    requires AllCaptured(before, base + 1, n) && AllCaptured(after, base + 1, m)
    requires Reports(node, BlocksOf(after, base + 1, m))
    requires Part(BlocksOf(before, base + 1, n), BlocksOf(after, base + 1, m), p)
    requires WindowStart(keep, base + n) <= base + 1 + p
    modifies index
    ensures first == CaughtUp ==> ForkFound(fork, base, n, p)
    ensures first == CaughtUp && second == CaughtUp ==>
      Healed(old(index.Model()), index.Model(), BlocksOf(after, base + 1, m), base, n, keep)
  {
    ghost var start, stale := index.Model(), BlocksOf(before, base + 1, n);
    first := Follow(index, before, base + 1, n, allowUnresolved, keep);
    if first != CaughtUp { return first, None, first; }
    BlocksAreChain(before, base + 1, n);
    BlocksAreChain(after, base + 1, m);
    KeptSound(start, stale, keep);
    fork, second := CheckAndFollow(index, start, stale, after, node, base, n, m, p, allowUnresolved, keep, at);
  }
}
