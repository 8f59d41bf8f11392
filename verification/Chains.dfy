// Databases that follow a whole chain, and a reorganisation from end to end.
module Chains {
  import opened Text
  import opened Journal
  import opened JournalRuns
  import opened Convergence
  import opened Mismatch

  predicate ChainFrom(blocks: seq<Block>, base: int) {
    forall i {:trigger blocks[i].height} :: 0 <= i < |blocks| ==> blocks[i].height == base + 1 + i
  }

  // The history and journal of a database that followed a chain from `base`.
  ghost predicate ChainRows(db: Db, e: Db, blocks: seq<Block>, base: int, start: int) {
    && (forall k :: k in e.journal ==> k.height <= base + |blocks|)
    && (forall g :: g in e.history ==> g <= base + |blocks|)
    && (forall g :: g in e.history && g <= base ==> g in db.history && e.history[g] == db.history[g])
    && (forall g :: g in e.history && base < g ==> e.history[g].hash == blocks[g - base - 1].hash)
    && (forall g :: base < g <= base + |blocks| && start <= g ==> g in e.history)
  }

  lemma {:induction false} ChainRowsStep(db: Db, d: Db, init: seq<Block>, b: Block, base: int, keep: int)
    requires ChainRows(db, d, init, base, WindowStart(keep, base + |init|))
    requires b.height == base + |init| + 1 && Succeeds(d, b)
    ensures ChainRows(db, IndexBlock(d, b, keep), init + [b], base, WindowStart(keep, base + |init| + 1))
  {
    IndexNamesFrame(d, b, b.names);
  }

  lemma {:induction false} ChainHistory(db: Db, blocks: seq<Block>, base: int, keep: int)
    requires ChainFrom(blocks, base) && Usable(db, blocks, keep)
    requires (forall k :: k in db.journal ==> k.height <= base) && (forall g :: g in db.history ==> g <= base)
    ensures ChainRows(db, IndexBlocks(db, blocks, keep), blocks, base, WindowStart(keep, base + |blocks|))
    decreases |blocks|
  {
    if blocks != [] {
      var last := |blocks| - 1;
      var init := blocks[..last];
      assert blocks == init + [blocks[last]];
      UsableAppend(db, init, [blocks[last]], keep);
      ChainHistory(db, init, base, keep);
      IndexBlocksAppend(db, init, [blocks[last]], keep);
      var d := IndexBlocks(db, init, keep);
      ChainRowsStep(db, d, init, blocks[last], base, keep);
    }
  }

  // The end of a followed chain is a point to fork from.
  lemma {:induction false} FollowedIsForkPoint(start: Db, common: seq<Block>, base: int, keep: int,
        h: int) returns (marks: seq<Mark>)
    requires Sound(start) && start.journal == map[] && base >= 0 && h == base + |common| + 1
    requires forall g :: g in start.history ==> g <= base
    requires ChainFrom(common, base) && Usable(start, common, keep) && WindowStart(keep, h - 1) <= h
    ensures ForkPoint(IndexBlocks(start, common, keep), marks, h)
  {
    marks := IndexBlocksTracks(Fresh(start), common, keep, h);
    if |marks| > 0 { assert marks[0 + (|common| - 1)].height == common[|common| - 1].height; }
    ChainHistory(start, common, base, keep);
  }

  lemma {:induction false} HealsFrom(d: Db, marks: seq<Mark>, stale: seq<Block>, current: seq<Block>, keep: int,
        h: int, at: string)
    requires ForkPoint(d, marks, h)
    requires ChainFrom(stale, h - 1) && Usable(d, stale, keep) && |stale| > 0
    requires ChainFrom(current, h - 1) && Usable(d, current, keep) && |current| > 0
    requires WindowStart(keep, h - 1 + |stale|) <= h
    ensures ReorgIsForgotten(d, stale, current, keep, h, at)
  {
    ReorgConvergence(d, marks, stale, current, keep, h, at);
  }

  lemma {:induction false} HealsAfter(start: Db, d: Db, base: int, common: seq<Block>, stale: seq<Block>,
        current: seq<Block>,
        keep: int, h: int, at: string)
    requires Sound(start) && start.journal == map[] && base >= 0 && h == base + |common| + 1
    requires forall g :: g in start.history ==> g <= base
    requires ChainFrom(common, base) && Usable(start, common, keep)
    requires ChainFrom(stale, h - 1) && Usable(d, stale, keep) && |stale| > 0
    requires ChainFrom(current, h - 1) && Usable(d, current, keep) && |current| > 0
    requires WindowStart(keep, h - 1 + |stale|) <= h
    requires d == IndexBlocks(start, common, keep)
    ensures ReorgIsForgotten(d, stale, current, keep, h, at)
  {
    var marks := FollowedIsForkPoint(start, common, base, keep, h);
    HealsFrom(d, marks, stale, current, keep, h, at);
  }

  // End to end: a database follows `common + stale` from `base`, rolls back to
  // the fork and catches up on `current`; the result is the database that
  // followed `common + current` from the start. With ForkIsFirstMismatch, the
  // fork is where find_reorg_mismatch tells it to roll back to.
  lemma {:induction false} ReorgHeals(start: Db, base: int, common: seq<Block>, stale: seq<Block>, current: seq<Block>,
        keep: int, h: int, at: string)
    requires Sound(start) && start.journal == map[] && base >= 0 && h == base + |common| + 1
    requires forall g :: g in start.history ==> g <= base
    requires Usable(start, common + stale, keep) && Usable(start, common + current, keep)
    requires ChainFrom(common, base) && ChainFrom(stale, h - 1) && |stale| > 0
    requires ChainFrom(current, h - 1) && |current| > 0
    requires WindowStart(keep, h - 1 + |stale|) <= h
    ensures Converged(
      ReorgOnto(start, common + stale, current, keep, h, at), IndexBlocks(start, common + current, keep),
      WindowStart(keep, stale[|stale| - 1].height), WindowStart(keep, current[|current| - 1].height))
  {
    UsableAppend(start, common, stale, keep);
    UsableAppend(start, common, current, keep);
    HealsAfter(start, IndexBlocks(start, common, keep), base, common, stale, current, keep, h, at);
    IndexBlocksAppend(start, common, stale, keep);
    IndexBlocksAppend(start, common, current, keep);
  }

  lemma {:induction false} ForkIsFirstMismatch(start: Db, e: Db, base: int, stale: seq<Block>, current: seq<Block>,
        p: nat, keep: int,
        node: int -> string)
    requires ChainRows(start, e, stale, base, WindowStart(keep, base + |stale|))
    requires forall g :: g in start.history ==> g <= base && start.history[g].hash == node(g)
    requires ChainFrom(stale, base) && ChainFrom(current, base)
    requires p < |stale| && p < |current| && stale[..p] == current[..p] && stale[p].hash != current[p].hash
    requires forall i :: 0 <= i < |current| ==> node(current[i].height) == current[i].hash
    requires WindowStart(keep, base + |stale|) <= stale[p].height
    ensures FirstMismatch(e.history, node, stale[p].height)
  {
    forall k | k in e.history && k < stale[p].height
      ensures e.history[k].hash == node(k)
    {
      if k > base {
        var i := k - base - 1;
        assert stale[i].height == k && stale[..p][i] == current[..p][i];
        assert node(current[i].height) == current[i].hash;
      }
    }
    assert node(current[p].height) == current[p].hash;
  }
}
