// Two branches from one fork: indexing one, rolling back and indexing the other
// ends where indexing the other alone ends.
module Convergence {
  import opened Text
  import opened Tables
  import opened Journal
  import opened JournalRuns

  // Same tables; same journal and history from height `f` up.
  ghost predicate Agree(d: Db, e: Db, f: int) {
    && d.t == e.t
    && (forall k: Key :: k.height >= f ==>
      (k in d.journal <==> k in e.journal) && (k in d.journal ==> d.journal[k] == e.journal[k]))
    && (forall h :: h >= f ==>
      (h in d.history <==> h in e.history) && (h in d.history ==> d.history[h] == e.history[h]))
  }

  lemma {:induction false} IndexNamesAgree(d: Db, e: Db, f: int, b: Block, names: seq<string>)
    requires Agree(d, e, f)
    ensures Agree(IndexNames(d, b, names), IndexNames(e, b, names), f)
  {
    if names != [] { IndexNamesAgree(d, e, f, b, names[..|names| - 1]); }
  }

  // What a block does to the tables depends on the tables alone.
  lemma {:induction false} SameNames(d: Db, e: Db, b: Block, names: seq<string>)
    requires d.t == e.t
    ensures IndexNames(d, b, names).t == IndexNames(e, b, names).t
    ensures LinksAll(d, b, names) <==> LinksAll(e, b, names)
  {
    if names != [] { SameNames(d, e, b, names[..|names| - 1]); }
  }

  lemma {:induction false} SameTables(d: Db, e: Db, b: Block, keep: int)
    requires d.t == e.t
    ensures Succeeds(d, b) <==> Succeeds(e, b)
    ensures IndexBlock(d, b, keep).t == IndexBlock(e, b, keep).t
  {
    SameNames(d, e, b, b.names);
  }

  ghost predicate SameButRollbackStamp(d: Db, e: Db) {
    && d.t == e.t && d.journal == e.journal && d.history == e.history
    && d.meta.lastHeight == e.meta.lastHeight && d.meta.tipHash == e.meta.tipHash
    && d.meta.generatedAt == e.meta.generatedAt
  }

  lemma {:induction false} PruneAgrees(d: Db, e: Db, f: int, b: Block, keep: int)
    requires Agree(d, e, f)
    ensures var d', e' := Prune(RecordBlock(d, b), keep, b.height), Prune(RecordBlock(e, b), keep, b.height);
      Agree(d', e', f) && (WindowStart(keep, b.height) >= f ==> SameButRollbackStamp(d', e'))
  {}

  lemma {:induction false} IndexBlockAgrees(d: Db, e: Db, f: int, b: Block, keep: int)
    requires Agree(d, e, f)
    ensures Agree(IndexBlock(d, b, keep), IndexBlock(e, b, keep), f)
    ensures Succeeds(d, b) && WindowStart(keep, b.height) >= f ==>
      SameButRollbackStamp(IndexBlock(d, b, keep), IndexBlock(e, b, keep))
  {
    SameTables(d, e, b, keep);
    IndexNamesAgree(d, e, f, b, b.names);
    PruneAgrees(IndexNames(d, b, b.names), IndexNames(e, b, b.names), f, b, keep);
  }

  lemma {:induction false} AgreesAfter(d: Db, e: Db, f: int, b: Block, keep: int)
    requires Agree(d, e, f)
    ensures Agree(IndexBlock(d, b, keep), IndexBlock(e, b, keep), f)
  {
    IndexBlockAgrees(d, e, f, b, keep);
  }

  lemma {:induction false} AgreesAfterAll(d: Db, e: Db, f: int, blocks: seq<Block>, keep: int)
    requires Agree(d, e, f)
    ensures Agree(IndexBlocks(d, blocks, keep), IndexBlocks(e, blocks, keep), f)
    decreases |blocks|
  {
    if blocks != [] {
      AgreesAfter(d, e, f, blocks[0], keep);
      AgreesAfterAll(IndexBlock(d, blocks[0], keep), IndexBlock(e, blocks[0], keep), f, blocks[1..], keep);
    }
  }

  lemma {:induction false} UsableSame(d: Db, e: Db, blocks: seq<Block>, keep: int)
    requires d.t == e.t && Usable(d, blocks, keep)
    ensures Usable(e, blocks, keep)
    decreases |blocks|
  {
    if blocks != [] {
      SameTables(d, e, blocks[0], keep);
      UsableSame(IndexBlock(d, blocks[0], keep), IndexBlock(e, blocks[0], keep), blocks[1..], keep);
    }
  }

  // The last block of a usable chain drops from both what the window has left.
  lemma {:induction false} SameAfterAll(d: Db, e: Db, f: int, blocks: seq<Block>, keep: int)
    requires Agree(d, e, f) && Usable(d, blocks, keep) && |blocks| > 0
    requires WindowStart(keep, blocks[|blocks| - 1].height) >= f
    ensures SameButRollbackStamp(IndexBlocks(d, blocks, keep), IndexBlocks(e, blocks, keep))
  {
    var init, last := blocks[..|blocks| - 1], blocks[|blocks| - 1];
    assert blocks == init + [last];
    UsableAppend(d, init, [last], keep);
    AgreesAfterAll(d, e, f, init, keep);
    LastBlock(d, init, last, keep);
    LastBlock(e, init, last, keep);
    IndexBlockAgrees(IndexBlocks(d, init, keep), IndexBlocks(e, init, keep), f, last, keep);
  }

  lemma {:induction false} LastBlock(db: Db, init: seq<Block>, last: Block, keep: int)
    ensures IndexBlocks(db, init + [last], keep) == IndexBlock(IndexBlocks(db, init, keep), last, keep)
  {
    IndexBlocksAppend(db, init, [last], keep);
    assert [last][1..] == [];
  }

  // Blocks at or above `h` leave what the window retains below `h` alone.
  ghost predicate SameBetween(db: Db, e: Db, f: int, h: int) {
    && (forall k: Key :: f <= k.height < h ==>
      (k in e.journal <==> k in db.journal) && (k in db.journal ==> e.journal[k] == db.journal[k]))
    && (forall g :: f <= g < h ==>
      (g in e.history <==> g in db.history) && (g in db.history ==> e.history[g] == db.history[g]))
  }

  lemma {:induction false} IndexBlocksBelow(db: Db, blocks: seq<Block>, keep: int, f: int, h: int)
    requires forall i :: 0 <= i < |blocks| ==> blocks[i].height >= h && WindowStart(keep, blocks[i].height) <= f
    ensures SameBetween(db, IndexBlocks(db, blocks, keep), f, h)
    decreases |blocks|
  {
    if blocks != [] {
      var d := IndexBlock(db, blocks[0], keep);
      IndexNamesFrame(db, blocks[0], blocks[0].names);
      assert SameBetween(db, d, f, h);
      IndexBlocksBelow(d, blocks[1..], keep, f, h);
    }
  }

  ghost predicate Below(db: Db, h: int) {
    (forall k :: k in db.journal ==> k.height < h) && (forall g :: g in db.history ==> g < h)
  }

  // A tracked database whose blocks all lie below `h`, with `h` in the window.
  ghost predicate ForkPoint(d: Db, marks: seq<Mark>, h: int) {
    Tracked(d, marks, h) && Above(marks, h) && Below(d, h)
  }

  // `healed` went through a rolled-back branch, `direct` did not; `f` is where
  // the branch left the window, `f'` where the new blocks leave it.
  ghost predicate Converged(healed: Db, direct: Db, f: int, f': int) {
    healed.t == direct.t && Agree(healed, direct, f) && (f' >= f ==> SameButRollbackStamp(healed, direct))
  }

  // Index the blocks of one branch, roll back to `h` and index another branch.
  ghost function ReorgOnto(d: Db, stale: seq<Block>, current: seq<Block>, keep: int, h: int, at: string): Db {
    IndexBlocks(Rollback(IndexBlocks(d, stale, keep), h, at), current, keep)
  }

  // ... which ends where indexing the other branch alone ends.
  ghost predicate ReorgIsForgotten(d: Db, stale: seq<Block>, current: seq<Block>, keep: int, h: int, at: string)
    requires |stale| > 0 && |current| > 0
  {
    Converged(ReorgOnto(d, stale, current, keep, h, at), IndexBlocks(d, current, keep),
              WindowStart(keep, stale[|stale| - 1].height), WindowStart(keep, current[|current| - 1].height))
  }

  // The rollback gives back the state the branch was indexed on, but for what
  // it moved out of the window.
  lemma {:induction false} RollbackAgrees(d: Db, marks: seq<Mark>, stale: seq<Block>, keep: int, h: int, at: string)
    requires ForkPoint(d, marks, h)
    requires Usable(d, stale, keep) && Ascending(stale) && |stale| > 0 && h <= stale[0].height
    requires h >= WindowStart(keep, stale[|stale| - 1].height)
    ensures Agree(d, Rollback(IndexBlocks(d, stale, keep), h, at), WindowStart(keep, stale[|stale| - 1].height))
  {
    RollbackUndoesBlocks(Trace(d, marks, h), stale, keep, h);
    IndexBlocksBelow(d, stale, keep, WindowStart(keep, stale[|stale| - 1].height), h);
  }

  // Reorg convergence. `d` is any tracked state below height `h`; `stale` and
  // `current` are two continuations of it.
  lemma {:induction false} ReorgConvergence(d: Db, marks: seq<Mark>, stale: seq<Block>, current: seq<Block>,
        keep: int, h: int, at: string)
    requires ForkPoint(d, marks, h)
    requires Usable(d, stale, keep) && Ascending(stale) && |stale| > 0 && h <= stale[0].height
    requires Usable(d, current, keep) && |current| > 0
    requires h >= WindowStart(keep, stale[|stale| - 1].height)
    ensures ReorgIsForgotten(d, stale, current, keep, h, at)
  {
    var f := WindowStart(keep, stale[|stale| - 1].height);
    RollbackAgrees(d, marks, stale, keep, h, at);
    var rolled := Rollback(IndexBlocks(d, stale, keep), h, at);
    AgreesAfterAll(d, rolled, f, current, keep);
    if WindowStart(keep, current[|current| - 1].height) >= f { SameAfterAll(d, rolled, f, current, keep); }
  }
}
