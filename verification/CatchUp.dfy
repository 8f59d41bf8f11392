// The command-line loop that drives the journal: contiguous heights, one
// transaction a block, stopping at the first block it refuses.
module CatchUp {
  import opened Text
  import opened Tables
  import opened Journal
  import opened JournalRuns
  import opened Mismatch
  import opened Chains
  import opened TopologyIndex

  // A fetched block, its extracted names prepared for the index, with what the
  // extraction counted.
  datatype Fetched = Fetched(
    block: Block, names: nat, nonDictTxs: nat, unresolved: nat, covenants: nat)

  datatype Exit =
    | NeedsBootstrap | AboveTip | UpToDate | TooManyBlocks
    | CaughtUp
    | Refused(height: int)  // exit code 4
    | Raised(height: int)   // a node call failed inside the block's transaction

  predicate Accepts(f: Fetched, allowUnresolved: bool) {
    && f.nonDictTxs == 0
    && (f.unresolved == 0 || allowUnresolved)
    && !(f.covenants > 0 && f.names == 0)
  }

  // The node's chain: a height it has no block for is a call that raises.
  type NodeChain = map<int, Fetched>

  function BlockAt(chain: NodeChain, h: int): Block {
    if h in chain then chain[h].block.(height := h) else Block(h, "", [], map[], "")
  }

  // The database after the first `n` blocks from `from` on.
  ghost function Followed(db: Db, chain: NodeChain, from: int, n: nat, keep: int): Db
  {
    if n == 0 then db else IndexBlock(Followed(db, chain, from, n - 1, keep), BlockAt(chain, from + n - 1), keep)
  }

  // The block of a height is accepted, its node calls answer and its writes
  // keep the foreign keys of `db`.
  predicate Indexable(db: Db, chain: NodeChain, h: int, allowUnresolved: bool) {
    h in chain && Accepts(chain[h], allowUnresolved) && Succeeds(db, BlockAt(chain, h))
  }

  // How many of the `n` blocks from `from` on the loop indexes.
  ghost function Accepted(db: Db, chain: NodeChain, from: int, n: nat, allowUnresolved: bool, keep: int): (p: nat)
    ensures p <= n
  {
    if n == 0 then 0
    else
      var p := Accepted(db, chain, from, n - 1, allowUnresolved, keep);
      if p == n - 1 && IndexableAfter(db, chain, from, p, allowUnresolved, keep) then n else p
  }

  ghost predicate IndexableAfter(db: Db, chain: NodeChain, from: int, i: nat, allowUnresolved: bool, keep: int) {
    Indexable(Followed(db, chain, from, i, keep), chain, from + i, allowUnresolved)
  }

  // All before the first that is not indexable.
  lemma {:induction false} AcceptedIs(db: Db, chain: NodeChain, from: int, n: nat, allowUnresolved: bool, keep: int,
        i: nat)
    requires i < n
    ensures var p := Accepted(db, chain, from, n, allowUnresolved, keep);
      && (i < p ==> IndexableAfter(db, chain, from, i, allowUnresolved, keep))
      && (i == p ==> !IndexableAfter(db, chain, from, i, allowUnresolved, keep))
  {
    if i < n - 1 { AcceptedIs(db, chain, from, n - 1, allowUnresolved, keep, i); }
  }

  ghost function BlocksOf(chain: NodeChain, from: int, n: nat): (r: seq<Block>)
    ensures |r| == n && forall i :: 0 <= i < n ==> r[i] == BlockAt(chain, from + i)
  {
    seq(n, i requires 0 <= i < n => BlockAt(chain, from + i))
  }

  lemma {:induction false} FollowedIsIndexBlocks(db: Db, chain: NodeChain, from: int, n: nat, keep: int)
    ensures Followed(db, chain, from, n, keep) == IndexBlocks(db, BlocksOf(chain, from, n), keep)
  {
    if n > 0 {
      var last, init := BlockAt(chain, from + n - 1), BlocksOf(chain, from, n - 1);
      FollowedIsIndexBlocks(db, chain, from, n - 1, keep);
      BlocksOfNext(chain, from, n);
      IndexBlocksAppend(db, init, [last], keep);
      OneBlock(IndexBlocks(db, init, keep), last, keep);
    }
  }

  lemma {:induction false} BlocksOfNext(chain: NodeChain, from: int, n: nat)
    requires n > 0
    ensures BlocksOf(chain, from, n) == BlocksOf(chain, from, n - 1) + [BlockAt(chain, from + n - 1)]
  {}

  lemma {:induction false} OneBlock(db: Db, b: Block, keep: int)
    ensures IndexBlocks(db, [b], keep) == IndexBlock(db, b, keep)
  {}

  // What the height loop leaves: exactly the blocks before the first one it
  // refuses or whose node calls fail are indexed, and nothing of that one.
  ghost predicate LoopOutcome(db: Db, after: Db, chain: NodeChain, from: int, n: nat, allowUnresolved: bool,
        keep: int, exit: Exit) {
    var p := Accepted(db, chain, from, n, allowUnresolved, keep);
    && after == Followed(db, chain, from, p, keep)
    && exit == (if p == n then CaughtUp else Stop(chain, from + p, allowUnresolved))
  }

  // What stops the loop at a height.
  function Stop(chain: NodeChain, h: int, allowUnresolved: bool): Exit {
    if h in chain && !Accepts(chain[h], allowUnresolved) then Refused(h) else Raised(h)
  }

  // A block the loop may index: whole transactions, no name hash left
  // unresolved unless that is allowed, and some name if it has name covenants.
  predicate Whole(f: Fetched, allowUnresolved: bool) {
    f.nonDictTxs == 0 && (f.unresolved > 0 ==> allowUnresolved) && (f.names == 0 ==> f.covenants == 0)
  }

  ghost predicate WholeUpTo(chain: NodeChain, from: int, h: int, allowUnresolved: bool) {
    forall g :: from <= g < h ==> g in chain && Whole(chain[g], allowUnresolved)
  }

  // The loop catches up over whole blocks only, refuses the first block that is
  // not whole, and raises at a height the node does not have or whose names it
  // cannot index.
  lemma {:induction false} ExitIs(db: Db, after: Db, chain: NodeChain, from: int, n: nat, allowUnresolved: bool,
        keep: int, exit: Exit)
    requires LoopOutcome(db, after, chain, from, n, allowUnresolved, keep, exit)
    ensures exit.CaughtUp? ==> WholeUpTo(chain, from, from + n, allowUnresolved)
    ensures exit.Refused? || exit.Raised? ==> WholeUpTo(chain, from, exit.height, allowUnresolved)
    ensures exit.Refused? ==> exit.height in chain && !Whole(chain[exit.height], allowUnresolved)
    ensures exit.Raised? ==> exit.height in chain ==> Whole(chain[exit.height], allowUnresolved)
    ensures exit.CaughtUp? || exit.Refused? || exit.Raised?
  {
    var p := Accepted(db, chain, from, n, allowUnresolved, keep);
    forall g | from <= g < from + p ensures g in chain && Whole(chain[g], allowUnresolved) {
      AcceptedIs(db, chain, from, n, allowUnresolved, keep, g - from);
    }
  }

  // One height of the loop.
  method FollowBlock(index: Index, chain: NodeChain, h: int, allowUnresolved: bool, keep: int)
      returns (stop: Option<Exit>)
    modifies index
    ensures stop.None? <==> Indexable(old(index.Model()), chain, h, allowUnresolved)
    ensures stop.None? ==> index.Model() == IndexBlock(old(index.Model()), BlockAt(chain, h), keep)
    ensures stop.Some? ==> index.Model() == old(index.Model()) && stop.value == Stop(chain, h, allowUnresolved)
  {
    if h !in chain { return Some(Raised(h)); }
    var f := chain[h];
    if !Accepts(f, allowUnresolved) { return Some(Refused(h)); }
    var r := index.IndexPreparedBlock(f.block.(height := h), keep);
    stop := if r.Err? then Some(Raised(h)) else None;
  }

  // That height behind the blocks before it.
  method FollowNext(index: Index, chain: NodeChain, ghost db: Db, from: int, i: nat, allowUnresolved: bool, keep: int)
      returns (stop: Option<Exit>)
    requires index.Model() == Followed(db, chain, from, i, keep)
    modifies index
    ensures stop.None? <==> IndexableAfter(db, chain, from, i, allowUnresolved, keep)
    ensures stop.None? ==> index.Model() == Followed(db, chain, from, i + 1, keep)
    ensures stop.Some? ==> index.Model() == Followed(db, chain, from, i, keep)
    ensures stop.Some? ==> stop.value == Stop(chain, from + i, allowUnresolved)
  {
    stop := FollowBlock(index, chain, from + i, allowUnresolved, keep);
    FollowedNext(db, chain, from, i, keep);
  }

  method FollowChain(index: Index, chain: NodeChain, from: int, n: nat, allowUnresolved: bool, keep: int)
      returns (exit: Exit)
    modifies index
    ensures LoopOutcome(old(index.Model()), index.Model(), chain, from, n, allowUnresolved, keep, exit)
  {
    ghost var db := index.Model();
    var i := 0;
    while i < n
      invariant i <= Accepted(db, chain, from, n, allowUnresolved, keep) && i <= n
      invariant index.Model() == Followed(db, chain, from, i, keep)
    {
      AcceptedIs(db, chain, from, n, allowUnresolved, keep, i);
      var stop := FollowNext(index, chain, db, from, i, allowUnresolved, keep);
      if stop.Some? { return stop.value; }
      i := i + 1;
    }
    return CaughtUp;
  }

  lemma {:induction false} FollowedNext(db: Db, chain: NodeChain, from: int, i: nat, keep: int)
    ensures Followed(db, chain, from, i + 1, keep)
         == IndexBlock(Followed(db, chain, from, i, keep), BlockAt(chain, from + i), keep)
  {}

  // _cmd_incremental_catch_up
  method IncrementalCatchUp(index: Index, chain: NodeChain, target: int, tip: int, maxBlocks: int,
        allowUnresolved: bool, keep: int) returns (exit: Exit)
    modifies index
    ensures exit == NeedsBootstrap <==> old(index.meta.lastHeight).None?
    ensures old(index.meta.lastHeight).Some? ==>
      var last := old(index.meta.lastHeight).value;
      var goal := if target != 0 then target else tip;
      && (exit == AboveTip <==> goal > tip)
      && (exit == UpToDate <==> goal <= tip && goal <= last)
      && (exit == TooManyBlocks <==> last < goal <= tip && goal - last > maxBlocks)
      && (last < goal <= tip && goal - last <= maxBlocks ==>
            LoopOutcome(old(index.Model()), index.Model(), chain, last + 1, goal - last, allowUnresolved, keep, exit))
    ensures exit in {NeedsBootstrap, AboveTip, UpToDate, TooManyBlocks} ==> index.Model() == old(index.Model())
  {
    if index.meta.lastHeight.None? { return NeedsBootstrap; }
    var last := index.meta.lastHeight.value;
    var goal := if target != 0 then target else tip;
    if goal > tip { return AboveTip; }
    if goal <= last { return UpToDate; }
    if goal - last > maxBlocks { return TooManyBlocks; }
    exit := FollowChain(index, chain, last + 1, goal - last, allowUnresolved, keep);
  }

  // The retained heights are those from `lo` to the last indexed one.
  ghost predicate Window(db: Db, lo: int, last: int) {
    Contiguous(db.history, lo, last) && lo <= last + 1 && db.meta.lastHeight == Some(last)
  }

  lemma {:induction false} NextWindow(db: Db, blocks: seq<Block>, keep: int, lo: int, last: int) returns (lo': int)
    requires blocks != [] && ChainFrom(blocks, last) && Usable(db, blocks, keep) && keep >= 0 && last >= 0
    requires Window(db, lo, last)
    ensures ChainFrom(blocks[1..], last + 1) && Usable(IndexBlock(db, blocks[0], keep), blocks[1..], keep)
    ensures Window(IndexBlock(db, blocks[0], keep), lo', last + 1)
  {
    assert blocks[0].height == last + 1;
    NextBlockKeepsContiguous(db, blocks[0], keep, lo, last);
    lo' := Higher(lo, WindowStart(keep, last + 1));
  }

  // The loop keeps the window contiguous and ending at last_indexed_height, so
  // heights strictly increase, which is what the journal needs.
  lemma {:induction false} CatchUpKeepsContiguous(db: Db, blocks: seq<Block>, keep: int, lo: int, last: int)
      returns (lo': int)
    requires Window(db, lo, last) && ChainFrom(blocks, last) && Usable(db, blocks, keep) && keep >= 0 && last >= 0
    ensures Window(IndexBlocks(db, blocks, keep), lo', last + |blocks|)
    decreases |blocks|
  {
    lo' := lo;
    if blocks != [] {
      var next := NextWindow(db, blocks, keep, lo, last);
      lo' := CatchUpKeepsContiguous(IndexBlock(db, blocks[0], keep), blocks[1..], keep, next, last + 1);
    }
  }
}
