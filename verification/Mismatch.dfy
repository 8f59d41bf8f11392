// The first retained block the node disagrees with, and what a rollback to it
// keeps of the history.
module Mismatch {
  import opened Text
  import opened Journal
  import opened JournalRuns
  import opened Convergence

  // A block the node now disagrees with, all retained blocks below it matching.
  ghost predicate FirstMismatch(history: map<int, BlockRecord>, node: int -> string, m: int) {
    && m in history && history[m].hash != node(m)
    && forall k :: k in history && k < m ==> history[k].hash == node(k)
  }

  ghost predicate AllMatch(history: map<int, BlockRecord>, node: int -> string) {
    forall k :: k in history ==> history[k].hash == node(k)
  }

  ghost predicate Contiguous(history: map<int, BlockRecord>, lo: int, last: int) {
    forall k :: k in history <==> lo <= k <= last
  }

  lemma {:induction false} MatchingPrefix(history: map<int, BlockRecord>, node: int -> string, m: int, lo: int,
        last: int)
    requires FirstMismatch(history, node, m) && Contiguous(history, lo, last)
    ensures var kept := HistoryBelow(history, m);
      && AllMatch(kept, node) && Contiguous(kept, lo, m - 1)
      && forall g :: AllMatch(HistoryBelow(history, g), node) <==> g <= m
  {
    forall g ensures AllMatch(HistoryBelow(history, g), node) <==> g <= m {
      if g > m { assert m in HistoryBelow(history, g); }
    }
  }

  lemma {:induction false} LastOfContiguous(history: map<int, BlockRecord>, meta: Meta, m: int, at: string, lo: int)
    requires Contiguous(history, lo, m - 1) && m >= 1
    ensures var e := RollbackMeta(history, meta, m, at);
      && e.lastHeight == Some(m - 1)
      && e.tipHash == (if lo < m then history[m - 1].hash else "")
  {
    if lo < m {
      assert m - 1 in history.Keys;
    } else {
      assert forall k :: k !in history.Keys;
      assert history.Keys == {};
    }
  }

  // Rolling back at the first mismatch keeps exactly the longest matching
  // prefix of the retained history; nothing mismatches any more; and on a
  // contiguous window the last indexed height becomes m - 1 whether or not any
  // history is left.
  lemma {:induction false} RollbackAtMismatch(db: Db, node: int -> string, m: int, at: string, lo: int, last: int)
    requires FirstMismatch(db.history, node, m) && Contiguous(db.history, lo, last) && m >= 1
    ensures var e := Rollback(db, m, at);
      && AllMatch(e.history, node) && (forall g :: !FirstMismatch(e.history, node, g))
      && (forall g :: AllMatch(HistoryBelow(db.history, g), node) <==> g <= m)
      && e.history == HistoryBelow(db.history, m) && Contiguous(e.history, lo, m - 1)
      && e.meta.lastHeight == Some(m - 1)
      && e.meta.tipHash == (if lo < m then db.history[m - 1].hash else "")
  {
    MatchingPrefix(db.history, node, m, lo, last);
    LastOfContiguous(HistoryBelow(db.history, m), db.meta, m, at, lo);
  }

  // Indexing the next height keeps the window contiguous, whatever is pruned.
  lemma {:induction false} NextBlockKeepsContiguous(db: Db, b: Block, keep: int, lo: int, last: int)
    requires Contiguous(db.history, lo, last) && lo <= last + 1
    requires b.height == last + 1 && Succeeds(db, b)
    ensures Contiguous(IndexBlock(db, b, keep).history, Higher(lo, WindowStart(keep, b.height)), b.height)
    ensures IndexBlock(db, b, keep).meta.lastHeight == Some(b.height)
  {
    IndexNamesFrame(db, b, b.names);
  }
}
