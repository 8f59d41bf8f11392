// How much history the index keeps: which rows a block leaves of the history
// and the journal, and how far back every rollback restores.
module Retention {
  import opened Text
  import opened Tables
  import opened Journal
  import opened JournalRuns

  // After a block that succeeds the history holds the kept heights it held, and
  // the block's own.
  lemma {:induction false} HistoryKept(db: Db, b: Block, keep: int, h: int)
    requires Succeeds(db, b)
    ensures var e := IndexBlock(db, b, keep);
      && (h in e.history <==> h >= 0 && h >= b.height - keep && (h == b.height || h in db.history))
      && (h in e.history ==> e.history[h] == if h == b.height then BlockRecord(b.hash, b.names, b.now)
                                             else db.history[h])
  {
    IndexNamesFrame(db, b, b.names);
  }

  // A pre-image taken for block `b`: the rows before it, their two columns of
  // their own, the block and its time.
  ghost predicate TakenFor(p: PreImage, b: Block, before: Rows) {
    && p.rows == before && p.blockHash == b.hash && p.capturedAt == b.now
    && p.resourceHash == (if before.name.Some? then before.name.value.resourceHash else None)
    && p.classification == (if before.name.Some? then Some(before.name.value.onchainClass) else None)
  }

  // Whatever its rows are, a pre-image of the block is taken for it.
  lemma {:induction false} CapturesAre(db: Db, b: Block, names: seq<string>, n: string)
    requires n in names
    ensures var e, k := IndexNames(db, b, names), Key(b.height, n);
      k in e.journal && TakenFor(e.journal[k], b, e.journal[k].rows)
  {
    var last := |names| - 1;
    if n != names[last] {
      assert names == names[..last] + [names[last]];
      CapturesAre(db, b, names[..last], n);
    }
  }

  // The journal holds the kept rows it held, and for each name of the block what
  // the name was before it.
  lemma {:induction false} JournalKept(db: Db, b: Block, keep: int, k: Key)
    requires Sound(db) && WellCaptured(b) && Succeeds(db, b)
    ensures var e, own := IndexBlock(db, b, keep), k.height == b.height && k.name in b.names;
      && (k in e.journal <==> k.height >= 0 && k.height >= b.height - keep && (own || k in db.journal))
      && (k in e.journal ==> if own then TakenFor(e.journal[k], b, Look(db.t, k.name))
                             else e.journal[k] == db.journal[k])
  {
    IndexNamesEffect(db, b);
    if k.height == b.height && k.name in b.names { CapturesAre(db, b, b.names, k.name); }
  }

  // A rollback drops history and journal from its height on.
  lemma {:induction false} RolledBackRows(db: Db, h: int, at: string, k: Key)
    ensures var e := Rollback(db, h, at);
      && (k.height in e.history <==> k.height < h && k.height in db.history)
      && (k.height in e.history ==> e.history[k.height] == db.history[k.height])
      && (k in e.journal <==> k.height < h && k in db.journal)
      && (k in e.journal ==> e.journal[k] == db.journal[k])
  {}

  // The last indexed block is then the highest one left, or with none left the
  // height below.
  lemma {:induction false} RolledBackMeta(db: Db, h: int, at: string)
    ensures var e := Rollback(db, h, at);
      && e.meta.rollbackAt == at && e.meta.rollbackHeight == Some(h) && e.meta.generatedAt == db.meta.generatedAt
      && (if forall g :: g !in e.history then
            e.meta.lastHeight == Some(if h > 0 then h - 1 else 0) && e.meta.tipHash == ""
          else exists g :: g in e.history && (forall f :: f in e.history ==> f <= g)
                           && e.meta.lastHeight == Some(g) && e.meta.tipHash == db.history[g].hash)
  {
    var left := HistoryBelow(db.history, h);
    if |left.Keys| == 0 { assert forall g :: g !in left; } else { Inhabited(left.Keys); }
  }

  // ------------------------------------------------------------- whole runs

  // The highest height ever indexed, once an event happened to `db`.
  ghost function NextTop(db: Db, e: Event, top: Option<int>): Option<int> {
    if e.Reorg? || !Succeeds(db, e.block) || (top.Some? && top.value >= e.block.height) then top
    else Some(e.block.height)
  }

  ghost function TopAfter(s: Trace, events: seq<Event>, top: Option<int>): Option<int>
    decreases |events|
  {
    if events == [] then top else TopAfter(Step(s, events[0]), events[1..], NextTop(s.db, events[0], top))
  }

  predicate Reachable(h: int, top: Option<int>, keep: int) { h >= 0 && (top.Some? ==> h >= top.value - keep) }

  // A block comes above the last one still indexed; a rollback goes no further
  // back than `keep` below the highest height ever indexed.
  ghost predicate Keeps(s: Trace, e: Event, keep: int, top: Option<int>) {
    match e
    case Index(b, k) => k == keep && (Succeeds(s.db, b) ==> WellCaptured(b) && Above(s.marks, b.height))
    case Reorg(h, _) => Reachable(h, top, keep)
  }

  ghost predicate KeepRun(s: Trace, events: seq<Event>, keep: int, top: Option<int>)
    decreases |events|
  {
    events == []
    || (&& Keeps(s, events[0], keep, top)
        && KeepRun(Step(s, events[0]), events[1..], keep, NextTop(s.db, events[0], top)))
  }

  // The pruned floor stays within reach.
  lemma {:induction false} StepReachable(s: Trace, e: Event, keep: int, top: Option<int>)
    requires Keeps(s, e, keep, top) && forall g :: Reachable(g, top, keep) ==> g >= s.floor
    ensures Allowed(s, e)
    ensures forall g :: Reachable(g, NextTop(s.db, e, top), keep) ==> g >= Step(s, e).floor
  {
    forall g | Reachable(g, NextTop(s.db, e, top), keep) ensures g >= Step(s, e).floor {
      assert Reachable(g, top, keep);
    }
  }

  lemma {:induction false} FloorIsReachable(s: Trace, events: seq<Event>, keep: int, top: Option<int>, h: int)
    requires KeepRun(s, events, keep, top) && Reachable(h, TopAfter(s, events, top), keep)
    requires forall g :: Reachable(g, top, keep) ==> g >= s.floor
    ensures AllowedRun(s, events) && h >= Run(s, events).floor
    decreases |events|
  {
    if events != [] {
      StepReachable(s, events[0], keep, top);
      FloorIsReachable(Step(s, events[0]), events[1..], keep, NextTop(s.db, events[0], top), h);
    }
  }

  // After any such run from a database without journal rows, a rollback to any
  // nonnegative height at most `keep` below the highest one ever indexed
  // restores the tables from before the first block at or above it.
  lemma {:induction false} KeptBlocksAreUndone(db: Db, events: seq<Event>, keep: int, h: int)
    requires Sound(db) && db.journal == map[] && KeepRun(Fresh(db), events, keep, None)
    requires h >= 0
    requires var top := TopAfter(Fresh(db), events, None); top.Some? ==> h >= top.value - keep
    ensures RollbackTables(RunDb(db, events), h)
         == BeforeHeight(Run(Fresh(db), events).marks, RunDb(db, events).t, h)
  {
    FloorIsReachable(Fresh(db), events, keep, None, h);
    EveryRollbackRestores(db, events, h);
  }
}
