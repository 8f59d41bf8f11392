// Whole runs of the reorg journal: any interleaving of indexed blocks and
// rollbacks, tracked against the database versions it went through.
module JournalRuns {
  import opened Text
  import opened Tables
  import opened Journal

  // The tables as they were just before a block that is still indexed.
  datatype Mark = Mark(height: int, before: Tables)

  function StateAt(marks: seq<Mark>, t: Tables, i: nat): Tables {
    if i < |marks| then marks[i].before else t
  }

  ghost predicate Increasing(marks: seq<Mark>) {
    forall i, j :: 0 <= i < j < |marks| ==> marks[i].height < marks[j].height
  }

  function FirstAt(marks: seq<Mark>, h: int): (i: nat)
    ensures i <= |marks|
    ensures i < |marks| ==> marks[i].height >= h
    ensures forall j :: 0 <= j < i ==> marks[j].height < h
  {
    if marks == [] || marks[0].height >= h then 0 else 1 + FirstAt(marks[1..], h)
  }

  // The tables before the first indexed block at or above `h`.
  function BeforeHeight(marks: seq<Mark>, t: Tables, h: int): Tables {
    StateAt(marks, t, FirstAt(marks, h))
  }

  // The journal rows of one mark are the true pre-images: a name it lists has
  // the rows from before the block, a name it does not list did not change.
  ghost predicate Faithful(db: Db, marks: seq<Mark>, i: nat, n: string)
    requires i < |marks|
  {
    var k := Key(marks[i].height, n);
    if k in db.journal then db.journal[k].rows == Look(marks[i].before, n)
    else Look(StateAt(marks, db.t, i + 1), n) == Look(marks[i].before, n)
  }

  ghost predicate HasMark(marks: seq<Mark>, h: int) {
    exists i :: 0 <= i < |marks| && marks[i].height == h
  }

  ghost predicate Covered(db: Db, marks: seq<Mark>, floor: int) {
    && Increasing(marks)
    && (forall i, n :: 0 <= i < |marks| && marks[i].height >= floor ==> Faithful(db, marks, i, n))
    && (forall k :: k in db.journal && k.height >= floor ==> HasMark(marks, k.height))
  }

  ghost predicate Tracked(db: Db, marks: seq<Mark>, floor: int) {
    && Sound(db)
    && (forall i :: 0 <= i < |marks| ==> Consistent(marks[i].before))
    && Covered(db, marks, floor)
  }

  // ------------------------------------------------- what a rollback restores

  lemma {:induction false} UndoneFrom(db: Db, marks: seq<Mark>, floor: int, h: int, j: nat, n: string)
    requires Covered(db, marks, floor) && h >= floor && j <= |marks|
    requires forall i :: 0 <= i < j ==> marks[i].height < h
    requires j < |marks| ==> marks[j].height >= h
    ensures UndoneRows(db, h, n) == Look(StateAt(marks, db.t, j), n)
    decreases |marks| - j
  {
    var heights := HeightsFrom(db.journal, h, n);
    forall g | g in heights
      ensures j < |marks| && marks[j].height <= g
    {
      assert Key(g, n) in db.journal;
      var i :| 0 <= i < |marks| && marks[i].height == g;
    }
    if j < |marks| {
      var g := marks[j].height;
      assert Faithful(db, marks, j, n);
      if Key(g, n) in db.journal {
        assert g in heights;
        assert Min(heights) == g;
      } else {
        UndoneFrom(db, marks, floor, g + 1, j + 1, n);
        assert HeightsFrom(db.journal, g + 1, n) == heights;
      }
    } else {
      assert heights == {};
    }
  }

  // Rolling back to a retained height gives the tables from before the first
  // block at or above it: names, resource_summary and resource_ip alike.
  lemma {:induction false} RollbackRestores(db: Db, marks: seq<Mark>, floor: int, h: int)
    requires Tracked(db, marks, floor) && h >= floor
    ensures RollbackTables(db, h) == BeforeHeight(marks, db.t, h)
  {
    RollbackTablesRows(db, h);
    forall n
      ensures Look(RollbackTables(db, h), n) == Look(BeforeHeight(marks, db.t, h), n)
    {
      UndoneFrom(db, marks, floor, h, FirstAt(marks, h), n);
    }
    SameRowsSameTables(RollbackTables(db, h), BeforeHeight(marks, db.t, h));
  }

  // Below the oldest journal row a rollback restores no more than it does at
  // that row: what was pruned, or never journaled, stays.
  lemma {:induction false} RollbackBelowFloor(db: Db, h: int, floor: int)
    requires h <= floor
    requires forall k :: k in db.journal ==> k.height >= floor
    ensures RollbackTables(db, h) == RollbackTables(db, floor)
  {
    forall n
      ensures UndoneRows(db, h, n) == UndoneRows(db, floor, n)
    {
      assert HeightsFrom(db.journal, h, n) == HeightsFrom(db.journal, floor, n);
    }
    assert RollbackTables(db, h).names == RollbackTables(db, floor).names;
    assert RollbackTables(db, h).resources == RollbackTables(db, floor).resources;
  }

  // -------------------------------------------------------- what steps keep

  function Higher(a: int, b: int): int { if a > b then a else b }

  predicate Above(marks: seq<Mark>, h: int) { |marks| > 0 ==> marks[|marks| - 1].height < h }

  // The journal has nothing yet at the height of the next block.
  lemma {:induction false} JournalBelowBlock(db: Db, marks: seq<Mark>, floor: int, height: int, k: Key)
    requires Covered(db, marks, floor) && Above(marks, height) && k.height >= floor
    ensures k in db.journal ==> k.height < height
  {}

  lemma {:induction false} IndexCovers(db: Db, marks: seq<Mark>, floor: int, b: Block, d: Db, keep: int)
    requires Covered(db, marks, floor) && Above(marks, b.height)
    requires JournaledChange(db, d, b.height, b.names)
    ensures Covered(Prune(RecordBlock(d, b), keep, b.height), marks + [Mark(b.height, db.t)],
                    Higher(floor, WindowStart(keep, b.height)))
  {
    var names := b.names;
    var e := Prune(RecordBlock(d, b), keep, b.height);
    var floor' := Higher(floor, WindowStart(keep, b.height));
    var marks' := marks + [Mark(b.height, db.t)];
    forall i, n | 0 <= i < |marks'| && marks'[i].height >= floor'
      ensures Faithful(e, marks', i, n)
    {
      var k := Key(marks'[i].height, n);
      if i < |marks| {
        assert Faithful(db, marks, i, n);
        assert marks[i].height < b.height;
        assert StateAt(marks', e.t, i + 1) == StateAt(marks, db.t, i + 1);
      } else if n !in names {
        JournalBelowBlock(db, marks, floor, b.height, k);
      }
    }
    forall k | k in e.journal && k.height >= floor'
      ensures HasMark(marks', k.height)
    {
      if k.height == b.height {
        assert marks'[|marks|].height == k.height;
      } else {
        var j :| 0 <= j < |marks| && marks[j].height == k.height;
        assert marks'[j].height == k.height;
      }
    }
  }

  lemma {:induction false} IndexTracks(db: Db, marks: seq<Mark>, floor: int, b: Block, keep: int)
    requires Tracked(db, marks, floor)
    requires WellCaptured(b) && Succeeds(db, b) && Above(marks, b.height)
    ensures Tracked(IndexBlock(db, b, keep), marks + [Mark(b.height, db.t)],
                    Higher(floor, WindowStart(keep, b.height)))
  {
    IndexNamesEffect(db, b);
    IndexCovers(db, marks, floor, b, IndexNames(db, b, b.names), keep);
  }

  lemma {:induction false} RollbackCovers(db: Db, e: Db, marks: seq<Mark>, floor: int, h: int)
    requires Covered(db, marks, floor) && h >= floor
    requires e.journal == JournalBelow(db.journal, h) && e.t == BeforeHeight(marks, db.t, h)
    ensures Covered(e, marks[..FirstAt(marks, h)], floor)
  {
    var j := FirstAt(marks, h);
    forall i, n | 0 <= i < j && marks[i].height >= floor
      ensures Faithful(e, marks[..j], i, n)
    {
      assert Faithful(db, marks, i, n);
      assert StateAt(marks[..j], e.t, i + 1) == StateAt(marks, db.t, i + 1);
    }
    forall k | k in e.journal && k.height >= floor
      ensures HasMark(marks[..j], k.height)
    {
      var i :| 0 <= i < |marks| && marks[i].height == k.height;
      assert i < j;
      assert marks[..j][i].height == k.height;
    }
  }

  lemma {:induction false} RollbackTracks(db: Db, marks: seq<Mark>, floor: int, h: int, at: string)
    requires Tracked(db, marks, floor) && h >= floor
    ensures Tracked(Rollback(db, h, at), marks[..FirstAt(marks, h)], floor)
  {
    RollbackRestores(db, marks, floor, h);
    RollbackSound(db, h, at);
    RollbackCovers(db, Rollback(db, h, at), marks, floor, h);
  }

  // -------------------------------------------------------------- whole runs

  datatype Event = Index(block: Block, keep: int) | Reorg(height: int, at: string)

  // The database, the versions still undoable and the pruned floor.
  datatype Trace = Trace(db: Db, marks: seq<Mark>, floor: int)

  ghost function Step(s: Trace, e: Event): Trace {
    match e
    case Index(b, keep) =>
      if !Succeeds(s.db, b) then s
      else Trace(IndexBlock(s.db, b, keep), s.marks + [Mark(b.height, s.db.t)],
                 Higher(s.floor, WindowStart(keep, b.height)))
    case Reorg(h, at) =>
      Trace(Rollback(s.db, h, at), s.marks[..FirstAt(s.marks, h)], s.floor)
  }

  // Blocks capture every row before they write it and come above the last block
  // still indexed; rollbacks stay in the window.
  ghost predicate Allowed(s: Trace, e: Event) {
    match e
    case Index(b, _) => Succeeds(s.db, b) ==> WellCaptured(b) && Above(s.marks, b.height)
    case Reorg(h, _) => h >= s.floor
  }

  ghost function Run(s: Trace, events: seq<Event>): Trace
    decreases |events|
  {
    if events == [] then s else Run(Step(s, events[0]), events[1..])
  }

  ghost predicate AllowedRun(s: Trace, events: seq<Event>)
    decreases |events|
  {
    events == [] || (Allowed(s, events[0]) && AllowedRun(Step(s, events[0]), events[1..]))
  }

  // The trace's database is what the operations compute, and nothing else.
  ghost function RunDb(db: Db, events: seq<Event>): Db
    decreases |events|
  {
    if events == [] then db
    else match events[0]
      case Index(b, keep) => RunDb(IndexBlock(db, b, keep), events[1..])
      case Reorg(h, at) => RunDb(Rollback(db, h, at), events[1..])
  }

  lemma {:induction false} RunIsRunDb(s: Trace, events: seq<Event>)
    ensures Run(s, events).db == RunDb(s.db, events)
    decreases |events|
  {
    if events != [] { RunIsRunDb(Step(s, events[0]), events[1..]); }
  }

  lemma {:induction false} RunTracks(s: Trace, events: seq<Event>)
    requires Tracked(s.db, s.marks, s.floor) && AllowedRun(s, events)
    ensures var e := Run(s, events); Tracked(e.db, e.marks, e.floor)
    decreases |events|
  {
    if events != [] {
      match events[0]
      case Index(b, keep) =>
        if Succeeds(s.db, b) { IndexTracks(s.db, s.marks, s.floor, b, keep); }
        RunTracks(Step(s, events[0]), events[1..]);
      case Reorg(h, at) =>
        RollbackTracks(s.db, s.marks, s.floor, h, at);
        RunTracks(Step(s, events[0]), events[1..]);
    }
  }

  function Fresh(db: Db): Trace { Trace(db, [], 0) }

  // Safety over whole runs: after any allowed run from a database without
  // journal rows, a rollback to any retained height restores the tables of the
  // version before the first block at or above that height.
  lemma {:induction false} EveryRollbackRestores(db: Db, events: seq<Event>, h: int)
    requires Sound(db) && db.journal == map[] && AllowedRun(Fresh(db), events)
    requires h >= Run(Fresh(db), events).floor
    ensures var e := Run(Fresh(db), events);
      && e.db == RunDb(db, events)
      && RollbackTables(RunDb(db, events), h) == BeforeHeight(e.marks, e.db.t, h)
      && IndexInStep(RollbackTables(RunDb(db, events), h))
  {
    var e := Run(Fresh(db), events);
    RunIsRunDb(Fresh(db), events);
    RunTracks(Fresh(db), events);
    RollbackRestores(e.db, e.marks, e.floor, h);
    RollbackTablesRows(e.db, h);
  }

  // ------------------------------------------------- blocks one after another

  function IndexBlocks(db: Db, blocks: seq<Block>, keep: int): Db
    decreases |blocks|
  {
    if blocks == [] then db else IndexBlocks(IndexBlock(db, blocks[0], keep), blocks[1..], keep)
  }

  predicate Ascending(blocks: seq<Block>) {
    forall i, j :: 0 <= i < j < |blocks| ==> blocks[i].height < blocks[j].height
  }

  // The blocks can be indexed one after another, and each captures every row
  // before it writes it.
  ghost predicate Usable(db: Db, blocks: seq<Block>, keep: int)
    decreases |blocks|
  {
    blocks == []
    || (&& WellCaptured(blocks[0]) && Succeeds(db, blocks[0])
        && Usable(IndexBlock(db, blocks[0], keep), blocks[1..], keep))
  }

  lemma {:induction false} IndexBlocksAppend(db: Db, a: seq<Block>, b: seq<Block>, keep: int)
    ensures IndexBlocks(db, a + b, keep) == IndexBlocks(IndexBlocks(db, a, keep), b, keep)
    decreases |a|
  {
    if a == [] { assert a + b == b; }
    else {
      assert (a + b)[1..] == a[1..] + b;
      IndexBlocksAppend(IndexBlock(db, a[0], keep), a[1..], b, keep);
    }
  }

  lemma {:induction false} UsableAppend(db: Db, a: seq<Block>, b: seq<Block>, keep: int)
    ensures Usable(db, a + b, keep) <==> Usable(db, a, keep) && Usable(IndexBlocks(db, a, keep), b, keep)
    decreases |a|
  {
    if a == [] { assert a + b == b; }
    else {
      assert (a + b)[1..] == a[1..] + b;
      UsableAppend(IndexBlock(db, a[0], keep), a[1..], b, keep);
    }
  }

  lemma {:induction false} UsableNext(db: Db, init: seq<Block>, last: Block, keep: int)
    requires Usable(db, init, keep) && WellCaptured(last) && Succeeds(IndexBlocks(db, init, keep), last)
    ensures Usable(db, init + [last], keep)
  {
    UsableAppend(db, init, [last], keep);
  }

  // `marks` is `prefix` and then one mark a block, the first holding `t`.
  ghost predicate Extends(prefix: seq<Mark>, t: Tables, blocks: seq<Block>, marks: seq<Mark>) {
    && prefix <= marks && |marks| == |prefix| + |blocks|
    && (forall i :: 0 <= i < |blocks| ==> marks[|prefix| + i].height == blocks[i].height)
    && (|blocks| > 0 ==> marks[|prefix|].before == t)
  }

  lemma {:induction false} ExtendsStep(prefix: seq<Mark>, t: Tables, u: Tables, blocks: seq<Block>, marks: seq<Mark>)
    requires |blocks| > 0
    requires Extends(prefix + [Mark(blocks[0].height, t)], u, blocks[1..], marks)
    ensures Extends(prefix, t, blocks, marks)
  {}

  lemma {:induction false} IndexBlocksTracks(s: Trace, blocks: seq<Block>, keep: int, floor: int)
      returns (marks: seq<Mark>)
    requires Tracked(s.db, s.marks, s.floor) && Usable(s.db, blocks, keep) && Ascending(blocks)
    requires |blocks| > 0 ==> Above(s.marks, blocks[0].height)
    requires floor >= s.floor && forall i :: 0 <= i < |blocks| ==> WindowStart(keep, blocks[i].height) <= floor
    ensures Tracked(IndexBlocks(s.db, blocks, keep), marks, floor)
    ensures Extends(s.marks, s.db.t, blocks, marks)
    decreases |blocks|
  {
    if blocks == [] {
      marks := s.marks;
    } else {
      IndexTracks(s.db, s.marks, s.floor, blocks[0], keep);
      var s' := Step(s, Index(blocks[0], keep));
      marks := IndexBlocksTracks(s', blocks[1..], keep, floor);
      ExtendsStep(s.marks, s.db.t, s'.db.t, blocks, marks);
    }
  }

  lemma {:induction false} FirstAtExtension(prefix: seq<Mark>, t: Tables, u: Tables, blocks: seq<Block>,
        marks: seq<Mark>, h: int)
    requires Extends(prefix, t, blocks, marks) && |blocks| > 0
    requires Increasing(marks) && Above(prefix, h) && h <= blocks[0].height
    ensures BeforeHeight(marks, u, h) == t
  {}

  // Indexing any ascending blocks and rolling back to the first one's height
  // is the identity on the tables.
  lemma {:induction false} RollbackUndoesBlocks(s: Trace, blocks: seq<Block>, keep: int, h: int)
    requires Tracked(s.db, s.marks, s.floor) && Usable(s.db, blocks, keep) && Ascending(blocks) && |blocks| > 0
    requires Above(s.marks, h) && h <= blocks[0].height
    requires h >= s.floor && h >= WindowStart(keep, blocks[|blocks| - 1].height)
    ensures RollbackTables(IndexBlocks(s.db, blocks, keep), h) == s.db.t
  {
    forall i | 0 <= i < |blocks| ensures WindowStart(keep, blocks[i].height) <= h {}
    var marks := IndexBlocksTracks(s, blocks, keep, h);
    var e := IndexBlocks(s.db, blocks, keep);
    RollbackRestores(e, marks, h, h);
    FirstAtExtension(s.marks, s.db.t, e.t, blocks, marks, h);
  }
}
