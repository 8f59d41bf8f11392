// Where the journal stops restoring, each with the exact condition.
module JournalLimits {
  import opened Text
  import opened Tables
  import opened Journal
  import opened JournalRuns
  import opened Convergence

  ghost predicate NothingJournaledFrom(db: Db, h: int) {
    forall k :: k in db.journal ==> k.height < h
  }

  lemma {:induction false} RestoredIff(db: Db, h: int, t: Tables)
    requires Sound(db) && Consistent(t)
    ensures RollbackTables(db, h) == t <==> forall n :: UndoneRows(db, h, n) == Look(t, n)
  {
    RollbackTablesRows(db, h);
    if forall n :: UndoneRows(db, h, n) == Look(t, n) {
      forall n ensures Look(RollbackTables(db, h), n) == Look(t, n) {
        assert UndoneRows(db, h, n) == Look(t, n);
      }
      SameRowsSameTables(RollbackTables(db, h), t);
    }
  }

  // The oldest pre-image at or above `h` when all of them are at `h`.
  lemma {:induction false} UndoneAtTop(db: Db, h: int, n: string)
    requires forall k :: k in db.journal ==> k.height <= h
    ensures UndoneRows(db, h, n) == if Key(h, n) in db.journal then db.journal[Key(h, n)].rows else Look(db.t, n)
  {
    var heights := HeightsFrom(db.journal, h, n);
    if Key(h, n) in db.journal {
      assert h in heights;
      assert Min(heights) == h;
    } else {
      assert forall g :: g !in heights;
      assert heights == {};
    }
  }

  // One indexed block on top of a database with no journal row at its height:
  // what the rollback to that height gives each name.
  lemma {:induction false} UndoneAfterBlock(db: Db, b: Block, keep: int, n: string)
    requires Sound(db) && WellCaptured(b) && Succeeds(db, b)
    requires (forall k :: k in db.journal ==> k.height <= b.height) && WindowStart(keep, b.height) <= b.height
    ensures var e := IndexBlock(db, b, keep);
      && (forall k :: k in e.journal ==> k.height <= b.height)
      && UndoneRows(e, b.height, n) ==
           (if n in b.names then Look(db.t, n)
            else if Key(b.height, n) in db.journal then db.journal[Key(b.height, n)].rows
            else Look(db.t, n))
      && (n in b.names ==> Key(b.height, n) in e.journal && e.journal[Key(b.height, n)].rows == Look(db.t, n))
      && (n !in b.names ==>
            (Key(b.height, n) in e.journal <==> Key(b.height, n) in db.journal) && Look(e.t, n) == Look(db.t, n))
  {
    IndexNamesEffect(db, b);
    UndoneAtTop(IndexBlock(db, b, keep), b.height, n);
  }

  // INSERT OR REPLACE on (height, name): a second block at the same height
  // overwrites the pre-images of the names both blocks change. The rollback
  // restores the tables if and only if the first block left those rows as
  // they were.
  lemma {:induction false} SameHeightTwiceRestoresIff(db: Db, b: Block, c: Block, keep: int, h: int)
    requires Sound(db) && NothingJournaledFrom(db, h)
    requires b.height == h && c.height == h && WindowStart(keep, h) <= h
    requires WellCaptured(b) && Succeeds(db, b) && WellCaptured(c) && Succeeds(IndexBlock(db, b, keep), c)
    ensures var mid := IndexBlock(db, b, keep);
      RollbackTables(IndexBlock(mid, c, keep), h) == db.t <==>
        forall n :: n in b.names && n in c.names ==> Look(mid.t, n) == Look(db.t, n)
  {
    var mid := IndexBlock(db, b, keep);
    var e := IndexBlock(mid, c, keep);
    IndexBlockSound(db, b, keep);
    IndexBlockSound(mid, c, keep);
    forall n
      ensures UndoneRows(e, h, n) == Look(db.t, n) <==>
        (n in b.names && n in c.names ==> Look(mid.t, n) == Look(db.t, n))
    {
      UndoneAfterBlock(db, b, keep, n);
      UndoneAfterBlock(mid, c, keep, n);
      assert Key(h, n) !in db.journal;
    }
    RestoredIff(e, h, db.t);
  }

  // ------------------------------------------------ blocks of any names at all

  // What the rollback gives each name: its rows when it was captured, or at
  // the end if it never was.
  lemma {:induction false} UndoneAfterAnyBlock(db: Db, b: Block, keep: int, x: string)
    requires Sound(db) && NothingJournaledFrom(db, b.height) && WindowStart(keep, b.height) <= b.height
    requires StrictlySorted(b.names) && Succeeds(db, b)
    ensures UndoneRows(IndexBlock(db, b, keep), b.height, x) == Overlay(Look(db.t, x), b, CapturedAt(b.names, x), x)
  {
    var k, e := |b.names|, IndexBlock(db, b, keep);
    assert b.names[..k] == b.names;
    var i := CapturedAt(b.names, x);
    if i < k { CapturedStays(db, b, i, k); } else { NotYetCaptured(db, b, k, x); }
    AfterLook(db, b, i, x);
    IndexNamesFrame(db, b, b.names);
    assert Key(b.height, x) !in db.journal;
    UndoneAtTop(e, b.height, x);
  }

  // A rollback behind any block that was indexed restores the tables if and
  // only if no name is written, before its own capture or without one, with
  // rows it did not have.
  lemma {:induction false} AnyBlockRestoresIff(db: Db, b: Block, keep: int)
    requires Sound(db) && NothingJournaledFrom(db, b.height) && WindowStart(keep, b.height) <= b.height
    requires StrictlySorted(b.names) && Succeeds(db, b)
    ensures RollbackTables(IndexBlock(db, b, keep), b.height) == db.t <==>
      forall x :: Overlay(Look(db.t, x), b, CapturedAt(b.names, x), x) == Look(db.t, x)
  {
    var e := IndexBlock(db, b, keep);
    IndexBlockSound(db, b, keep);
    RestoredIff(e, b.height, db.t);
    forall x
      ensures UndoneRows(e, b.height, x) == Look(db.t, x) <==>
        Overlay(Look(db.t, x), b, CapturedAt(b.names, x), x) == Look(db.t, x)
    {
      UndoneAfterAnyBlock(db, b, keep, x);
    }
  }

  // Then the rollback restores the tables, whatever the block wrote: also for a
  // name that changes when normalised again, if that name comes first.
  lemma {:induction false} CapturedFirstRestores(db: Db, b: Block, keep: int)
    requires Sound(db) && NothingJournaledFrom(db, b.height) && WindowStart(keep, b.height) <= b.height
    requires StrictlySorted(b.names) && Succeeds(db, b)
    requires forall j :: 0 <= j < |b.names| ==> CapturedFirst(b, j)
    ensures RollbackTables(IndexBlock(db, b, keep), b.height) == db.t
  {
    AnyBlockRestoresIff(db, b, keep);
    forall x ensures Overlay(Look(db.t, x), b, CapturedAt(b.names, x), x) == Look(db.t, x) {
      NothingWritten(Look(db.t, x), b, CapturedAt(b.names, x), x);
    }
  }

  lemma {:induction false} StaysWritten(before: Rows, b: Block, j: nat, k: nat)
    requires Complete(b) && j < k <= |b.names| && NormalizeName(b.names[j]) != ""
    ensures Overlay(before, b, k, NormalizeName(b.names[j])).name.Some?
  {
    if j < k - 1 { StaysWritten(before, b, j, k - 1); }
  }

  // A name that was unknown and is written before its capture stays behind.
  lemma {:induction false} EarlyNameStays(db: Db, b: Block, keep: int, j: nat)
    requires Sound(db) && NothingJournaledFrom(db, b.height) && WindowStart(keep, b.height) <= b.height
    requires StrictlySorted(b.names) && Succeeds(db, b) && j < |b.names|
    requires var x := NormalizeName(b.names[j]); x != "" && j < CapturedAt(b.names, x) && x !in db.t.names
    ensures NormalizeName(b.names[j]) in RollbackTables(IndexBlock(db, b, keep), b.height).names
    ensures RollbackTables(IndexBlock(db, b, keep), b.height) != db.t
  {
    var x, e := NormalizeName(b.names[j]), IndexBlock(db, b, keep);
    IndexBlockSound(db, b, keep);
    UndoneAfterAnyBlock(db, b, keep, x);
    StaysWritten(Look(db.t, x), b, j, CapturedAt(b.names, x));
    RollbackTablesRows(e, b.height);
    assert Look(RollbackTables(e, b.height), x).name.Some?;
  }

  lemma {:induction false} OneNameLinks(db: Db, b: Block, n: string)
    requires b.names == [n] && Links(db.t, n)
    ensures LinksAll(db, b, b.names)
  {
    assert b.names[..0] == [] && LinksAll(db, b, []) && IndexNames(db, b, []) == db;
  }

  lemma {:induction false} CapturedNowhere(n: string, x: string)
    requires n != x
    ensures CapturedAt([n], x) == 1
  {
    assert [n][1..] == [];
  }

  // Such a block: the changed name "foo ." on an empty index. It is captured as
  // "foo " and written as "foo", which the rollback leaves.
  lemma {:induction false} RollbackLeavesFoo(answers: map<string, Answer>, hash: string, now: string, keep: int)
    requires "foo " in answers && keep >= 0
    ensures var db := Db(Tables(map[], map[], {}), map[], map[], Meta(None, "", "", "", None));
      var b := BlockFor(1, hash, ["foo ."], answers, now);
      && Sound(db) && Succeeds(db, b)
      && "foo" !in db.t.names && "foo" in RollbackTables(IndexBlock(db, b, keep), 1).names
  {
    var db := Db(Tables(map[], map[], {}), map[], map[], Meta(None, "", "", "", None));
    var b := BlockFor(1, hash, ["foo ."], answers, now);
    SpaceThenDotIsUnstable();
    OneNameLinks(db, b, "foo ");
    CapturedNowhere("foo ", "foo");
    EarlyNameStays(db, b, keep, 0);
  }

  lemma {:induction false} SpaceThenDotIsUnstable()
    ensures NamesFrom(["foo ."]) == ["foo "] && NormalizeName("foo ") == "foo" && NormalizeName("foo") == "foo"
  {
    assert Strip("foo .") == "foo ." by {
      assert TrimLeft("foo .", Spaces) == "foo .";
      assert TrimRight("foo .", Spaces) == "foo .";
    }
    assert TrimRight("foo .", Dots) == "foo " by {
      assert "foo ."[..4] == "foo ";
      assert TrimRight("foo ", Dots) == "foo ";
    }
    assert TrimLeft("foo .", Dots) == "foo .";
    LowerWord();
    assert NormalizeName("foo .") == "foo ";
    assert Normalized(["foo ."][1..]) == [];
    assert Normalized(["foo ."]) == ["foo "];
    assert SortUnique(["foo "]) == ["foo "];
    assert TrimRight("foo ", Spaces) == "foo" by {
      assert "foo "[..3] == "foo";
      assert TrimRight("foo", Spaces) == "foo";
    }
    assert TrimLeft("foo ", Spaces) == "foo ";
    assert TrimLeft("foo", Dots) == "foo" && TrimRight("foo", Dots) == "foo";
    assert TrimLeft("foo", Spaces) == "foo";
  }

  lemma {:induction false} LowerWord()
    ensures Lower("foo ") == "foo " && Lower("foo") == "foo"
  {}

  // The bootstrap import fills block_history without journal rows. A mismatch
  // found there moves last_indexed_height below `h` and leaves every row as
  // the abandoned blocks left it.
  lemma {:induction false} ImportedHistoryRestoresNothing(db: Db, h: int, at: string)
    requires Sound(db) && NothingJournaledFrom(db, h) && h >= 1
    ensures var e := Rollback(db, h, at);
      && e.t == db.t && e.journal == db.journal
      && (forall g :: g in e.history ==> g < h)
      && e.meta.lastHeight.Some? && ((forall g :: g in db.history ==> g >= 0) ==> 0 <= e.meta.lastHeight.value < h)
  {
    forall n ensures UndoneRows(db, h, n) == Look(db.t, n) {
      assert forall g :: g !in HeightsFrom(db.journal, h, n);
      assert HeightsFrom(db.journal, h, n) == {};
    }
    RestoredIff(db, h, db.t);
    assert JournalBelow(db.journal, h) == db.journal;
    var kept := HistoryBelow(db.history, h);
    if |kept.Keys| != 0 { assert Max(kept.Keys) in kept; }
  }
}
