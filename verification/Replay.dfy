// The rollback loop replays journal rows one by one, newest height first; this
// relates it to the oldest-pre-image form used by the theorems.
module Replay {
  import opened Text
  import opened Tables
  import opened Journal

  // ORDER BY height DESC, name ASC
  predicate Before(a: Key, b: Key) {
    a.height > b.height || (a.height == b.height && Less(a.name, b.name))
  }

  lemma {:induction false} BeforeIsStrictTotal(s: set<Key>)
    ensures StrictTotal(s, Before)
  {
    forall x, y | x in s && y in s && x != y ensures Before(x, y) || Before(y, x) {
      LessTotal(x.name, y.name);
    }
    forall x, y, z | x in s && y in s && z in s && Before(x, y) && Before(y, z) ensures Before(x, z) {
      if x.height == y.height == z.height { LessTransitive(x.name, y.name, z.name); }
    }
  }

  // The loop after the given journal rows.
  function ReplayRows(t: Tables, journal: map<Key, PreImage>, keys: seq<Key>): Tables
    requires forall k :: k in keys ==> k in journal
  {
    if keys == [] then t
    else
      var last := keys[|keys| - 1];
      assert forall k :: k in keys[..|keys| - 1] ==> k in keys;
      Restore(ReplayRows(t, journal, keys[..|keys| - 1]), last.name, journal[last].rows)
  }

  ghost function HeightsIn(keys: seq<Key>, n: string): set<int> {
    set k | k in keys && k.name == n :: k.height
  }

  ghost predicate Replayed(t: Tables, journal: map<Key, PreImage>, keys: seq<Key>, u: Tables, n: string)
    requires forall k :: k in keys ==> k in journal
  {
    var heights := HeightsIn(keys, n);
    if heights == {} then Look(u, n) == Look(t, n)
    else Key(Min(heights), n) in journal && Look(u, n) == journal[Key(Min(heights), n)].rows
  }

  lemma {:induction false} ReplayLook(db: Db, keys: seq<Key>)
    requires Sound(db) && OrderedBy(keys, Before)
    requires forall k :: k in keys ==> k in db.journal
    ensures var u := ReplayRows(db.t, db.journal, keys);
      Consistent(u) && forall n :: Replayed(db.t, db.journal, keys, u, n)
  {
    if keys != [] {
      var m := |keys| - 1;
      var last := keys[m];
      var init := keys[..m];
      assert keys == init + [last];
      ReplayLook(db, init);
      var v := ReplayRows(db.t, db.journal, init);
      var u := ReplayRows(db.t, db.journal, keys);
      RestoreLook(v, last.name, db.journal[last].rows);
      forall n ensures Replayed(db.t, db.journal, keys, u, n) {
        if n == last.name {
          forall g | g in HeightsIn(keys, n) ensures last.height <= g {
            var k :| k in keys && k.name == n && k.height == g;
            var i :| 0 <= i < |keys| && keys[i] == k;
          }
          assert last.height in HeightsIn(keys, n);
          assert Min(HeightsIn(keys, n)) == last.height;
        } else {
          assert HeightsIn(keys, n) == HeightsIn(init, n);
          assert Replayed(db.t, db.journal, init, v, n);
        }
      }
    }
  }

  // The replay of all rows at or above `h` is the rollback.
  lemma {:induction false} ReplayIsRollback(db: Db, keys: seq<Key>, h: int)
    requires Sound(db) && OrderedBy(keys, Before)
    requires forall k :: k in keys <==> k in db.journal && k.height >= h
    ensures ReplayRows(db.t, db.journal, keys) == RollbackTables(db, h)
  {
    var u := ReplayRows(db.t, db.journal, keys);
    ReplayLook(db, keys);
    RollbackTablesRows(db, h);
    forall n ensures Look(u, n) == Look(RollbackTables(db, h), n) {
      assert Replayed(db.t, db.journal, keys, u, n);
      assert HeightsIn(keys, n) == HeightsFrom(db.journal, h, n);
    }
    SameRowsSameTables(u, RollbackTables(db, h));
  }
}
