// The reorg journal as functions on database values: what indexing one block,
// pruning the window and rolling back to a height compute.
module Journal {
  import opened Text
  import opened Tables

  // What the node and the classifier say about one name: the row contents,
  // before the index stamps them with the name, the height and the time.
  datatype Answer = Answer(name: NameRow, resource: ResourceRow)

  // A name without an answer is a node call that raises.
  datatype Block = Block(
    height: int, hash: string, names: seq<string>, answers: map<string, Answer>, now: string)

  datatype Key = Key(height: int, name: string)

  datatype PreImage = PreImage(
    rows: Rows, resourceHash: Option<string>, classification: Option<string>,
    blockHash: string, capturedAt: string)

  datatype BlockRecord = BlockRecord(hash: string, changed: seq<string>, indexedAt: string)

  datatype Meta = Meta(
    lastHeight: Option<int>, tipHash: string, generatedAt: string,
    rollbackAt: string, rollbackHeight: Option<int>)

  datatype Db = Db(
    t: Tables, journal: map<Key, PreImage>, history: map<int, BlockRecord>, meta: Meta)

  // ------------------------------------------------------------------- names

  function NormalizeName(s: string): string {
    Lower(TrimRight(TrimLeft(Strip(s), Dots), Dots))
  }

  function Normalized(changed: seq<string>): seq<string> {
    if changed == [] then []
    else (if Strip(changed[0]) != "" then [NormalizeName(changed[0])] else []) + Normalized(changed[1..])
  }

  // The list of names index_changed_names works through.
  function NamesFrom(changed: seq<string>): (names: seq<string>)
    ensures StrictlySorted(names)
  {
    SortUnique(Normalized(changed))
  }

  function BlockFor(height: int, hash: string, changed: seq<string>, answers: map<string, Answer>, now: string): Block {
    Block(height, hash, NamesFrom(changed), answers, now)
  }

  predicate Complete(b: Block) { forall n :: n in b.names ==> n in b.answers }

  // Normalising once more changes nothing (or leaves nothing to write): the
  // name that is captured is the name that is written.
  predicate Stable(n: string) { NormalizeName(n) == n || NormalizeName(n) == "" }

  ghost predicate StableBlock(b: Block) {
    StrictlySorted(b.names) && forall n :: n in b.names ==> Stable(n)
  }

  // --------------------------------------------------------------- one block

  function Capture(db: Db, b: Block, n: string): Db {
    var rows := Look(db.t, n);
    db.(journal := db.journal[Key(b.height, n) := PreImage(
      rows,
      if rows.name.Some? then rows.name.value.resourceHash else None,
      if rows.name.Some? then Some(rows.name.value.onchainClass) else None,
      b.hash, b.now)])
  }

  // What the answer stores: the names row under `n`, the resource_summary row
  // under that name normalised again.
  function Stored(n: string, a: Answer, height: int, now: string): Rows {
    Rows(Some(a.name.(name := n, resourceHash := Some(a.resource.resourceHash),
                      lastSeenHeight := Some(height), updatedAt := now)),
         Some(a.resource.(name := NormalizeName(n))))
  }

  // The foreign key of the resource_summary row holds behind the names row.
  predicate Links(t: Tables, name: string) {
    var n := NormalizeName(name);
    n == "" || NormalizeName(n) == n || NormalizeName(n) in t.names
  }

  function WriteRows(t: Tables, rows: Rows): Tables
    requires rows.name.Some? && rows.resource.Some?
  {
    UpsertResource(UpsertName(t, rows.name.value), rows.resource.value)
  }

  function IndexOneName(t: Tables, name: string, a: Answer, height: int, now: string): Tables {
    var n := NormalizeName(name);
    if n == "" || !Links(t, name) then t else WriteRows(t, Stored(n, a, height, now))
  }

  function IndexName(db: Db, b: Block, n: string): Db {
    var c := Capture(db, b, n);
    if n !in b.answers then c
    else c.(t := IndexOneName(c.t, n, b.answers[n], b.height, b.now))
  }

  function IndexNames(db: Db, b: Block, names: seq<string>): Db {
    if names == [] then db
    else IndexName(IndexNames(db, b, names[..|names| - 1]), b, names[|names| - 1])
  }

  function RecordBlock(db: Db, b: Block): Db {
    db.(history := db.history[b.height := BlockRecord(b.hash, b.names, b.now)],
        meta := db.meta.(lastHeight := Some(b.height), tipHash := b.hash, generatedAt := b.now))
  }

  function WindowStart(keep: int, latest: int): int { if latest - keep > 0 then latest - keep else 0 }

  function Prune(db: Db, keep: int, latest: int): Db {
    var start := WindowStart(keep, latest);
    db.(history := map h | h in db.history && h >= start :: db.history[h],
        journal := map k | k in db.journal && k.height >= start :: db.journal[k])
  }

  // No write of the names violates the foreign key.
  predicate LinksAll(db: Db, b: Block, names: seq<string>) {
    names == []
    || (LinksAll(db, b, names[..|names| - 1]) && Links(IndexNames(db, b, names[..|names| - 1]).t, names[|names| - 1]))
  }

  predicate Succeeds(db: Db, b: Block) { Complete(b) && LinksAll(db, b, b.names) }

  // One transaction: a block with a failing node call, or a resource_summary
  // row without its names row, leaves no trace.
  function IndexBlock(db: Db, b: Block, keep: int): Db {
    if !Succeeds(db, b) then db
    else Prune(RecordBlock(IndexNames(db, b, b.names), b), keep, b.height)
  }

  // ---------------------------------------------------------------- rollback

  ghost function HeightsFrom(journal: map<Key, PreImage>, h: int, n: string): set<int> {
    set k | k in journal && k.name == n && k.height >= h :: k.height
  }

  // The rows of `n` after the rollback: its oldest pre-image at or above `h`.
  ghost function UndoneRows(db: Db, h: int, n: string): Rows {
    var heights := HeightsFrom(db.journal, h, n);
    if heights == {} then Look(db.t, n) else db.journal[Key(Min(heights), n)].rows
  }

  ghost function RollbackTables(db: Db, h: int): Tables {
    var dom := db.t.names.Keys + set k | k in db.journal :: k.name;
    var names := map n | n in dom && UndoneRows(db, h, n).name.Some? :: UndoneRows(db, h, n).name.value;
    var resources := map n | n in dom && UndoneRows(db, h, n).resource.Some? :: UndoneRows(db, h, n).resource.value;
    Tables(names, resources, FlattenAll(resources))
  }

  ghost function RollbackMeta(history: map<int, BlockRecord>, meta: Meta, h: int, at: string): Meta {
    var m := if |history.Keys| == 0
      then meta.(lastHeight := Some(if h - 1 > 0 then h - 1 else 0), tipHash := "")
      else meta.(lastHeight := Some(Max(history.Keys)), tipHash := history[Max(history.Keys)].hash);
    m.(rollbackAt := at, rollbackHeight := Some(h))
  }

  function HistoryBelow(history: map<int, BlockRecord>, h: int): map<int, BlockRecord> {
    map k | k in history && k < h :: history[k]
  }

  function JournalBelow(journal: map<Key, PreImage>, h: int): map<Key, PreImage> {
    map k | k in journal && k.height < h :: journal[k]
  }

  ghost function Rollback(db: Db, h: int, at: string): Db {
    var history := HistoryBelow(db.history, h);
    Db(RollbackTables(db, h), JournalBelow(db.journal, h), history, RollbackMeta(history, db.meta, h, at))
  }

  // ---------------------------------------------------------- what they keep

  ghost predicate Sound(db: Db) {
    && Consistent(db.t)
    && forall k :: k in db.journal ==> RowsFor(db.journal[k].rows, k.name)
  }

  // One name's rows with what a write puts in their place.
  function Written(before: Rows, rows: Rows, x: string): Rows
    requires rows.name.Some? && rows.resource.Some?
  {
    Rows(if rows.name.value.name == x then rows.name else before.name,
         if rows.resource.value.name == x then rows.resource else before.resource)
  }

  lemma {:induction false} WriteRowsLook(t: Tables, rows: Rows)
    requires Consistent(t) && rows.name.Some? && rows.resource.Some?
    requires rows.resource.value.name == rows.name.value.name || rows.resource.value.name in t.names
    ensures Consistent(WriteRows(t, rows))
    ensures forall m :: Look(WriteRows(t, rows), m) == Written(Look(t, m), rows, m)
  {
    UpsertNameKeepsConsistent(t, rows.name.value);
    UpsertResourceKeepsConsistent(UpsertName(t, rows.name.value), rows.resource.value);
  }

  // A name's rows after one name of a block was indexed, whatever that is.
  function Overwritten(before: Rows, name: string, a: Answer, height: int, now: string, x: string): Rows {
    var n := NormalizeName(name);
    if n == "" then before else Written(before, Stored(n, a, height, now), x)
  }

  lemma {:induction false} IndexOneNameLook(t: Tables, n: string, a: Answer, height: int, now: string)
    requires Consistent(t)
    ensures var u := IndexOneName(t, n, a, height, now);
      && Consistent(u)
      && (Links(t, n) ==> forall x :: Look(u, x) == Overwritten(Look(t, x), n, a, height, now, x))
  {
    var m := NormalizeName(n);
    if m != "" && Links(t, n) { WriteRowsLook(t, Stored(m, a, height, now)); }
  }

  lemma {:induction false} StableLinks(t: Tables, n: string)
    requires Stable(n)
    ensures Links(t, n)
  {}

  // Names that normalisation leaves alone never violate the foreign key.
  lemma {:induction false} StableLinksAll(db: Db, b: Block, names: seq<string>)
    requires forall n :: n in names ==> Stable(n)
    ensures LinksAll(db, b, names)
  {
    if names != [] {
      var last := |names| - 1;
      assert names[last] in names;
      StableLinksAll(db, b, names[..last]);
      StableLinks(IndexNames(db, b, names[..last]).t, names[last]);
    }
  }

  lemma {:induction false} LinksPrefix(db: Db, b: Block, names: seq<string>, k: nat)
    requires LinksAll(db, b, names) && k < |names|
    ensures LinksAll(db, b, names[..k]) && Links(IndexNames(db, b, names[..k]).t, names[k])
    decreases |names|
  {
    if k < |names| - 1 {
      var init := names[..|names| - 1];
      assert init[..k] == names[..k];
      LinksPrefix(db, b, init, k);
    }
  }

  lemma {:induction false} StableSucceeds(db: Db, b: Block)
    requires StableBlock(b)
    ensures Succeeds(db, b) <==> Complete(b)
  {
    StableLinksAll(db, b, b.names);
  }

  ghost predicate SameKeysExcept(j: map<Key, PreImage>, j': map<Key, PreImage>, height: int, names: seq<string>) {
    forall k: Key :: k.height != height || k.name !in names ==>
      (k in j' <==> k in j) && (k in j ==> j'[k] == j[k])
  }

  // What the name loop of one block does, whatever the names are: only rows of
  // names it lists change, and each gets the pre-image it had before the block.
  ghost predicate JournaledChange(db: Db, e: Db, height: int, names: seq<string>) {
    && Sound(e) && e.history == db.history && e.meta == db.meta
    && (forall n :: n !in names ==> Look(e.t, n) == Look(db.t, n))
    && (forall n :: n in names ==> Key(height, n) in e.journal && e.journal[Key(height, n)].rows == Look(db.t, n))
    && SameKeysExcept(db.journal, e.journal, height, names)
  }

  lemma {:induction false} IndexNamesSound(db: Db, b: Block, names: seq<string>)
    requires Sound(db)
    ensures Sound(IndexNames(db, b, names))
  {
    if names != [] {
      var d, n := IndexNames(db, b, names[..|names| - 1]), names[|names| - 1];
      IndexNamesSound(db, b, names[..|names| - 1]);
      LookRowsFor(d.t, n);
      if n in b.answers { IndexOneNameLook(d.t, n, b.answers[n], b.height, b.now); }
    }
  }

  // ------------------------------------------------- what a block journals

  lemma {:induction false} IndexNamesFrame(db: Db, b: Block, names: seq<string>)
    ensures var e := IndexNames(db, b, names);
      && e.history == db.history && e.meta == db.meta
      && forall k: Key :: k.height != b.height ==>
        (k in e.journal <==> k in db.journal) && (k in db.journal ==> e.journal[k] == db.journal[k])
  {
    if names != [] { IndexNamesFrame(db, b, names[..|names| - 1]); }
  }

  // The rows of `x` after the first `k` names of a block, from the block alone.
  function Overlay(before: Rows, b: Block, k: nat, x: string): Rows
    requires Complete(b) && k <= |b.names|
  {
    if k == 0 then before
    else
      var name := b.names[k - 1];
      Overwritten(Overlay(before, b, k - 1, x), name, b.answers[name], b.height, b.now, x)
  }

  // The position of a name; their number if it is not listed.
  function CapturedAt(names: seq<string>, x: string): (k: nat)
    ensures k <= |names| && (k < |names| ==> names[k] == x)
    ensures forall j :: 0 <= j < k ==> names[j] != x
  {
    if names == [] || names[0] == x then 0 else 1 + CapturedAt(names[1..], x)
  }

  // The database after the first `k` names.
  function After(db: Db, b: Block, k: nat): Db
    requires k <= |b.names|
  {
    IndexNames(db, b, b.names[..k])
  }

  lemma {:induction false} AfterNext(db: Db, b: Block, k: nat)
    requires k < |b.names|
    ensures After(db, b, k + 1) == IndexName(After(db, b, k), b, b.names[k])
  {
    assert b.names[..k + 1][..k] == b.names[..k];
  }

  lemma {:induction false} AfterLook(db: Db, b: Block, k: nat, x: string)
    requires Sound(db) && Succeeds(db, b) && k <= |b.names|
    ensures Look(After(db, b, k).t, x) == Overlay(Look(db.t, x), b, k, x)
  {
    if k == 0 {
      assert b.names[..0] == [];
    } else {
      AfterLook(db, b, k - 1, x);
      AfterNext(db, b, k - 1);
      LinksPrefix(db, b, b.names, k - 1);
      var d, name := After(db, b, k - 1), b.names[k - 1];
      assert name in b.names;
      IndexNamesSound(db, b, b.names[..k - 1]);
      IndexOneNameLook(d.t, name, b.answers[name], b.height, b.now);
    }
  }

  // Capturing one name journals its rows and touches no other pre-image.
  lemma {:induction false} CaptureStep(d: Db, b: Block, n: string, x: string)
    ensures var e, key := IndexName(d, b, n), Key(b.height, x);
      if n == x then key in e.journal && e.journal[key].rows == Look(d.t, x) else SamePreImage(d, e, key)
  {}

  predicate SamePreImage(d: Db, e: Db, key: Key) {
    (key in e.journal <==> key in d.journal) && (key in d.journal ==> e.journal[key] == d.journal[key])
  }

  lemma {:induction false} NotYetCaptured(db: Db, b: Block, k: nat, x: string)
    requires k <= CapturedAt(b.names, x)
    ensures SamePreImage(db, After(db, b, k), Key(b.height, x))
  {
    if k == 0 {
      assert b.names[..0] == [];
    } else {
      NotYetCaptured(db, b, k - 1, x);
      AfterNext(db, b, k - 1);
      CaptureStep(After(db, b, k - 1), b, b.names[k - 1], x);
    }
  }

  // The names are distinct, so a pre-image stays what its capture made it.
  lemma {:induction false} CapturedStays(db: Db, b: Block, i: nat, k: nat)
    requires StrictlySorted(b.names) && i < k <= |b.names|
    ensures var key := Key(b.height, b.names[i]);
      key in After(db, b, k).journal && After(db, b, k).journal[key].rows == Look(After(db, b, i).t, b.names[i])
  {
    AfterNext(db, b, k - 1);
    CaptureStep(After(db, b, k - 1), b, b.names[k - 1], b.names[i]);
    if i < k - 1 {
      CapturedStays(db, b, i, k - 1);
      if b.names[i] == b.names[k - 1] { StrictlySortedDistinct(b.names, i, k - 1); }
    }
  }

  // Every row is written under a name that is captured by then.
  predicate CapturedFirst(b: Block, j: nat)
    requires j < |b.names|
  {
    var n := NormalizeName(b.names[j]);
    n == "" || (CapturedAt(b.names, n) <= j && CapturedAt(b.names, NormalizeName(n)) <= j)
  }

  // normalize_name trims spaces before dots but not after, so a name it leaves
  // with an outer space is captured as it is, its names row written under the
  // name normalised twice and its resource_summary row three times.
  ghost predicate WellCaptured(b: Block) {
    StrictlySorted(b.names) && forall j :: 0 <= j < |b.names| ==> CapturedFirst(b, j)
  }

  lemma {:induction false} NothingWritten(before: Rows, b: Block, k: nat, x: string)
    requires Complete(b) && k <= CapturedAt(b.names, x)
    requires WellCaptured(b)
    ensures Overlay(before, b, k, x) == before
  {
    if k > 0 {
      NothingWritten(before, b, k - 1, x);
      assert CapturedFirst(b, k - 1);
    }
  }

  lemma {:induction false} CapturedBy(names: seq<string>, j: nat)
    requires j < |names|
    ensures CapturedAt(names, names[j]) <= j
  {}

  // Names that normalising again leaves alone are captured before they are
  // written.
  lemma {:induction false} StableIsWellCaptured(b: Block)
    requires StableBlock(b)
    ensures WellCaptured(b)
  {
    forall j | 0 <= j < |b.names| ensures CapturedFirst(b, j) {
      assert Stable(b.names[j]);
      CapturedBy(b.names, j);
    }
  }

  lemma {:induction false} IndexNamesEffectOn(db: Db, b: Block, n: string)
    requires Sound(db) && WellCaptured(b) && Succeeds(db, b)
    ensures var e, key := IndexNames(db, b, b.names), Key(b.height, n);
      if n in b.names then key in e.journal && e.journal[key].rows == Look(db.t, n)
      else Look(e.t, n) == Look(db.t, n)
           && (key in e.journal <==> key in db.journal) && (key in db.journal ==> e.journal[key] == db.journal[key])
  {
    var k, i := |b.names|, CapturedAt(b.names, n);
    assert b.names[..k] == b.names;
    if i < k { CapturedStays(db, b, i, k); } else { NotYetCaptured(db, b, k, n); }
    AfterLook(db, b, i, n);
    NothingWritten(Look(db.t, n), b, i, n);
  }

  // A block that captures before it writes: only rows of names it lists change,
  // and each of these gets the pre-image it had before the block.
  lemma {:induction false} IndexNamesEffect(db: Db, b: Block)
    requires Sound(db) && WellCaptured(b) && Succeeds(db, b)
    ensures JournaledChange(db, IndexNames(db, b, b.names), b.height, b.names)
  {
    IndexNamesSound(db, b, b.names);
    IndexNamesFrame(db, b, b.names);
    forall n { IndexNamesEffectOn(db, b, n); }
  }

  // Whatever its names are, a block keeps the foreign keys and resource_ip in
  // step, and journals rows that a rollback can put back.
  lemma {:induction false} IndexBlockSound(db: Db, b: Block, keep: int)
    requires Sound(db)
    ensures Sound(IndexBlock(db, b, keep))
  {
    IndexNamesSound(db, b, b.names);
  }

  lemma {:induction false} UndoneRowsFor(db: Db, h: int, n: string)
    requires Sound(db)
    ensures RowsFor(UndoneRows(db, h, n), n)
    ensures UndoneRows(db, h, n).name.Some? ==> n in db.t.names.Keys + set k | k in db.journal :: k.name
  {}

  // The rolled-back tables give every name its oldest pre-image, keep the
  // foreign keys and keep resource_ip in step.
  lemma {:induction false} RollbackTablesRows(db: Db, h: int)
    requires Sound(db)
    ensures Consistent(RollbackTables(db, h))
    ensures forall n :: Look(RollbackTables(db, h), n) == UndoneRows(db, h, n)
  {
    var t := RollbackTables(db, h);
    forall n
      ensures Look(t, n) == UndoneRows(db, h, n)
      ensures n in t.names ==> t.names[n].name == n
      ensures n in t.resources ==> t.resources[n].name == n && n in t.names
    {
      UndoneRowsFor(db, h, n);
    }
    IndexInStepIsFlatten(t);
  }

  lemma {:induction false} RollbackSound(db: Db, h: int, at: string)
    requires Sound(db)
    ensures Sound(Rollback(db, h, at))
  {
    RollbackTablesRows(db, h);
  }
}
