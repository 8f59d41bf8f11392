// What one block stores, column by column, and which names it is about.
module BlockColumns {
  import opened Text
  import opened Tables
  import opened Journal

  // The names of a block: every changed name that is not blank, normalised,
  // each once and in order.
  lemma {:induction false} NamesAre(changed: seq<string>, n: string)
    ensures n in NamesFrom(changed) <==>
      exists i :: 0 <= i < |changed| && Strip(changed[i]) != ""
                  && n == Lower(TrimRight(TrimLeft(Strip(changed[i]), Dots), Dots))
    ensures StrictlySorted(NamesFrom(changed))
  {
    NormalizedHas(changed, n);
  }

  lemma {:induction false} NormalizedHas(changed: seq<string>, n: string)
    ensures n in Normalized(changed) <==>
      exists i :: 0 <= i < |changed| && Strip(changed[i]) != "" && n == NormalizeName(changed[i])
  {
    if changed != [] {
      NormalizedHas(changed[1..], n);
      if i :| 0 <= i < |changed| && Strip(changed[i]) != "" && n == NormalizeName(changed[i]) {
        if i > 0 { assert changed[1..][i - 1] == changed[i]; }
      }
    }
  }

  // The names row: what the answer says, under this name, with the hash of the
  // resource, the height of the block and its time.
  ghost predicate NamedBy(row: NameRow, n: string, a: Answer, b: Block) {
    && row.name == n && row.nameHash == a.name.nameHash && row.state == a.name.state
    && row.renewalHeight == a.name.renewalHeight && row.expired == a.name.expired
    && row.recordTypes == a.name.recordTypes && row.onchainClass == a.name.onchainClass
    && row.providerGuess == a.name.providerGuess
    && row.resourceHash == Some(a.resource.resourceHash)
    && row.lastSeenHeight == Some(b.height) && row.updatedAt == b.now
  }

  // The resource_summary row: what the answer says, under this name.
  ghost predicate Summarized(row: ResourceRow, n: string, a: Answer) {
    && row.name == n && row.nsNames == a.resource.nsNames
    && row.glue4 == a.resource.glue4 && row.glue6 == a.resource.glue6
    && row.synth4 == a.resource.synth4 && row.synth6 == a.resource.synth6
    && row.dsRecords == a.resource.dsRecords && row.hasDs == a.resource.hasDs && row.hasNs == a.resource.hasNs
    && row.hasGlue == a.resource.hasGlue && row.hasSynth == a.resource.hasSynth && row.hasTxt == a.resource.hasTxt
    && row.rawSize == a.resource.rawSize && row.resourceVersion == a.resource.resourceVersion
    && row.resourceHash == a.resource.resourceHash
  }

  ghost predicate Answered(rows: Rows, n: string, a: Answer, b: Block) {
    && rows.name.Some? && NamedBy(rows.name.value, n, a, b)
    && rows.resource.Some? && Summarized(rows.resource.value, n, a)
  }

  lemma {:induction false} StoredColumns(n: string, a: Answer, b: Block)
    requires NormalizeName(n) == n
    ensures Answered(Stored(n, a, b.height, b.now), n, a, b)
  {}

  // A stable name writes its own rows and no other's.
  lemma {:induction false} OverlayNext(before: Rows, b: Block, k: nat, n: string)
    requires Complete(b) && k < |b.names| && Stable(b.names[k]) && n == NormalizeName(n) && n != ""
    ensures Overlay(before, b, k + 1, n) == if b.names[k] == n then Stored(n, b.answers[n], b.height, b.now)
                                            else Overlay(before, b, k, n)
  {}

  // States that change to `rows` where `n` is listed and nowhere else.
  ghost predicate Rewrites(states: seq<Rows>, names: seq<string>, n: string, rows: Rows) {
    && |states| == |names| + 1
    && forall k {:trigger names[k]} :: 0 <= k < |names| ==> states[k + 1] == if names[k] == n then rows else states[k]
  }

  lemma {:induction false} LastState(states: seq<Rows>, names: seq<string>, n: string, rows: Rows, k: nat)
    requires Rewrites(states, names, n, rows) && k <= |names|
    ensures states[k] == if exists i :: 0 <= i < k && names[i] == n then rows else states[0]
  {
    if k > 0 {
      LastState(states, names, n, rows, k - 1);
      assert states[k] == if names[k - 1] == n then rows else states[k - 1];
    }
  }

  lemma {:induction false} OverlayOfStable(before: Rows, b: Block, n: string, rows: Rows)
    requires StableBlock(b) && Complete(b) && n == NormalizeName(n) && n != ""
    requires n in b.names ==> rows == Stored(n, b.answers[n], b.height, b.now)
    ensures Overlay(before, b, |b.names|, n) == if n in b.names then rows else before
  {
    var states := seq(|b.names| + 1, k requires 0 <= k <= |b.names| => Overlay(before, b, k, n));
    forall k | 0 <= k < |b.names| ensures states[k + 1] == if b.names[k] == n then rows else states[k] {
      assert b.names[k] in b.names;
      OverlayNext(before, b, k, n);
    }
    LastState(states, b.names, n, rows, |b.names|);
  }

  // After a block of names that normalising again leaves alone, each of them has
  // the rows its answer gave, and every other name the rows it had.
  lemma {:induction false} BlockStores(db: Db, b: Block, keep: int, n: string)
    requires Sound(db) && StableBlock(b) && Complete(b) && n == NormalizeName(n) && n != ""
    ensures var rows := Look(IndexBlock(db, b, keep).t, n);
      if n in b.names then Answered(rows, n, b.answers[n], b) else rows == Look(db.t, n)
    ensures var meta := IndexBlock(db, b, keep).meta;
      meta.lastHeight == Some(b.height) && meta.tipHash == b.hash && meta.generatedAt == b.now
  {
    var k := |b.names|;
    StableSucceeds(db, b);
    assert b.names[..k] == b.names;
    AfterLook(db, b, k, n);
    var rows := if n in b.answers then Stored(n, b.answers[n], b.height, b.now) else Rows(None, None);
    OverlayOfStable(Look(db.t, n), b, n, rows);
    if n in b.names { StoredColumns(n, b.answers[n], b); }
  }

  // A block raises exactly if a node call fails or a resource_summary row would
  // have no names row when it is written: its name, normalised once more,
  // changes and is not stored by then.
  lemma {:induction false} RaisesIff(db: Db, b: Block)
    ensures Succeeds(db, b) <==>
      && (forall i :: 0 <= i < |b.names| ==> b.names[i] in b.answers)
      && StoresTo(db, b, |b.names|)
  {
    LinksTo(db, b, |b.names|);
    assert b.names[..|b.names|] == b.names;
  }

  // The name's row can be written when its turn comes.
  predicate Stores(t: Tables, name: string) {
    var n := NormalizeName(name);
    n != "" && NormalizeName(n) != n ==> NormalizeName(n) in t.names
  }

  lemma {:induction false} LinksNext(db: Db, b: Block, k: nat)
    requires k < |b.names|
    ensures LinksAll(db, b, b.names[..k + 1]) <==>
      LinksAll(db, b, b.names[..k]) && Stores(After(db, b, k).t, b.names[k])
  {
    assert b.names[..k + 1][..k] == b.names[..k];
  }

  // It is so for the first `k` names.
  ghost predicate StoresTo(db: Db, b: Block, k: nat)
    requires k <= |b.names|
  {
    k == 0 || (StoresTo(db, b, k - 1) && Stores(After(db, b, k - 1).t, b.names[k - 1]))
  }

  lemma {:induction false} LinksTo(db: Db, b: Block, k: nat)
    requires k <= |b.names|
    ensures LinksAll(db, b, b.names[..k]) <==> StoresTo(db, b, k)
  {
    if k > 0 {
      LinksTo(db, b, k - 1);
      LinksNext(db, b, k - 1);
    }
  }
}
