// The index database as the object its functions update in place: one field a
// table, each method one statement group of db.py or indexer.py.
module TopologyIndex {
  import opened Text
  import opened Tables
  import opened ResourceIp
  import opened IpColumns
  import opened Journal
  import opened Replay
  import opened Mismatch

  class Index {
    var names: map<string, NameRow>
    var resources: map<string, ResourceRow>
    var ips: set<IpRow>
    var journal: map<Key, PreImage>
    var history: map<int, BlockRecord>
    var meta: Meta

    ghost function Stored(): Tables
      reads this
    {
      Tables(names, resources, ips)
    }

    ghost function Model(): Db
      reads this
    {
      Db(Stored(), journal, history, meta)
    }

    constructor ()
      ensures Model() == Db(Tables(map[], map[], {}), map[], map[], Meta(None, "", "", "", None))
      ensures Sound(Model())
    {
      names, resources, ips := map[], map[], {};
      journal, history := map[], map[];
      meta := Meta(None, "", "", "", None);
    }

    // ------------------------------------------------------------- resources

    // _replace_resource_ip_rows_batch
    method ReplaceResourceIps(rows: seq<ResourceRow>)
      modifies this`ips
      ensures ips == InsertIps(DeleteIps(old(ips), rows), rows)
    {
      for i := 0 to |rows|
        invariant ips == DeleteIps(old(ips), rows[..i])
      {
        assert rows[..i + 1][..i] == rows[..i];
        ips := IpsWithout(ips, rows[i].name);
      }
      assert rows[..|rows|] == rows;
      for i := 0 to |rows|
        invariant ips == InsertIps(DeleteIps(old(ips), rows), rows[..i])
      {
        assert rows[..i + 1][..i] == rows[..i];
        ips := ips + IpRowsOf(rows[i]);
      }
    }

    method UpsertResourceRow(row: ResourceRow)
      modifies this`resources, this`ips
      ensures Stored() == UpsertResource(old(Stored()), row)
    {
      resources := resources[row.name := row];
      ReplaceResourceIps([row]);
      assert [row][..0] == [];
    }

    method UpsertResources(rows: seq<ResourceRow>)
      modifies this`resources, this`ips
      ensures Stored() == UpsertBatch(old(Stored()), rows)
    {
      for i := 0 to |rows|
        invariant resources == UpsertRows(old(resources), rows[..i]) && ips == old(ips)
      {
        assert rows[..i + 1][..i] == rows[..i];
        resources := resources[rows[i].name := rows[i]];
      }
      assert rows[..|rows|] == rows;
      ReplaceResourceIps(rows);
    }

    // _resource_ip_rows_from_mapping: one row's addresses, each once.
    method IpRowsInOrder(row: ResourceRow) returns (r: seq<IpRow>)
      ensures row.name == "" ==> r == []
      ensures row.name != "" ==> Shows(IpSet(r), row.name, row)
      ensures forall x :: x in r <==> HasIp(row, x)
      ensures forall i, j :: 0 <= i < j < |r| ==> r[i] != r[j]
    {
      r := [];
      if row.name == "" { return; }
      var fields := [GLUE4, GLUE6, SYNTH4, SYNTH6];
      for f := 0 to 4
        invariant forall x :: x in r <==>
          x.name == row.name && x.field in fields[..f] && x.ip in Cleaned(Values(row, x.field))
        invariant forall i, j :: 0 <= i < j < |r| ==> r[i] != r[j]
      {
        r := AddFieldRows(row, fields[f], r);
        assert fields[..f + 1] == fields[..f] + [fields[f]];
      }
      assert fields[..4] == fields;
      forall f: Field ensures f in fields {
        match f
        case GLUE4 => assert fields[0] == f;
        case GLUE6 => assert fields[1] == f;
        case SYNTH4 => assert fields[2] == f;
        case SYNTH6 => assert fields[3] == f;
      }
      RowShown(row, IpSet(r));
    }

    method AddFieldRows(row: ResourceRow, field: Field, seen: seq<IpRow>) returns (r: seq<IpRow>)
      requires forall i, j :: 0 <= i < j < |seen| ==> seen[i] != seen[j]
      ensures forall x :: x in r <==> x in seen || x in FieldRows(row, field)
      ensures forall i, j :: 0 <= i < j < |r| ==> r[i] != r[j]
    {
      r := seen;
      var values := Values(row, field);
      for v := 0 to |values|
        invariant forall x :: x in r <==>
          x in seen || (x.name == row.name && x.field == field && x.ip in Cleaned(values[..v]))
        invariant forall i, j :: 0 <= i < j < |r| ==> r[i] != r[j]
      {
        var item := IpRow(row.name, CleanIp(values[v]), field);
        ghost var was := r;
        if item.ip != "" && item !in r { r := r + [item]; }
        assert values[..v + 1] == values[..v] + [values[v]];
        CleanedNext(values[..v], values[v]);
        assert forall x :: x in r <==> x in was || (item.ip != "" && x == item);
      }
      assert values[..|values|] == values;
    }

    // flush() of the rebuild: a plain INSERT, which would raise on a duplicate.
    method InsertIpBatch(batch: seq<IpRow>) returns (count: nat)
      requires forall i, j :: 0 <= i < j < |batch| ==> batch[i] != batch[j]
      requires forall x :: x in batch ==> x !in ips
      modifies this`ips
      ensures forall x :: x in ips <==> x in old(ips) || x in batch
      ensures count == |batch| && |ips| == |old(ips)| + count
    {
      for i := 0 to |batch|
        invariant forall x :: x in ips <==> x in old(ips) || x in batch[..i]
        invariant |ips| == |old(ips)| + i
      {
        assert batch[i] in batch && batch[i] !in batch[..i];
        assert batch[..i + 1] == batch[..i] + [batch[i]];
        ips := ips + {batch[i]};
      }
      assert batch[..|batch|] == batch;
      count := |batch|;
    }

    // One row of the scan; a full batch is flushed.
    method ScanName(ghost done: seq<string>, n: string, batch0: seq<IpRow>, size: int) returns (batch: seq<IpRow>,
          count: nat)
      requires Scanned(resources, ips, batch0, done) && n in resources && resources[n].name == n && n !in done
      modifies this`ips
      ensures Scanned(resources, ips, batch, done + [n]) && |ips| == |old(ips)| + count
    {
      var rows := IpRowsInOrder(resources[n]);
      ScanOneMore(resources, ips, batch0, done, n, rows);
      batch, count := batch0 + rows, 0;
      if |batch| >= size { batch, count := Flush(done + [n], batch); }
    }

    method Flush(ghost done: seq<string>, batch: seq<IpRow>) returns (empty: seq<IpRow>, count: nat)
      requires Scanned(resources, ips, batch, done)
      modifies this`ips
      ensures Scanned(resources, ips, empty, done) && |ips| == |old(ips)| + count && empty == []
    {
      count := InsertIpBatch(batch);
      empty := [];
    }

    // The scan of resource_summary in name order, flushing full batches.
    method ScanInto(ordered: seq<string>, size: int) returns (inserted: nat)
      requires StrictlySorted(ordered) && ips == {}
      requires forall n :: n in ordered ==> n in resources && resources[n].name == n
      modifies this`ips
      ensures Scanned(resources, ips, [], ordered) && inserted == |ips|
    {
      inserted := 0;
      var batch: seq<IpRow> := [];
      var count;
      for i := 0 to |ordered|
        invariant Scanned(resources, ips, batch, ordered[..i]) && inserted == |ips|
      {
        SortedPrefixLacks(ordered, i);
        assert ordered[..i + 1] == ordered[..i] + [ordered[i]];
        batch, count := ScanName(ordered[..i], ordered[i], batch, size);
        inserted := inserted + count;
      }
      assert ordered[..|ordered|] == ordered;
      batch, count := Flush(ordered, batch);
      inserted := inserted + count;
    }

    // The rebuild drops resource_ip and fills it again. Its result does not
    // depend on the batch size, and an index that was in step stays as it was.
    method RebuildResourceIp(batchSize: int) returns (inserted: nat)
      requires KeyedByName(Stored())
      modifies this`ips
      ensures ips == FlattenAll(resources) && inserted == |ips|
      ensures AllShown(ips, resources)
      ensures old(IndexInStep(Stored())) ==> ips == old(ips)
    {
      ghost var before := Stored();
      ips := {};
      LessIsStrictTotal(resources.Keys);
      var ordered := SortSet(resources.Keys, Less);
      assert StrictlySorted(ordered);
      inserted := ScanInto(ordered, if batchSize > 1 then batchSize else 1);
      ScannedAll(resources, ips, ordered);
      IndexInStepIsFlatten(before);
      forall n | n != "" { RebuiltColumns(resources, n); }
    }

    // ------------------------------------------------------------- one block

    method CaptureRollback(b: Block, n: string)
      modifies this`journal
      ensures Model() == Capture(old(Model()), b, n)
    {
      var nameRow := if n in names then Some(names[n]) else None;
      var resourceRow := if n in resources then Some(resources[n]) else None;
      journal := journal[Key(b.height, n) := PreImage(
        Rows(nameRow, resourceRow),
        if nameRow.Some? then nameRow.value.resourceHash else None,
        if nameRow.Some? then Some(nameRow.value.onchainClass) else None,
        b.hash, b.now)];
    }

    // index_one_name; the resource_summary row's foreign key may fail.
    method IndexName(name: string, a: Answer, height: int, now: string) returns (ok: bool)
      modifies this`names, this`resources, this`ips
      ensures ok <==> Links(old(Stored()), name)
      ensures ok ==> Stored() == Journal.IndexOneName(old(Stored()), name, a, height, now)
    {
      var n := NormalizeName(name);
      if n == "" { return true; }
      var rows := Journal.Stored(n, a, height, now);
      names := names[n := rows.name.value];
      ok := rows.resource.value.name in names;
      if ok { UpsertResourceRow(rows.resource.value); }
    }

    method RecordBlockHistory(b: Block, changed: seq<string>)
      modifies this`history
      ensures history == old(history)[b.height := BlockRecord(b.hash, changed, b.now)]
    {
      history := history[b.height := BlockRecord(b.hash, changed, b.now)];
    }

    method PruneReorgMetadata(keep: int, latest: int)
      modifies this`journal, this`history
      ensures Model() == Prune(old(Model()), keep, latest)
    {
      var start := WindowStart(keep, latest);
      history := map h | h in history && h >= start :: history[h];
      journal := map k | k in journal && k.height >= start :: journal[k];
    }

    // index_changed_names inside its transaction: the first node call that
    // raises puts every table back.
    method IndexChangedNames(height: int, hash: string, changed: seq<string>, answers: map<string, Answer>,
          now: string, keep: int) returns (r: Result<nat, string>)
      modifies this
      ensures Model() == IndexBlock(old(Model()), BlockFor(height, hash, changed, answers, now), keep)
      ensures r.Ok? <==> Succeeds(old(Model()), BlockFor(height, hash, changed, answers, now))
      ensures r.Ok? ==> r.value == |NamesFrom(changed)|
    {
      r := IndexPreparedBlock(BlockFor(height, hash, changed, answers, now), keep);
    }

    // The pre-image is captured before the node is asked.
    method IndexNextName(b: Block, n: string) returns (ok: bool)
      modifies this`names, this`resources, this`ips, this`journal
      ensures ok <==> n in b.answers && Links(old(Stored()), n)
      ensures ok ==> Model() == Journal.IndexName(old(Model()), b, n)
    {
      CaptureRollback(b, n);
      if n !in b.answers { return false; }
      ok := IndexName(n, b.answers[n], b.height, b.now);
    }

    // The loop over the block's names; it stops at a node call or a write that
    // raises.
    method IndexNames(b: Block) returns (failed: Option<string>)
      modifies this`names, this`resources, this`ips, this`journal
      ensures failed.None? <==> Succeeds(old(Model()), b)
      ensures failed.None? ==> Model() == Journal.IndexNames(old(Model()), b, b.names)
      ensures failed.Some? ==> failed.value in b.names
    {
      ghost var db, done := Model(), [];
      var i := 0;
      while i < |b.names|
        invariant i <= |b.names| && done == b.names[..i] && NamesDone(db, b, done, Model())
      {
        var ok := IndexNameAfter(b, i, db, done);
        if !ok { return Some(b.names[i]); }
        done, i := done + [b.names[i]], i + 1;
      }
      NamesEnd(db, b, done, Model());
      failed := None;
    }

    // One turn of that loop.
    method IndexNameAfter(b: Block, i: nat, ghost db: Db, ghost done: seq<string>) returns (ok: bool)
      requires i < |b.names| && done == b.names[..i] && NamesDone(db, b, done, Model())
      modifies this`names, this`resources, this`ips, this`journal
      ensures if ok then NamesDone(db, b, done + [b.names[i]], Model()) else !Succeeds(db, b)
    {
      NamesNext(db, b, done, b.names[i], Model());
      if b.names[i] !in b.answers || !Links(Model().t, b.names[i]) { NamesFail(db, b, done, i, Model()); }
      ok := IndexNextName(b, b.names[i]);
    }

    method FinishBlock(b: Block, keep: int)
      modifies this`history, this`meta, this`journal
      ensures Model() == Prune(RecordBlock(old(Model()), b), keep, b.height)
    {
      RecordBlockHistory(b, b.names);
      meta := meta.(lastHeight := Some(b.height), tipHash := b.hash, generatedAt := b.now);
      PruneReorgMetadata(keep, b.height);
    }

    method IndexPreparedBlock(b: Block, keep: int) returns (r: Result<nat, string>)
      modifies this
      ensures Model() == IndexBlock(old(Model()), b, keep)
      ensures r.Ok? <==> Succeeds(old(Model()), b)
      ensures r.Ok? ==> r.value == |b.names|
      ensures r.Err? ==> Model() == old(Model())
    {
      var names0, resources0, ips0, journal0 := names, resources, ips, journal;
      var failed := IndexNames(b);
      if failed.Some? {
        names, resources, ips, journal := names0, resources0, ips0, journal0;
        return Err(failed.value);
      }
      FinishBlock(b, keep);
      r := Ok(|b.names|);
    }

    // ---------------------------------------------------------------- reorgs

    // find_reorg_mismatch: stored hashes against the node, lowest height first.
    method FindReorgMismatch(node: int -> string) returns (m: Option<int>)
      ensures m.Some? ==> FirstMismatch(history, node, m.value)
      ensures m.None? ==> AllMatch(history, node)
    {
      var heights := SortSet(history.Keys, (a, b) => a < b);
      var stored := history;
      assert forall k :: 0 <= k < |heights| ==> heights[k] in heights;
      for i := 0 to |heights|
        invariant forall k :: 0 <= k < i ==> stored[heights[k]].hash == node(heights[k])
      {
        assert heights[i] in heights;
        if node(heights[i]) != stored[heights[i]].hash {
          FirstFound(stored, node, heights, i);
          return Some(heights[i]);
        }
      }
      return None;
    }

    method DeleteNameRow(n: string)
      modifies this`names, this`resources, this`ips
      ensures Stored() == DeleteName(old(Stored()), n)
    {
      names, resources, ips := names - {n}, resources - {n}, IpsWithout(ips, n);
    }

    // One journal row put back.
    method RestoreRow(n: string, previous: Rows)
      modifies this`names, this`resources, this`ips
      ensures Stored() == Restore(old(Stored()), n, previous)
    {
      if previous.name.None? {
        DeleteNameRow(n);
        return;
      }
      names := names[previous.name.value.name := previous.name.value];
      if previous.resource.None? {
        resources, ips := resources - {n}, IpsWithout(ips, n);
      } else {
        UpsertResourceRow(previous.resource.value);
      }
    }

    method ResetMeta(h: int, at: string)
      modifies this`meta
      ensures meta == RollbackMeta(history, old(meta), h, at)
    {
      var remaining := SortSet(history.Keys, (a, b) => a > b);
      if |remaining| == 0 {
        meta := meta.(lastHeight := Some(if h - 1 > 0 then h - 1 else 0), tipHash := "");
      } else {
        assert remaining[0] in history.Keys;
        ghost var top := Max(history.Keys);
        ghost var j :| 0 <= j < |remaining| && remaining[j] == top;
        assert j == 0;
        meta := meta.(lastHeight := Some(remaining[0]), tipHash := history[remaining[0]].hash);
      }
      meta := meta.(rollbackAt := at, rollbackHeight := Some(h));
    }

    method ReplayAll(rows: seq<Key>)
      requires forall k :: k in rows ==> k in journal
      modifies this`names, this`resources, this`ips
      ensures Stored() == ReplayRows(old(Stored()), journal, rows)
    {
      for i := 0 to |rows|
        invariant forall k :: k in rows[..i] ==> k in journal
        invariant Stored() == ReplayRows(old(Stored()), journal, rows[..i])
      {
        assert rows[i] in rows;
        assert rows[..i + 1][..i] == rows[..i];
        assert forall k :: k in rows[..i + 1] ==> k in rows;
        RestoreRow(rows[i].name, journal[rows[i]].rows);
      }
      assert rows[..|rows|] == rows;
    }

    // rollback_to_height
    method RollbackToHeight(h: int, at: string) returns (restored: nat)
      requires Sound(Model())
      modifies this
      ensures Model() == Rollback(old(Model()), h, at)
      ensures restored == |set k | k in old(journal) && k.height >= h|
    {
      var selected := set k | k in journal && k.height >= h;
      BeforeIsStrictTotal(selected);
      var rows := SortSet(selected, Before);
      ReplayIsRollback(Model(), rows, h);
      ReplayAll(rows);
      restored := |rows|;
      history := HistoryBelow(history, h);
      journal := JournalBelow(journal, h);
      ResetMeta(h, at);
    }
  }

  // The rebuild's state after the names `done`: what is inserted or still in
  // the batch is what those names' rows stand for, nothing twice.
  ghost predicate Scanned(resources: map<string, ResourceRow>, ips: set<IpRow>, batch: seq<IpRow>, done: seq<string>) {
    && (forall n :: n in done ==> n in resources)
    && (forall x :: x in ips || x in batch <==> x.name in done && HasIp(resources[x.name], x))
    && (forall x :: x in batch ==> x !in ips)
    && (forall a, b :: 0 <= a < b < |batch| ==> batch[a] != batch[b])
  }

  // The names `done` of a block are indexed.
  ghost predicate NamesDone(db: Db, b: Block, done: seq<string>, e: Db) {
    && LinksAll(db, b, done) && e == Journal.IndexNames(db, b, done)
    && forall n :: n in done ==> n in b.answers
  }

  lemma {:induction false} NamesNext(db: Db, b: Block, done: seq<string>, n: string, e: Db)
    requires NamesDone(db, b, done, e)
    ensures n in b.answers && Links(e.t, n) ==> NamesDone(db, b, done + [n], Journal.IndexName(e, b, n))
  {
    assert (done + [n])[..|done|] == done;
  }

  lemma {:induction false} NamesEnd(db: Db, b: Block, done: seq<string>, e: Db)
    requires done == b.names[..|b.names|] && NamesDone(db, b, done, e)
    ensures Succeeds(db, b) && e == Journal.IndexNames(db, b, b.names)
  {
    assert done == b.names;
  }

  lemma {:induction false} NamesFail(db: Db, b: Block, done: seq<string>, i: nat, e: Db)
    requires i < |b.names| && done == b.names[..i] && NamesDone(db, b, done, e)
    requires b.names[i] !in b.answers || !Links(e.t, b.names[i])
    ensures !Succeeds(db, b)
  {
    assert b.names[i] in b.names;
    if LinksAll(db, b, b.names) { LinksPrefix(db, b, b.names, i); }
  }

  lemma {:induction false} FirstFound(history: map<int, BlockRecord>, node: int -> string, heights: seq<int>, i: nat)
    requires (forall a, b :: 0 <= a < b < |heights| ==> heights[a] < heights[b])
    requires (forall a :: 0 <= a < |heights| ==> heights[a] in history) && forall h :: h in history ==> h in heights
    requires i < |heights| && forall k :: 0 <= k < i ==> history[heights[k]].hash == node(heights[k])
    requires history[heights[i]].hash != node(heights[i])
    ensures FirstMismatch(history, node, heights[i])
  {}

  lemma {:induction false} CleanedNext(values: seq<string>, v: string)
    ensures Cleaned(values + [v]) == Cleaned(values) + (if CleanIp(v) == "" then {} else {CleanIp(v)})
  {}

  lemma {:induction false} SortedPrefixLacks(ordered: seq<string>, i: nat)
    requires StrictlySorted(ordered) && i < |ordered|
    ensures ordered[i] !in ordered[..i]
  {
    if ordered[i] in ordered[..i] {
      var k :| 0 <= k < i && ordered[k] == ordered[i];
      LessIrreflexive(ordered[i]);
    }
  }

  lemma {:induction false} ScannedAll(resources: map<string, ResourceRow>, ips: set<IpRow>, ordered: seq<string>)
    requires Scanned(resources, ips, [], ordered)
    requires forall n :: n in resources ==> resources[n].name == n && n in ordered
    ensures ips == FlattenAll(resources)
  {}

  lemma {:induction false} ScanOneMore(resources: map<string, ResourceRow>, ips: set<IpRow>, batch: seq<IpRow>,
        done: seq<string>,
        n: string, rows: seq<IpRow>)
    requires Scanned(resources, ips, batch, done)
    requires n !in done && n in resources && resources[n].name == n
    requires forall x :: x in rows <==> HasIp(resources[n], x)
    requires forall i, j :: 0 <= i < j < |rows| ==> rows[i] != rows[j]
    ensures Scanned(resources, ips, batch + rows, done + [n])
  {
    assert forall x :: x in batch + rows <==> x in batch || x in rows;
    assert forall m :: m in done + [n] <==> m in done || m == n;
    forall a, b | 0 <= a < b < |batch + rows| ensures (batch + rows)[a] != (batch + rows)[b] {
      if a < |batch| <= b { assert batch[a] in batch && rows[b - |batch|] in rows; }
    }
  }

  lemma {:induction false} LessIsStrictTotal(s: set<string>)
    ensures StrictTotal(s, Less)
  {
    forall x, y | x in s && y in s && x != y ensures Less(x, y) || Less(y, x) { LessTotal(x, y); }
    forall x, y, z | x in s && y in s && z in s && Less(x, y) && Less(y, z) ensures Less(x, z) {
      LessTransitive(x, y, z);
    }
  }
}
