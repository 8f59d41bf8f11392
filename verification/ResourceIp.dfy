// The batch upsert of resource_summary rows and what it does to the derived
// resource_ip rows.
module ResourceIp {
  import opened Text
  import opened Tables

  function UpsertRows(resources: map<string, ResourceRow>, rows: seq<ResourceRow>): map<string, ResourceRow> {
    if rows == [] then resources
    else UpsertRows(resources, rows[..|rows| - 1])[rows[|rows| - 1].name := rows[|rows| - 1]]
  }

  function DeleteIps(ips: set<IpRow>, rows: seq<ResourceRow>): set<IpRow> {
    if rows == [] then ips else IpsWithout(DeleteIps(ips, rows[..|rows| - 1]), rows[|rows| - 1].name)
  }

  function InsertIps(ips: set<IpRow>, rows: seq<ResourceRow>): set<IpRow> {
    if rows == [] then ips else InsertIps(ips, rows[..|rows| - 1]) + IpRowsOf(rows[|rows| - 1])
  }

  // All upserts, then all deletes, then all inserts.
  function UpsertBatch(t: Tables, rows: seq<ResourceRow>): Tables {
    t.(resources := UpsertRows(t.resources, rows), ips := InsertIps(DeleteIps(t.ips, rows), rows))
  }

  function UpsertOneByOne(t: Tables, rows: seq<ResourceRow>): Tables {
    if rows == [] then t else UpsertResource(UpsertOneByOne(t, rows[..|rows| - 1]), rows[|rows| - 1])
  }

  predicate Named(rows: seq<ResourceRow>, n: string) {
    exists i :: 0 <= i < |rows| && rows[i].name == n
  }

  predicate LastFor(rows: seq<ResourceRow>, j: int, n: string) {
    0 <= j < |rows| && rows[j].name == n && forall k :: j < k < |rows| ==> rows[k].name != n
  }

  // A row that is repeated later in the batch has no address the last one of
  // its name lacks.
  ghost predicate RepeatsAddNothing(rows: seq<ResourceRow>) {
    forall i, j :: 0 <= i < |rows| && LastFor(rows, j, rows[i].name) ==> IpRowsOf(rows[i]) <= IpRowsOf(rows[j])
  }

  predicate DistinctNames(rows: seq<ResourceRow>) {
    forall i, j :: 0 <= i < j < |rows| ==> rows[i].name != rows[j].name
  }

  lemma {:induction false} LastExists(rows: seq<ResourceRow>, i: nat) returns (j: nat)
    requires i < |rows|
    ensures i <= j && LastFor(rows, j, rows[i].name)
    decreases |rows| - i
  {
    if LastFor(rows, i, rows[i].name) { j := i; }
    else {
      var k :| i < k < |rows| && rows[k].name == rows[i].name;
      j := LastExists(rows, k);
    }
  }

  lemma {:induction false} BatchRows(resources: map<string, ResourceRow>, rows: seq<ResourceRow>)
    ensures var r := UpsertRows(resources, rows);
      && (forall n :: n in r <==> n in resources || Named(rows, n))
      && (forall n :: n in resources && !Named(rows, n) ==> r[n] == resources[n])
      && (forall n, j :: LastFor(rows, j, n) ==> n in r && r[n] == rows[j])
  {
    if rows != [] {
      var m := |rows| - 1;
      var init := rows[..m];
      BatchRows(resources, init);
      var r := UpsertRows(resources, rows);
      assert rows == init + [rows[m]];
      forall n ensures Named(rows, n) <==> Named(init, n) || rows[m].name == n {
        if Named(init, n) { var i :| 0 <= i < |init| && init[i].name == n; assert rows[i].name == n; }
      }
      forall n, j | LastFor(rows, j, n) ensures n in r && r[n] == rows[j] {
        if j < m { assert rows[m].name != n; assert LastFor(init, j, n); }
      }
    }
  }

  lemma {:induction false} BatchIps(ips: set<IpRow>, rows: seq<ResourceRow>)
    ensures forall x :: x in DeleteIps(ips, rows) <==> x in ips && !Named(rows, x.name)
    ensures forall x :: x in InsertIps(ips, rows) <==> x in ips || exists i :: 0 <= i < |rows| && HasIp(rows[i], x)
  {
    if rows != [] {
      var m := |rows| - 1;
      var init := rows[..m];
      BatchIps(ips, init);
      forall x: IpRow { RowsNext(rows, x); }
    }
  }

  lemma {:induction false} RowsNext(rows: seq<ResourceRow>, x: IpRow)
    requires rows != []
    ensures var m := |rows| - 1;
      && (Named(rows, x.name) <==> Named(rows[..m], x.name) || rows[m].name == x.name)
      && ((exists i :: 0 <= i < |rows| && HasIp(rows[i], x)) <==>
        (exists i :: 0 <= i < m && HasIp(rows[..m][i], x)) || HasIp(rows[m], x))
  {}

  // The batch keeps resource_ip in step if and only if repeated names add
  // nothing; otherwise the union of their addresses stays.
  lemma {:induction false} BatchInStepIff(t: Tables, rows: seq<ResourceRow>)
    requires Consistent(t) && forall i :: 0 <= i < |rows| ==> rows[i].name in t.names
    ensures Consistent(UpsertBatch(t, rows)) <==> RepeatsAddNothing(rows)
  {
    var u := UpsertBatch(t, rows);
    BatchRows(t.resources, rows);
    BatchIps(t.ips, rows);
    BatchIps(DeleteIps(t.ips, rows), rows);
    assert KeyedByName(u) && ForeignKeys(u) by {
      forall n | n in u.resources ensures u.resources[n].name == n && n in u.names {
        if Named(rows, n) {
          var i :| 0 <= i < |rows| && rows[i].name == n;
          var j := LastExists(rows, i);
        }
      }
    }
    forall x ensures x in u.ips <==>
      (if Named(rows, x.name) then exists i :: 0 <= i < |rows| && HasIp(rows[i], x) else x in t.ips) {}
    if RepeatsAddNothing(rows) { BatchKeepsStep(t, rows); }
    if Consistent(u) {
      forall i, j | 0 <= i < |rows| && LastFor(rows, j, rows[i].name)
        ensures IpRowsOf(rows[i]) <= IpRowsOf(rows[j])
      {
        forall x | x in IpRowsOf(rows[i]) ensures x in IpRowsOf(rows[j]) {
          assert Named(rows, x.name) && HasIp(rows[i], x);
          assert x in u.ips;
        }
      }
    }
  }

  lemma {:induction false} BatchKeepsStep(t: Tables, rows: seq<ResourceRow>)
    requires Consistent(t) && RepeatsAddNothing(rows)
    ensures IndexInStep(UpsertBatch(t, rows))
  {
    var u := UpsertBatch(t, rows);
    BatchRows(t.resources, rows);
    BatchIps(t.ips, rows);
    BatchIps(DeleteIps(t.ips, rows), rows);
    forall x ensures x in u.ips <==> x.name in u.resources && HasIp(u.resources[x.name], x) {
      if Named(rows, x.name) {
        var i :| 0 <= i < |rows| && rows[i].name == x.name;
        var j := LastExists(rows, i);
        assert u.resources[x.name] == rows[j];
        if k :| 0 <= k < |rows| && HasIp(rows[k], x) {
          assert LastFor(rows, j, rows[k].name);
          assert x in IpRowsOf(rows[k]) && x in IpRowsOf(rows[j]);
        }
      }
    }
  }

  // With distinct names the batch is the same as one upsert after another.
  lemma {:induction false} DistinctBatchIsSequence(t: Tables, rows: seq<ResourceRow>)
    requires Consistent(t) && DistinctNames(rows)
    requires forall i :: 0 <= i < |rows| ==> rows[i].name in t.names
    ensures Consistent(UpsertBatch(t, rows)) && UpsertBatch(t, rows) == UpsertOneByOne(t, rows)
  {
    BatchInStepIff(t, rows);
    assert RepeatsAddNothing(rows) by {
      forall i, j | 0 <= i < |rows| && LastFor(rows, j, rows[i].name) ensures i == j {}
    }
    OneByOneRows(t, rows);
    var u, v := UpsertBatch(t, rows), UpsertOneByOne(t, rows);
    forall n ensures Look(u, n) == Look(v, n) {}
    SameRowsSameTables(u, v);
  }

  lemma {:induction false} OneByOneRows(t: Tables, rows: seq<ResourceRow>)
    requires Consistent(t) && forall i :: 0 <= i < |rows| ==> rows[i].name in t.names
    ensures var v := UpsertOneByOne(t, rows);
      Consistent(v) && v.names == t.names && v.resources == UpsertRows(t.resources, rows)
  {
    if rows != [] {
      var m := |rows| - 1;
      OneByOneRows(t, rows[..m]);
      UpsertResourceKeepsConsistent(UpsertOneByOne(t, rows[..m]), rows[m]);
    }
  }
}
