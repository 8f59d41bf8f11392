// What resource_ip holds, read off the four address columns of
// resource_summary.
module IpColumns {
  import opened Text
  import opened Tables
  import opened ResourceIp

  // Some entry of the column is this address once trimmed and lowered.
  predicate Lists(column: seq<string>, ip: string) {
    ip != "" && exists v :: v in column && Lower(Strip(v)) == ip
  }

  // The addresses stored under a name are those its columns list, each with the
  // field of its column.
  ghost predicate ColumnsOf(ips: set<IpRow>, n: string, glue4: seq<string>, glue6: seq<string>, synth4: seq<string>,
        synth6: seq<string>) {
    forall ip ::
      && (IpRow(n, ip, GLUE4) in ips <==> Lists(glue4, ip))
      && (IpRow(n, ip, GLUE6) in ips <==> Lists(glue6, ip))
      && (IpRow(n, ip, SYNTH4) in ips <==> Lists(synth4, ip))
      && (IpRow(n, ip, SYNTH6) in ips <==> Lists(synth6, ip))
  }

  ghost predicate Shows(ips: set<IpRow>, n: string, row: ResourceRow) {
    ColumnsOf(ips, n, row.glue4, row.glue6, row.synth4, row.synth6)
  }

  lemma {:induction false} RowShown(row: ResourceRow, ips: set<IpRow>)
    requires row.name != "" && forall x: IpRow :: x.name == row.name ==> (x in ips <==> HasIp(row, x))
    ensures Shows(ips, row.name, row)
  {
    forall ip
      ensures IpRow(row.name, ip, GLUE4) in ips <==> Lists(row.glue4, ip)
      ensures IpRow(row.name, ip, GLUE6) in ips <==> Lists(row.glue6, ip)
      ensures IpRow(row.name, ip, SYNTH4) in ips <==> Lists(row.synth4, ip)
      ensures IpRow(row.name, ip, SYNTH6) in ips <==> Lists(row.synth6, ip)
    {
      CleanedLists(row.glue4, ip);
      CleanedLists(row.glue6, ip);
      CleanedLists(row.synth4, ip);
      CleanedLists(row.synth6, ip);
    }
  }

  lemma {:induction false} CleanedLists(column: seq<string>, ip: string)
    ensures ip in Cleaned(column) <==> Lists(column, ip)
  {}

  // After the upsert of a row its name has exactly its columns' addresses, and
  // the other names have theirs.
  lemma {:induction false} UpsertedColumns(t: Tables, row: ResourceRow)
    requires row.name != ""
    ensures var ips := UpsertResource(t, row).ips;
      && Shows(ips, row.name, row)
      && forall x: IpRow :: x.name != row.name ==> (x in ips <==> x in t.ips)
  {
    RowShown(row, UpsertResource(t, row).ips);
  }

  // In a consistent database, which every operation leaves, all names do, and a
  // name without resource_summary row has none.
  lemma {:induction false} ConsistentColumns(t: Tables, n: string)
    requires Consistent(t) && n != ""
    ensures n in t.resources ==> Shows(t.ips, n, t.resources[n])
    ensures n !in t.resources ==> ColumnsOf(t.ips, n, [], [], [], [])
  {
    if n in t.resources { RowShown(t.resources[n], t.ips); }
  }

  // What the rebuild writes, from resource_summary alone.
  lemma {:induction false} RebuiltColumns(resources: map<string, ResourceRow>, n: string)
    requires (forall m :: m in resources ==> resources[m].name == m) && n != ""
    ensures n in resources ==> Shows(FlattenAll(resources), n, resources[n])
    ensures n !in resources ==> ColumnsOf(FlattenAll(resources), n, [], [], [], [])
  {
    forall x ensures x in FlattenAll(resources) <==> x.name in resources && HasIp(resources[x.name], x) {
      FlattenAllHas(resources, x);
    }
    if n in resources { RowShown(resources[n], FlattenAll(resources)); }
  }

  function IpSet(rows: seq<IpRow>): set<IpRow> { set x | x in rows }

  // Those of all names.
  ghost predicate AllShown(ips: set<IpRow>, resources: map<string, ResourceRow>) {
    forall n :: n != "" ==>
      if n in resources then Shows(ips, n, resources[n]) else ColumnsOf(ips, n, [], [], [], [])
  }

  // Some row of the batch has this name and lists the address.
  ghost predicate BatchLists(rows: seq<ResourceRow>, n: string, column: ResourceRow -> seq<string>, ip: string) {
    exists i :: 0 <= i < |rows| && rows[i].name == n && Lists(column(rows[i]), ip)
  }

  // A batch leaves every address that any of its rows of a name lists, a name
  // it repeats the union over its rows.
  lemma {:induction false} BatchColumns(t: Tables, rows: seq<ResourceRow>, n: string, ip: string)
    requires n != "" && Named(rows, n)
    ensures var ips := UpsertBatch(t, rows).ips;
      && (IpRow(n, ip, GLUE4) in ips <==> BatchLists(rows, n, (r: ResourceRow) => r.glue4, ip))
      && (IpRow(n, ip, GLUE6) in ips <==> BatchLists(rows, n, (r: ResourceRow) => r.glue6, ip))
      && (IpRow(n, ip, SYNTH4) in ips <==> BatchLists(rows, n, (r: ResourceRow) => r.synth4, ip))
      && (IpRow(n, ip, SYNTH6) in ips <==> BatchLists(rows, n, (r: ResourceRow) => r.synth6, ip))
  {
    BatchIps(t.ips, rows);
    BatchIps(DeleteIps(t.ips, rows), rows);
    forall i | 0 <= i < |rows| && rows[i].name == n
      ensures HasIp(rows[i], IpRow(n, ip, GLUE4)) <==> Lists(rows[i].glue4, ip)
      ensures HasIp(rows[i], IpRow(n, ip, GLUE6)) <==> Lists(rows[i].glue6, ip)
      ensures HasIp(rows[i], IpRow(n, ip, SYNTH4)) <==> Lists(rows[i].synth4, ip)
      ensures HasIp(rows[i], IpRow(n, ip, SYNTH6)) <==> Lists(rows[i].synth6, ip)
    {
      RowShown(rows[i], IpRowsOf(rows[i]));
    }
  }
}
