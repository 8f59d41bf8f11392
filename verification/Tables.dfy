// The topology tables of the index: names, resource_summary and the derived
// resource_ip, with their foreign keys and cascading deletes.
module Tables {
  import opened Text

  datatype NameRow = NameRow(
    name: string, nameHash: string, state: Option<string>, renewalHeight: Option<int>,
    expired: bool, resourceHash: Option<string>, recordTypes: seq<string>,
    onchainClass: string, providerGuess: string, lastSeenHeight: Option<int>, updatedAt: string)

  datatype ResourceRow = ResourceRow(
    name: string, nsNames: seq<string>,
    glue4: seq<string>, glue6: seq<string>, synth4: seq<string>, synth6: seq<string>,
    dsRecords: seq<string>, hasDs: bool, hasNs: bool, hasGlue: bool, hasSynth: bool, hasTxt: bool,
    rawSize: int, resourceVersion: Option<int>, resourceHash: string)

  datatype Field = GLUE4 | GLUE6 | SYNTH4 | SYNTH6

  datatype IpRow = IpRow(name: string, ip: string, field: Field)

  datatype Tables = Tables(
    names: map<string, NameRow>, resources: map<string, ResourceRow>, ips: set<IpRow>)

  // The rows one name has; what the journal keeps as a pre-image.
  datatype Rows = Rows(name: Option<NameRow>, resource: Option<ResourceRow>)

  // ------------------------------------------------------- the derived index

  function Values(row: ResourceRow, field: Field): seq<string> {
    match field
    case GLUE4 => row.glue4
    case GLUE6 => row.glue6
    case SYNTH4 => row.synth4
    case SYNTH6 => row.synth6
  }

  function CleanIp(value: string): string { Lower(Strip(value)) }

  function Cleaned(values: seq<string>): (r: set<string>)
    ensures forall ip :: ip in r <==> ip != "" && exists v :: v in values && CleanIp(v) == ip
  {
    set v | v in values && CleanIp(v) != "" :: CleanIp(v)
  }

  // `x` is one of the resource_ip rows that a resource_summary row stands for.
  predicate HasIp(row: ResourceRow, x: IpRow) {
    row.name != "" && x.name == row.name && x.ip in Cleaned(Values(row, x.field))
  }

  function FieldRows(row: ResourceRow, field: Field): (r: set<IpRow>)
    ensures forall x :: x in r <==> x.name == row.name && x.field == field && x.ip in Cleaned(Values(row, field))
  {
    set ip | ip in Cleaned(Values(row, field)) :: IpRow(row.name, ip, field)
  }

  function IpRowsOf(row: ResourceRow): (r: set<IpRow>)
    ensures forall x :: x in r <==> HasIp(row, x)
  {
    if row.name == "" then {} else
      FieldRows(row, GLUE4) + FieldRows(row, GLUE6) + FieldRows(row, SYNTH4) + FieldRows(row, SYNTH6)
  }

  ghost function UnionOf(sets: set<set<IpRow>>): (r: set<IpRow>)
    ensures forall x :: x in r <==> exists part :: part in sets && x in part
  {
    set part, x | part in sets && x in part :: x
  }

  // The whole of resource_ip, computed from resource_summary alone.
  ghost function FlattenAll(resources: map<string, ResourceRow>): set<IpRow> {
    UnionOf(set n | n in resources :: IpRowsOf(resources[n]))
  }

  lemma {:induction false} FlattenAllHas(resources: map<string, ResourceRow>, x: IpRow)
    requires forall n :: n in resources ==> resources[n].name == n
    ensures x in FlattenAll(resources) <==> x.name in resources && HasIp(resources[x.name], x)
  {
    var parts := set n | n in resources :: IpRowsOf(resources[n]);
    if x.name in resources && HasIp(resources[x.name], x) {
      assert IpRowsOf(resources[x.name]) in parts;
    }
  }

  // ---------------------------------------------------- one-row statements

  function IpsWithout(ips: set<IpRow>, n: string): (r: set<IpRow>)
    ensures forall x :: x in r <==> x in ips && x.name != n
  {
    set x | x in ips && x.name != n
  }

  // DELETE FROM names: cascades to resource_summary and on to resource_ip.
  function DeleteName(t: Tables, n: string): Tables {
    Tables(t.names - {n}, t.resources - {n}, IpsWithout(t.ips, n))
  }

  // DELETE FROM resource_summary: cascades to resource_ip.
  function DeleteResource(t: Tables, n: string): Tables {
    t.(resources := t.resources - {n}, ips := IpsWithout(t.ips, n))
  }

  function UpsertName(t: Tables, row: NameRow): Tables {
    t.(names := t.names[row.name := row])
  }

  // The upsert, then the replacement of the name's resource_ip rows.
  function UpsertResource(t: Tables, row: ResourceRow): Tables {
    t.(resources := t.resources[row.name := row],
       ips := IpsWithout(t.ips, row.name) + IpRowsOf(row))
  }

  // ------------------------------------------------------------- invariants

  ghost predicate KeyedByName(t: Tables) {
    && (forall n :: n in t.names ==> t.names[n].name == n)
    && (forall n :: n in t.resources ==> t.resources[n].name == n)
  }

  // The foreign key resource_summary(name) -> names(name).
  ghost predicate ForeignKeys(t: Tables) {
    forall n :: n in t.resources ==> n in t.names
  }

  // resource_ip is exactly the normalised flattening of resource_summary.
  ghost predicate IndexInStep(t: Tables) {
    forall x :: x in t.ips <==> x.name in t.resources && HasIp(t.resources[x.name], x)
  }

  ghost predicate Consistent(t: Tables) {
    KeyedByName(t) && ForeignKeys(t) && IndexInStep(t)
  }

  function Look(t: Tables, n: string): Rows {
    Rows(if n in t.names then Some(t.names[n]) else None,
         if n in t.resources then Some(t.resources[n]) else None)
  }

  ghost predicate RowsFor(rows: Rows, n: string) {
    && (rows.name.Some? ==> rows.name.value.name == n)
    && (rows.resource.Some? ==> rows.name.Some? && rows.resource.value.name == n)
  }

  lemma {:induction false} LookRowsFor(t: Tables, n: string)
    requires Consistent(t)
    ensures RowsFor(Look(t, n), n)
  {}

  lemma {:induction false} IndexInStepIsFlatten(t: Tables)
    requires KeyedByName(t)
    ensures IndexInStep(t) <==> t.ips == FlattenAll(t.resources)
  {
    forall x ensures x in FlattenAll(t.resources) <==> x.name in t.resources && HasIp(t.resources[x.name], x) {
      FlattenAllHas(t.resources, x);
    }
  }

  // Two consistent databases with the same rows for every name are equal:
  // resource_ip adds nothing of its own.
  lemma {:induction false} SameRowsSameTables(t: Tables, u: Tables)
    requires Consistent(t) && Consistent(u)
    requires forall n :: Look(t, n) == Look(u, n)
    ensures t == u
  {
    assert forall n {:trigger n in t.names} {:trigger n in u.names} ::
        (n in t.names <==> n in u.names) && (n in t.names ==> t.names[n] == u.names[n]) by {
      forall n ensures (n in t.names <==> n in u.names) && (n in t.names ==> t.names[n] == u.names[n]) {
        assert Look(t, n) == Look(u, n);
      }
    }
    assert forall n {:trigger n in t.resources} {:trigger n in u.resources} ::
        (n in t.resources <==> n in u.resources) && (n in t.resources ==> t.resources[n] == u.resources[n]) by {
      forall n
        ensures (n in t.resources <==> n in u.resources) && (n in t.resources ==> t.resources[n] == u.resources[n])
      {
        assert Look(t, n) == Look(u, n);
      }
    }
    assert t.names == u.names;
    assert t.resources == u.resources;
    assert forall x :: x in t.ips <==> x in u.ips;
  }

  // --------------------------------------------- putting one name's rows back

  // The body of the rollback loop for one journal row.
  function Restore(t: Tables, n: string, rows: Rows): Tables {
    if rows.name.None? then DeleteName(t, n)
    else
      var u := UpsertName(t, rows.name.value);
      if rows.resource.None? then DeleteResource(u, n) else UpsertResource(u, rows.resource.value)
  }

  lemma {:induction false} DeleteNameKeepsConsistent(t: Tables, n: string)
    requires Consistent(t)
    ensures Consistent(DeleteName(t, n))
  {}

  lemma {:induction false} DeleteResourceKeepsConsistent(t: Tables, n: string)
    requires Consistent(t)
    ensures Consistent(DeleteResource(t, n))
  {}

  lemma {:induction false} UpsertNameKeepsConsistent(t: Tables, row: NameRow)
    requires Consistent(t)
    ensures Consistent(UpsertName(t, row))
  {}

  lemma {:induction false} UpsertResourceKeepsConsistent(t: Tables, row: ResourceRow)
    requires Consistent(t) && row.name in t.names
    ensures Consistent(UpsertResource(t, row))
  {}

  lemma {:induction false} RestoreLook(t: Tables, n: string, rows: Rows)
    requires Consistent(t) && RowsFor(rows, n)
    ensures Consistent(Restore(t, n, rows))
    ensures forall m :: Look(Restore(t, n, rows), m) == if m == n then rows else Look(t, m)
  {
    if rows.name.None? {
      DeleteNameKeepsConsistent(t, n);
    } else {
      UpsertNameKeepsConsistent(t, rows.name.value);
      var u := UpsertName(t, rows.name.value);
      if rows.resource.None? {
        DeleteResourceKeepsConsistent(u, n);
      } else {
        UpsertResourceKeepsConsistent(u, rows.resource.value);
      }
    }
  }
}
