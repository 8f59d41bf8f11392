// Which rows each posting list holds, on the exported columns.
module RowFilters {
  import opened Text
  import opened Pages
  import opened RowStore

  // The filters whose lists hold this row's ordinal.
  ghost function ListsOf(rows: seq<ExportRow>, o: nat): iset<Filter> { iset f | o in Ordinals(rows, f, 0) }

  lemma {:induction false} OrdinalsHas(rows: seq<ExportRow>, f: Filter, from: nat, o: nat)
    ensures o in Ordinals(rows, f, from) <==> from <= o < |rows| && Matches(f, rows[o])
    decreases |rows| - from
  {
    if from < |rows| { OrdinalsHas(rows, f, from + 1, o); }
  }

  // Each list is in row order, once each.
  lemma {:induction false} OrdinalsAscend(rows: seq<ExportRow>, f: Filter, from: nat)
    ensures forall i, j :: 0 <= i < j < |Ordinals(rows, f, from)| ==>
      Ordinals(rows, f, from)[i] < Ordinals(rows, f, from)[j]
    ensures forall i :: 0 <= i < |Ordinals(rows, f, from)| ==> from <= Ordinals(rows, f, from)[i]
    decreases |rows| - from
  {
    if from < |rows| { OrdinalsAscend(rows, f, from + 1); }
  }

  // What puts a row that is not expired on the lists of addresses, nameservers
  // and signatures, and on those of actionable providers.
  ghost predicate ByFlags(lists: iset<Filter>, r: ExportRow) {
    && (DirectIpRecords in lists <==> r.hasSynth)
    && (DelegatedNames in lists <==> r.hasNs)
    && (DsRecords in lists <==> r.hasDs)
    && (DnssecCandidates in lists <==> r.hasDs && r.hasNs)
    && (TlsaPresentNames in lists <==> r.hasTlsa)
    && (StrictHnsReady in lists <==> r.actionable && (r.hasSynth || (r.hasNs && r.hasGlue)))
    && (LikelyWebsites in lists <==> r.actionable && (r.hasSynth || r.hasGlue || (r.hasDs && r.hasNs)))
    && (NeedsDane in lists <==> r.actionable && r.hasDs && !r.hasTlsa)
  }

  // And on those of stages and providers.
  ghost predicate ByText(lists: iset<Filter>, r: ExportRow) {
    && (DefaultProviderNames in lists <==> r.providerType == "default_parking")
    && (IndirectNsHandoffs in lists <==> r.stage == "indirect_ns_handoff")
    && (NeedsFix in lists <==> r.stage == "missing_glue")
    && (MissingGlueOnly in lists <==> r.stage == "missing_glue")
    && (forall stage :: Stage(stage) in lists <==> r.stage == stage)
    && (forall provider :: Provider(provider) in lists <==> r.provider == provider)
  }

  lemma {:induction false} FlagColumns(lists: iset<Filter>, r: ExportRow)
    requires !r.expired && forall f :: f in lists <==> Matches(f, r)
    ensures ByFlags(lists, r)
  {}

  lemma {:induction false} TextColumns(lists: iset<Filter>, r: ExportRow)
    requires !r.expired && forall f :: f in lists <==> Matches(f, r)
    ensures ByText(lists, r)
  {}

  lemma {:induction false} FilterColumns(rows: seq<ExportRow>, o: nat)
    requires o < |rows|
    ensures if rows[o].expired then ListsOf(rows, o) == iset{}
            else ByFlags(ListsOf(rows, o), rows[o]) && ByText(ListsOf(rows, o), rows[o])
  {
    forall f ensures f in ListsOf(rows, o) <==> Matches(f, rows[o]) { OrdinalsHas(rows, f, 0, o); }
    if !rows[o].expired {
      FlagColumns(ListsOf(rows, o), rows[o]);
      TextColumns(ListsOf(rows, o), rows[o]);
    }
  }

  // How the lists lie to one another: a name that is strictly ready is a likely
  // website; the names that need DANE are signed ones without TLSA; the DNSSEC
  // candidates are the signed delegated ones; one list a stage and a provider.
  ghost predicate Lawful(lists: iset<Filter>) {
    && (StrictHnsReady in lists ==> LikelyWebsites in lists)
    && (NeedsDane in lists ==> DsRecords in lists && TlsaPresentNames !in lists)
    && (DnssecCandidates in lists <==> DsRecords in lists && DelegatedNames in lists)
    && (forall a, b :: Stage(a) in lists && Stage(b) in lists ==> a == b)
    && (forall a, b :: Provider(a) in lists && Provider(b) in lists ==> a == b)
    && (NeedsFix in lists <==> MissingGlueOnly in lists)
    && (NeedsFix in lists <==> Stage("missing_glue") in lists)
  }

  lemma {:induction false} ListsAreLawful(rows: seq<ExportRow>, o: nat)
    ensures Lawful(ListsOf(rows, o))
  {
    if o < |rows| {
      FilterColumns(rows, o);
    } else {
      forall f ensures f !in ListsOf(rows, o) { OrdinalsHas(rows, f, 0, o); }
      assert ListsOf(rows, o) == iset{};
    }
  }
}
