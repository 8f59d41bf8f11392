// The stored TLSA summaries as evidence is inserted: incremental refreshes and
// the full rebuild.
module TlsaTables {
  import opened Text
  import opened Tlsa
  import opened TlsaSummary

  // SELECT ... WHERE name = ? AND upper(rrtype) = 'TLSA' ORDER BY captured_at
  // DESC, id DESC.
  function TlsaRows(rows: seq<Row>, name: string): seq<Row> {
    if rows == [] then []
    else
      var last := rows[|rows| - 1];
      if last.name == name && IsTlsa(last) then InsertNewestFirst(last, TlsaRows(rows[..|rows| - 1], name))
      else TlsaRows(rows[..|rows| - 1], name)
  }

  function InsertNewestFirst(r: Row, rows: seq<Row>): seq<Row> {
    if rows == [] || Newer(r, rows[0]) then [r] + rows else [rows[0]] + InsertNewestFirst(r, rows[1..])
  }

  function SummaryOf(rows: seq<Row>, name: string): Summary { Summarize(name, TlsaRows(rows, name)) }

  // ---------------------------------------------------------------- a refresh

  // The summaries of all known names with TLSA rows.
  function Groups(names: set<string>, rows: seq<Row>): map<string, Summary> {
    map n | n in names && TlsaRows(rows, n) != [] :: SummaryOf(rows, n)
  }

  // Those that a refresh of some names computes.
  function Restrict(groups: map<string, Summary>, touched: set<string>): map<string, Summary> {
    map n | n in groups && n in touched :: groups[n]
  }

  ghost predicate OneEach(groups: map<string, Summary>) {
    forall g, h :: g in groups && h in groups && groups[g].name == groups[h].name ==> g == h
  }

  // Each summary is inserted under the name it carries: a known one, not stored
  // yet, and not that of another group.
  ghost predicate Insertable(kept: set<string>, names: set<string>, groups: map<string, Summary>) {
    OneEach(groups) && forall g :: g in groups ==> groups[g].name in names && groups[g].name !in kept
  }

  function Carried(groups: map<string, Summary>): set<string> { set g | g in groups :: groups[g].name }

  // The group whose summary is stored under a name.
  ghost function GroupOf(groups: map<string, Summary>, n: string): (g: string)
    requires n in Carried(groups)
    ensures g in groups && groups[g].name == n
  {
    var g :| g in groups && groups[g].name == n;
    g
  }

  ghost function Inserted(groups: map<string, Summary>): map<string, Summary> {
    map n | n in Carried(groups) :: groups[GroupOf(groups, n)]
  }

  ghost function Insert(kept: map<string, Summary>, names: set<string>, groups: map<string, Summary>):
      Option<map<string, Summary>> {
    if Insertable(kept.Keys, names, groups) then Some(kept + Inserted(groups)) else None
  }

  // refresh_tlsa_evidence_summary: the summaries of the touched names are
  // deleted, those of their groups inserted; None if an insertion raises.
  ghost function Refresh(summaries: map<string, Summary>, names: set<string>, rows: seq<Row>, touched: set<string>):
      Option<map<string, Summary>> {
    Insert(summaries - touched, names, Restrict(Groups(names, rows), touched))
  }

  // The full rebuild reads every name.
  ghost function Rebuild(names: set<string>, rows: seq<Row>): Option<map<string, Summary>> {
    Refresh(map[], names, rows, names)
  }

  // ------------------------------------------------------------- plain names

  predicate Plain(r: Row) { IsTlsa(r) ==> PlainName(r.name) == r.name }

  ghost predicate AllPlain(rows: seq<Row>) { forall r :: r in rows ==> Plain(r) }

  ghost predicate Known(rows: seq<Row>, names: set<string>) { forall r :: r in rows ==> r.name in names }

  // tlsa_names of insert_dns_evidence_batch, normalised by the refresh.
  function Touched(more: seq<Row>): set<string> {
    set r | r in more && IsTlsa(r) && r.name != "" :: PlainName(r.name)
  }

  lemma {:induction false} GroupHasRow(rows: seq<Row>, n: string)
    ensures TlsaRows(rows, n) != [] <==> exists r :: r in rows && r.name == n && IsTlsa(r)
  {
    if rows != [] {
      var before, last := rows[..|rows| - 1], rows[|rows| - 1];
      assert rows == before + [last];
      GroupHasRow(before, n);
    }
  }

  lemma {:induction false} RowsOfOthers(rows: seq<Row>, more: seq<Row>, n: string)
    requires forall r :: r in more ==> !(r.name == n && IsTlsa(r))
    ensures TlsaRows(rows + more, n) == TlsaRows(rows, n)
  {
    if more == [] { assert rows + more == rows; }
    else {
      assert (rows + more)[..|rows + more| - 1] == rows + more[..|more| - 1];
      RowsOfOthers(rows, more[..|more| - 1], n);
    }
  }

  // What a refresh under plain names leaves.
  function Refreshed(summaries: map<string, Summary>, current: map<string, Summary>, touched: set<string>):
      map<string, Summary> {
    (summaries - touched) + Restrict(current, touched)
  }

  lemma {:induction false} SummaryName(name: string, rows: seq<Row>)
    ensures Summarize(name, rows).name == PlainName(name)
  {
    TrimmedEnd(Lower(Strip(name)), Dots);
    TrimDotsNothing(PlainName(name));
  }

  lemma {:induction false} GroupName(names: set<string>, rows: seq<Row>, g: string)
    requires g in Groups(names, rows)
    ensures Groups(names, rows)[g].name == PlainName(g)
  {
    SummaryName(g, TlsaRows(rows, g));
  }

  // Every group's summary carries the group's own name.
  ghost predicate OwnNames(groups: map<string, Summary>) { forall g :: g in groups ==> groups[g].name == g }

  lemma {:induction false} PlainGroups(names: set<string>, rows: seq<Row>)
    requires AllPlain(rows)
    ensures OwnNames(Groups(names, rows))
  {
    forall g | g in Groups(names, rows) ensures Groups(names, rows)[g].name == g {
      GroupHasRow(rows, g);
      GroupName(names, rows, g);
    }
  }

  lemma {:induction false} OwnInserted(groups: map<string, Summary>)
    requires OwnNames(groups)
    ensures Inserted(groups) == groups
  {
    forall g | g in groups
      ensures g in Carried(groups) && GroupOf(groups, g) == g
    {
      assert groups[g].name in Carried(groups);
    }
  }

  lemma {:induction false} OwnInsert(summaries: map<string, Summary>, names: set<string>, groups: map<string, Summary>,
        touched: set<string>)
    requires OwnNames(groups) && groups.Keys <= names
    ensures Insert(summaries - touched, names, Restrict(groups, touched)) == Some(Refreshed(summaries, groups, touched))
  {
    OwnInserted(Restrict(groups, touched));
  }

  // With plain names a refresh inserts each group under its own name.
  lemma {:induction false} PlainRefresh(summaries: map<string, Summary>, names: set<string>, rows: seq<Row>,
        touched: set<string>)
    requires AllPlain(rows)
    ensures Refresh(summaries, names, rows, touched) == Some(Refreshed(summaries, Groups(names, rows), touched))
  {
    PlainGroups(names, rows);
    OwnInsert(summaries, names, Groups(names, rows), touched);
  }

  lemma {:induction false} PlainRebuild(names: set<string>, rows: seq<Row>)
    requires AllPlain(rows)
    ensures Rebuild(names, rows) == Some(Groups(names, rows))
  {
    PlainRefresh(map[], names, rows, names);
    RestrictAll(Groups(names, rows), names);
  }

  lemma {:induction false} RestrictAll(current: map<string, Summary>, names: set<string>)
    requires current.Keys <= names
    ensures Restrict(current, names) == current && Refreshed(map[], current, names) == current
  {}

  lemma {:induction false} Untouched(names: set<string>, rows: seq<Row>, more: seq<Row>, n: string)
    requires AllPlain(more) && n != "" && n !in Touched(more)
    ensures TlsaRows(rows + more, n) == TlsaRows(rows, n)
  {
    forall r | r in more && IsTlsa(r) && r.name != "" ensures r.name in Touched(more) {
      assert Plain(r);
      assert PlainName(r.name) in Touched(more);
    }
    RowsOfOthers(rows, more, n);
  }

  lemma {:induction false} RefreshReaches(a: map<string, Summary>, b: map<string, Summary>, touched: set<string>)
    requires forall n :: n !in touched ==> (n in a <==> n in b) && (n in a ==> a[n] == b[n])
    ensures Refreshed(a, b, touched) == b
  {}

  // Plain rows: the incremental refresh leaves what a rebuild would.
  lemma {:induction false} RefreshIsRebuild(names: set<string>, rows: seq<Row>, more: seq<Row>)
    requires AllPlain(rows) && AllPlain(more) && "" !in names
    ensures Refresh(Groups(names, rows), names, rows + more, Touched(more)) == Rebuild(names, rows + more)
    ensures Rebuild(names, rows + more) == Some(Groups(names, rows + more))
  {
    var all, touched := rows + more, Touched(more);
    PlainRefresh(Groups(names, rows), names, all, touched);
    PlainRebuild(names, all);
    forall n | n in names && n !in touched ensures TlsaRows(all, n) == TlsaRows(rows, n) {
      Untouched(names, rows, more, n);
    }
    RefreshReaches(Groups(names, rows), Groups(names, all), touched);
  }

  // ------------------------------------------------------------- other names

  lemma {:induction false} InsertedHas(groups: map<string, Summary>, u: string)
    requires OneEach(groups) && u in groups
    ensures groups[u].name in Inserted(groups) && GroupOf(groups, groups[u].name) == u
  {
    assert groups[u].name in Carried(groups);
  }

  // A group stored under a touched name is one that the refresh computed, if it
  // leaves what the insertion of all groups leaves.
  lemma {:induction false} StoredWasRead(summaries: map<string, Summary>, names: set<string>,
        groups: map<string, Summary>, touched: set<string>, u: string)
    requires Insertable({}, names, groups) && u in groups && groups[u].name in touched
    requires (summaries - touched) + Inserted(Restrict(groups, touched)) == Inserted(groups)
    ensures u in touched
  {
    var n := groups[u].name;
    InsertedHas(groups, u);
    assert n in Inserted(Restrict(groups, touched));
    var g := GroupOf(Restrict(groups, touched), n);
    assert groups[g].name == groups[u].name;
  }

  // The inserted TLSA rows whose names are not plain.
  ghost function Unplain(more: seq<Row>): set<Row> { set r | r in more && !Plain(r) }

  // The row's group is stored under its plain name.
  lemma {:induction false} GroupOfRow(names: set<string>, rows: seq<Row>, r: Row)
    requires r in rows && IsTlsa(r) && r.name in names
    ensures r.name in Groups(names, rows) && Groups(names, rows)[r.name].name == PlainName(r.name)
  {
    GroupHasRow(rows, r.name);
    GroupName(names, rows, r.name);
  }

  lemma {:induction false} TouchedBy(more: seq<Row>, n: string) returns (q: Row)
    requires n in Touched(more)
    ensures q in more && IsTlsa(q) && PlainName(q.name) == n
  {
    q :| q in more && IsTlsa(q) && q.name != "" && PlainName(q.name) == n;
  }

  lemma {:induction false} RefreshReadsUnplain(summaries: map<string, Summary>, names: set<string>, rows: seq<Row>,
        touched: set<string>, r: Row)
    requires r in rows && IsTlsa(r) && r.name in names && PlainName(r.name) in touched
    requires Refresh(summaries, names, rows, touched).Some?
    requires Refresh(summaries, names, rows, touched) == Rebuild(names, rows)
    ensures r.name in touched
  {
    var groups := Groups(names, rows);
    GroupOfRow(names, rows, r);
    RestrictAll(groups, names);
    InsertAgrees(summaries, names, groups, touched, r.name);
  }

  lemma {:induction false} InsertAgrees(summaries: map<string, Summary>, names: set<string>,
        groups: map<string, Summary>, touched: set<string>, u: string)
    requires u in groups && groups[u].name in touched
    requires var refreshed := Insert(summaries - touched, names, Restrict(groups, touched));
      refreshed.Some? && refreshed == Insert(map[] - names, names, groups)
    ensures u in touched
  {
    var none: map<string, Summary> := map[];
    assert none - names == none && none + Inserted(groups) == Inserted(groups);
    StoredWasRead(summaries, names, groups, touched, u);
  }

  // If one row's name is not plain, a longer one is not.
  lemma {:induction false} LongerUnplain(summaries: map<string, Summary>, names: set<string>, rows: seq<Row>,
        more: seq<Row>, r: Row)
      returns (q: Row)
    requires Known(more, names) && "" !in names && r in Unplain(more)
    requires Refresh(summaries, names, rows + more, Touched(more)).Some?
    requires Refresh(summaries, names, rows + more, Touched(more)) == Rebuild(names, rows + more)
    ensures q in Unplain(more) && |q.name| > |r.name|
  {
    assert r in rows + more && PlainName(r.name) in Touched(more);
    RefreshReadsUnplain(summaries, names, rows + more, Touched(more), r);
    q := TouchedBy(more, r.name);
    PlainOrShorter(q.name);
  }

  lemma {:induction false} NoneUnplain(summaries: map<string, Summary>, names: set<string>, rows: seq<Row>,
        more: seq<Row>, unplain: set<Row>)
    requires Known(more, names) && "" !in names && unplain <= Unplain(more)
    requires forall r, q :: r in unplain && q in Unplain(more) && |q.name| > |r.name| ==> q in unplain
    requires Refresh(summaries, names, rows + more, Touched(more)).Some?
    requires Refresh(summaries, names, rows + more, Touched(more)) == Rebuild(names, rows + more)
    ensures unplain == {}
    decreases |unplain|
  {
    if r :| r in unplain {
      var q := LongerUnplain(summaries, names, rows, more, r);
      var longer := set x | x in unplain && |x.name| > |r.name|;
      assert q in longer && r !in longer && longer <= unplain - {r};
      SubsetSize(longer, unplain - {r});
      NoneUnplain(summaries, names, rows, more, longer);
    }
  }

  // Behind a rebuild of plain rows, a batch of evidence for known names is
  // refreshed to what a rebuild leaves exactly if each of its TLSA rows is
  // filed under a plain name: others are stored where no refresh looks, or make
  // the refresh raise.
  lemma {:induction false} RefreshIsRebuildIff(summaries: map<string, Summary>, names: set<string>, rows: seq<Row>,
        more: seq<Row>)
    requires AllPlain(rows) && "" !in names && Rebuild(names, rows) == Some(summaries) && Known(more, names)
    ensures var refreshed := Refresh(summaries, names, rows + more, Touched(more));
      refreshed.Some? && refreshed == Rebuild(names, rows + more) <==> AllPlain(more)
  {
    PlainRebuild(names, rows);
    if AllPlain(more) { RefreshIsRebuild(names, rows, more); }
    var refreshed := Refresh(summaries, names, rows + more, Touched(more));
    if refreshed.Some? && refreshed == Rebuild(names, rows + more) {
      NoneUnplain(summaries, names, rows, more, Unplain(more));
      NoneLeft(more);
    }
  }

  lemma {:induction false} NoneLeft(more: seq<Row>)
    ensures Unplain(more) == {} <==> AllPlain(more)
  {
    forall r | r in more ensures r in Unplain(more) <==> !Plain(r) {}
  }

  // However plain evidence is split into batches, refreshing after each leaves
  // the one table that a rebuild of everything leaves.
  lemma {:induction false} BatchesJoin(summaries: map<string, Summary>, names: set<string>, rows: seq<Row>,
        a: seq<Row>, b: seq<Row>)
    requires AllPlain(rows) && "" !in names && Rebuild(names, rows) == Some(summaries) && AllPlain(a) && AllPlain(b)
    ensures var first := Refresh(summaries, names, rows + a, Touched(a));
      && first.Some?
      && Refresh(first.value, names, rows + a + b, Touched(b))
         == Refresh(summaries, names, rows + (a + b), Touched(a + b))
         == Rebuild(names, rows + (a + b))
  {
    PlainRebuild(names, rows);
    RefreshIsRebuild(names, rows, a);
    RefreshIsRebuild(names, rows + a, b);
    RefreshIsRebuild(names, rows, a + b);
    assert rows + a + b == rows + (a + b);
  }

  ghost predicate IsCurrent(names: set<string>, rows: seq<Row>, summaries: map<string, Summary>) {
    AllPlain(rows) && "" !in names && Rebuild(names, rows) == Some(summaries)
  }

  // The summaries behind a batch of evidence: a row for an unknown name violates
  // the foreign key.
  ghost function BatchResult(names: set<string>, rows: seq<Row>, summaries: map<string, Summary>, items: seq<Row>):
      Option<map<string, Summary>> {
    if Known(items, names) then Refresh(summaries, names, rows + items, Touched(items)) else None
  }

  // Current summaries stay current exactly under batches of plain names, which
  // never fail.
  lemma {:induction false} BatchKeepsCurrent(names: set<string>, rows: seq<Row>, summaries: map<string, Summary>,
        items: seq<Row>)
    requires IsCurrent(names, rows, summaries) && Known(items, names)
    ensures var after := BatchResult(names, rows, summaries, items);
      after.Some? && IsCurrent(names, rows + items, after.value) <==> AllPlain(items)
  {
    RefreshIsRebuildIff(summaries, names, rows, items);
    assert AllPlain(rows + items) <==> AllPlain(items) by {
      forall r ensures r in rows + items <==> r in rows || r in items {}
    }
  }

  // ---------------------------------------------------------------- the class

  class EvidenceTables {
    var names: set<string>
    var rows: seq<Row>
    var summaries: map<string, Summary>

    ghost predicate Current()
      reads this
    {
      IsCurrent(names, rows, summaries)
    }

    constructor (names0: set<string>)
      requires "" !in names0
      ensures Current() && names == names0 && rows == []
    {
      names, rows, summaries := names0, [], map[];
      PlainRebuild(names0, []);
    }

    // The summaries of the touched names' groups.
    method Summaries(touched: set<string>) returns (groups: map<string, Summary>)
      ensures groups == Restrict(Groups(names, rows), touched)
    {
      groups := map[];
      var rest := touched;
      while rest != {}
        invariant rest <= touched && groups == Restrict(Groups(names, rows), touched - rest)
        decreases rest
      {
        var n :| n in rest;
        RestrictMore(Groups(names, rows), touched - rest, n);
        assert touched - (rest - {n}) == touched - rest + {n};
        if n in names && TlsaRows(rows, n) != [] {
          var s := SummarizeTlsaEvidence(n, TlsaRows(rows, n));
          groups := groups[n := s];
        }
        rest := rest - {n};
      }
      assert touched - rest == touched;
    }

    // The insertions; the table after a raised one is of no account.
    method InsertSummaries(groups: map<string, Summary>) returns (ok: bool)
      modifies this`summaries
      ensures if ok then Insert(old(summaries), names, groups) == Some(summaries)
              else Insert(old(summaries), names, groups).None?
    {
      ghost var kept := summaries;
      var rest := groups.Keys;
      ok := true;
      InsertedNone(kept, names, groups);
      while rest != {} && ok
        invariant rest <= groups.Keys
        invariant ok ==> InsertedSome(kept, names, Restrict(groups, groups.Keys - rest), summaries)
        invariant !ok ==> !Insertable(kept.Keys, names, groups)
        decreases ok, rest
      {
        var g :| g in rest;
        var s := groups[g];
        InsertedNext(kept, names, groups, groups.Keys - rest, summaries, g);
        assert groups.Keys - (rest - {g}) == groups.Keys - rest + {g};
        if s.name !in names || s.name in summaries {
          ok := false;
        } else {
          summaries := summaries[s.name := s];
        }
        rest := rest - {g};
      }
      if ok {
        assert groups.Keys - rest == groups.Keys;
        InsertedAll(kept, names, groups, summaries);
      }
    }

    // refresh_tlsa_evidence_summary; on a raised insertion the caller's
    // transaction restores the table.
    method RefreshNames(touched: set<string>) returns (ok: bool)
      modifies this`summaries
      ensures if ok then Refresh(old(summaries), names, rows, touched) == Some(summaries)
              else Refresh(old(summaries), names, rows, touched).None?
    {
      summaries := summaries - touched;
      var groups := Summaries(touched);
      ok := InsertSummaries(groups);
    }

    // Rows for known names are stored and the touched names refreshed.
    method StoreRows(items: seq<Row>, touched: set<string>) returns (ok: bool)
      modifies this
      ensures names == old(names) && rows == old(rows) + items
      ensures if ok then Refresh(old(summaries), names, rows, touched) == Some(summaries)
              else Refresh(old(summaries), names, rows, touched).None?
    {
      rows, ok := rows + items, true;
      if touched == {} {
        NothingTouched(summaries, names, rows);
      } else {
        ok := RefreshNames(touched);
      }
    }

    // insert_dns_evidence_batch; if anything raises, nothing is stored.
    method InsertDnsEvidenceBatch(items: seq<Row>) returns (ok: bool)
      modifies this
      ensures names == old(names)
      ensures if ok then
                rows == old(rows) + items && BatchResult(names, old(rows), old(summaries), items) == Some(summaries)
              else
                rows == old(rows) && summaries == old(summaries)
                && BatchResult(names, old(rows), old(summaries), items).None?
    {
      var rows0, summaries0 := rows, summaries;
      ok := !exists r :: r in items && r.name !in names;
      if ok { ok := StoreRows(items, Touched(items)); }
      if !ok { rows, summaries := rows0, summaries0; }
    }

    // The full rebuild of a table, whatever it held.
    method RefreshAll() returns (ok: bool)
      modifies this`summaries
      ensures ok <==> Rebuild(names, rows).Some?
      ensures ok ==> Rebuild(names, rows) == Some(summaries)
      ensures AllPlain(rows) ==> ok && summaries == Groups(names, rows)
    {
      summaries := map[];
      if AllPlain(rows) { PlainRebuild(names, rows); }
      ok := RefreshNames(names);
    }
  }

  lemma {:induction false} NothingTouched(summaries: map<string, Summary>, names: set<string>, rows: seq<Row>)
    ensures Refresh(summaries, names, rows, {}) == Some(summaries)
  {
    assert Restrict(Groups(names, rows), {}) == map[];
    assert Inserted(map[]) == map[];
    assert summaries - {} + map[] == summaries;
  }

  // The insertions made so far.
  ghost predicate InsertedSome(kept: map<string, Summary>, names: set<string>, groups: map<string, Summary>,
        summaries: map<string, Summary>) {
    Insertable(kept.Keys, names, groups) && summaries == kept + Inserted(groups)
  }

  lemma {:induction false} InsertedNone(kept: map<string, Summary>, names: set<string>, groups: map<string, Summary>)
    ensures InsertedSome(kept, names, Restrict(groups, groups.Keys - groups.Keys), kept)
  {
    assert Restrict(groups, groups.Keys - groups.Keys) == map[] && Inserted(map[]) == map[];
  }

  lemma {:induction false} InsertedAll(kept: map<string, Summary>, names: set<string>, groups: map<string, Summary>,
        summaries: map<string, Summary>)
    requires InsertedSome(kept, names, Restrict(groups, groups.Keys), summaries)
    ensures Insert(kept, names, groups) == Some(summaries)
  {
    assert Restrict(groups, groups.Keys) == groups;
  }

  lemma {:induction false} RestrictMore(groups: map<string, Summary>, done: set<string>, g: string)
    ensures Restrict(groups, done + {g})
         == if g in groups then Restrict(groups, done)[g := groups[g]] else Restrict(groups, done)
  {}

  // Inserting one more summary under a name not carried yet.
  lemma {:induction false} CarriedMore(groups: map<string, Summary>, more: map<string, Summary>, g: string, n: string)
    requires g in more && groups.Keys == more.Keys - {g} && forall h :: h in groups ==> more[h] == groups[h]
    ensures n in Carried(more) <==> n in Carried(groups) || n == more[g].name
  {
    if n in Carried(more) {
      var h :| h in more && more[h].name == n;
      if h != g { assert groups[h].name == n; }
    }
    if n in Carried(groups) {
      var h :| h in groups && groups[h].name == n;
      assert more[h].name == n;
    }
  }

  lemma {:induction false} OneMore(groups: map<string, Summary>, more: map<string, Summary>, g: string)
    requires g in more && groups.Keys == more.Keys - {g} && forall h :: h in groups ==> more[h] == groups[h]
    requires OneEach(groups) && more[g].name !in Carried(groups)
    ensures OneEach(more)
  {
    forall h | h in groups ensures groups[h].name != more[g].name { assert groups[h].name in Carried(groups); }
  }

  lemma {:induction false} InsertedMore(groups: map<string, Summary>, more: map<string, Summary>, g: string)
    requires g in more && groups.Keys == more.Keys - {g} && forall h :: h in groups ==> more[h] == groups[h]
    requires OneEach(groups) && more[g].name !in Carried(groups)
    ensures OneEach(more) && Inserted(more) == Inserted(groups)[more[g].name := more[g]]
  {
    OneMore(groups, more, g);
    forall n
      ensures n in Carried(more) <==> n in Carried(groups) || n == more[g].name
    {
      CarriedMore(groups, more, g, n);
    }
    InsertedHas(more, g);
    forall n | n in Carried(groups) ensures Inserted(more)[n] == Inserted(groups)[n] {
      InsertedHas(more, GroupOf(groups, n));
    }
  }

  lemma {:induction false} InsertableMore(kept: set<string>, names: set<string>, groups: map<string, Summary>,
        more: map<string, Summary>, g: string)
    requires g in more && groups.Keys == more.Keys - {g} && forall h :: h in groups ==> more[h] == groups[h]
    requires Insertable(kept, names, groups) && OneEach(more) && more[g].name in names && more[g].name !in kept
    ensures Insertable(kept, names, more)
  {
    forall h | h in more ensures more[h].name in names && more[h].name !in kept {
      if h != g { assert groups[h].name in names; }
    }
  }

  lemma {:induction false} InsertedNext(kept: map<string, Summary>, names: set<string>, groups: map<string, Summary>,
        done: set<string>, summaries: map<string, Summary>, g: string)
    requires InsertedSome(kept, names, Restrict(groups, done), summaries) && g in groups && g !in done
    ensures var n := groups[g].name;
      if n !in names || n in summaries then !Insertable(kept.Keys, names, groups)
      else InsertedSome(kept, names, Restrict(groups, done + {g}), summaries[n := groups[g]])
  {
    var n, before, more := groups[g].name, Restrict(groups, done), Restrict(groups, done + {g});
    if n in names && n !in summaries {
      InsertedMore(before, more, g);
      InsertableMore(kept.Keys, names, before, more, g);
      UpdateBehind(kept, Inserted(before), n, groups[g]);
    } else if n in names && n !in kept {
      SameNameTwice(groups, GroupOf(before, n), g);
    }
  }

  lemma {:induction false} UpdateBehind(a: map<string, Summary>, b: map<string, Summary>, n: string, s: Summary)
    ensures (a + b)[n := s] == a + b[n := s]
  {}

  lemma {:induction false} SameNameTwice(groups: map<string, Summary>, h: string, g: string)
    requires h in groups && g in groups && h != g && groups[h].name == groups[g].name
    ensures !OneEach(groups)
  {}
}
