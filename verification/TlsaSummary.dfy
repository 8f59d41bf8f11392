// What a TLSA summary says, and the stored summaries as evidence is inserted.
module TlsaSummary {
  import opened Text
  import opened Tlsa

  // ------------------------------------------------------------ one summary

  // A record the summary must hold: an answer of a latest observation.
  ghost predicate Supported(rows: set<Row>, name: string, k: Record) {
    exists r, t :: IsLatest(rows, r) && t in r.answer && Counts(name, r, t) && Key(t) == k
  }

  ghost predicate SupportedBy(latest: seq<Row>, name: string, k: Record) {
    exists r, t :: r in latest && t in r.answer && Counts(name, r, t) && Key(t) == k
  }

  // The ttl one observation gives a record: that of the last of its first `n`
  // answers which counts and is this record.
  function GivenTtl(name: string, r: Row, n: nat, k: Record): Option<Option<nat>>
    requires n <= |r.answer|
  {
    if n == 0 then None
    else if Counts(name, r, r.answer[n - 1]) && Key(r.answer[n - 1]) == k then Some(r.answer[n - 1].ttl)
    else GivenTtl(name, r, n - 1, k)
  }

  function Gives(name: string, r: Row, k: Record): Option<Option<nat>> { GivenTtl(name, r, |r.answer|, k) }

  function StoredTtl(records: map<Record, Option<nat>>, k: Record): Option<Option<nat>> {
    if k in records then Some(records[k]) else None
  }

  lemma {:induction false} RowGives(name: string, r: Row, n: nat, records: map<Record, Option<nat>>, k: Record)
    requires n <= |r.answer|
    ensures var given := GivenTtl(name, r, n, k);
      StoredTtl(RowRecords(name, r, n, records), k) == if given.Some? then given else StoredTtl(records, k)
  {
    if n > 0 { RowGives(name, r, n - 1, records, k); }
  }

  // The last observation that holds a record gives its stored ttl.
  lemma {:induction false} LastGives(name: string, before: seq<Row>, r: Row, k: Record)
    ensures var given := Gives(name, r, k);
      StoredTtl(Records(name, before + [r]), k) == if given.Some? then given else StoredTtl(Records(name, before), k)
  {
    assert (before + [r])[..|before|] == before;
    RowGives(name, r, |r.answer|, Records(name, before), k);
  }

  // A stored ttl is given by one of the observations.
  lemma {:induction false} StoredIsGiven(name: string, latest: seq<Row>, k: Record)
    ensures StoredTtl(Records(name, latest), k).Some? ==>
      exists r :: r in latest && Gives(name, r, k) == StoredTtl(Records(name, latest), k)
    ensures StoredTtl(Records(name, latest), k).None? ==> forall r :: r in latest ==> Gives(name, r, k).None?
  {
    if latest != [] {
      var before, last := latest[..|latest| - 1], latest[|latest| - 1];
      assert latest == before + [last];
      LastGives(name, before, last, k);
      StoredIsGiven(name, before, k);
    }
  }

  function KeyTests(name: string, r: Row, k: Record): seq<bool> {
    seq(|r.answer|, i requires 0 <= i < |r.answer| => Counts(name, r, r.answer[i]) && Key(r.answer[i]) == k)
  }

  lemma {:induction false} GivenTests(name: string, r: Row, n: nat, k: Record, tests: seq<bool>)
    requires n <= |r.answer| == |tests|
    requires forall i :: 0 <= i < n ==> tests[i] == (Counts(name, r, r.answer[i]) && Key(r.answer[i]) == k)
    ensures GivenTtl(name, r, n, k).Some? == AnyTrue(tests, n)
  {
    if n > 0 { GivenTests(name, r, n - 1, k, tests); }
  }

  lemma {:induction false} GivesIff(name: string, r: Row, k: Record)
    ensures Gives(name, r, k).Some? <==> exists t :: t in r.answer && Counts(name, r, t) && Key(t) == k
  {
    var tests := KeyTests(name, r, k);
    GivenTests(name, r, |r.answer|, k, tests);
    AnyTrueIs(tests, |tests|);
    if t :| t in r.answer && Counts(name, r, t) && Key(t) == k {
      var i :| 0 <= i < |r.answer| && r.answer[i] == t;
      assert tests[i];
    }
    if i :| 0 <= i < |tests| && tests[i] { assert r.answer[i] in r.answer; }
  }

  lemma {:induction false} RecordsHas(name: string, latest: seq<Row>, k: Record)
    ensures k in Records(name, latest) <==> SupportedBy(latest, name, k)
  {
    StoredIsGiven(name, latest, k);
    if r :| r in latest && Gives(name, r, k) == StoredTtl(Records(name, latest), k) { GivesIff(name, r, k); }
    if r, t :| r in latest && t in r.answer && Counts(name, r, t) && Key(t) == k { GivesIff(name, r, k); }
  }

  // The stored records are those of the latest observations, no other.
  lemma {:induction false} SummaryRecords(name: string, rows: seq<Row>, k: Record)
    requires NoTies(Set(rows))
    ensures k in Summarize(name, rows).records <==> Supported(Set(rows), name, k)
  {
    LatestIs(rows);
    RecordsHas(name, Latest(rows), k);
  }

  // has_tlsa: some vantage point's latest observation is a successful answer
  // with a record owned at the queried `_443._tcp` name of the root or below.
  lemma {:induction false} HasTlsaIff(name: string, rows: seq<Row>)
    requires NoTies(Set(rows))
    ensures Summarize(name, rows).hasTlsa <==>
      exists r, t :: IsLatest(Set(rows), r) && Successful(r) && t in r.answer
                     && t.owner == DnsName(r.qname) && IsHttpsOwner(t.owner, DnsName(name))
  {
    var records := Summarize(name, rows).records;
    if records != map[] {
      var k :| k in records;
      SummaryRecords(name, rows, k);
    }
    if r, t :| IsLatest(Set(rows), r) && Successful(r) && t in r.answer
               && t.owner == DnsName(r.qname) && IsHttpsOwner(t.owner, DnsName(name))
    {
      assert Counts(name, r, t);
      assert Supported(Set(rows), name, Key(t));
      SummaryRecords(name, rows, Key(t));
    }
  }

  // -------------------------------------------------------------- maximal times

  ghost predicate IsMaximum(times: set<string>, m: Option<string>) {
    if m.None? then forall t :: t in times ==> t == ""
    else m.value != "" && m.value in times && forall t :: t in times ==> t == m.value || Less(t, m.value)
  }

  lemma {:induction false} LaterIsMaximum(times: set<string>, m: Option<string>, t: string)
    requires IsMaximum(times, m)
    ensures IsMaximum(times + {t}, Later(m, t))
  {
    if m.Some? {
      LessTotal(m.value, t);
      if Less(m.value, t) {
        forall u | u in times ensures u == t || Less(u, t) {
          if u != m.value { LessTransitive(u, m.value, t); }
        }
      }
    } else if t != "" {
      forall u | u in times ensures Less(u, t) { assert u == ""; }
    }
  }

  lemma {:induction false} MaximumUnique(times: set<string>, a: Option<string>, b: Option<string>)
    requires IsMaximum(times, a) && IsMaximum(times, b)
    ensures a == b
  {
    if a.Some? && b.Some? && a != b {
      LessTransitive(a.value, b.value, a.value);
      LessIrreflexive(a.value);
    }
  }

  function Times(latest: seq<Row>): set<string> { set r | r in latest :: r.capturedAt }

  function PositiveTimes(name: string, latest: seq<Row>): set<string> {
    set r | r in latest && Positive(name, r) :: r.capturedAt
  }

  lemma {:induction false} TimesAreMaxima(name: string, latest: seq<Row>)
    ensures IsMaximum(Times(latest), CheckedAt(latest))
    ensures IsMaximum(PositiveTimes(name, latest), ObservedAt(name, latest))
  {
    if latest != [] {
      var before, r := latest[..|latest| - 1], latest[|latest| - 1];
      assert latest == before + [r];
      TimesAreMaxima(name, before);
      LaterIsMaximum(Times(before), CheckedAt(before), r.capturedAt);
      assert Times(latest) == Times(before) + {r.capturedAt};
      if Positive(name, r) {
        LaterIsMaximum(PositiveTimes(name, before), ObservedAt(name, before), r.capturedAt);
        assert PositiveTimes(name, latest) == PositiveTimes(name, before) + {r.capturedAt};
      } else {
        assert PositiveTimes(name, latest) == PositiveTimes(name, before);
      }
    }
  }

  // ------------------------------------------------------- order independence

  // Equal but for the ttls of their records.
  predicate SameButTtl(a: Summary, b: Summary) {
    && a.name == b.name && a.hasTlsa == b.hasTlsa && a.records.Keys == b.records.Keys && a.owners == b.owners
    && a.observedAt == b.observedAt && a.checkedAt == b.checkedAt
  }

  // Observations in any order, even repeated, give one summary up to the ttls.
  lemma {:induction false} OrderDoesNotMatter(name: string, a: seq<Row>, b: seq<Row>)
    requires Set(a) == Set(b) && NoTies(Set(a))
    ensures SameButTtl(Summarize(name, a), Summarize(name, b))
  {
    LatestIs(a);
    LatestIs(b);
    assert forall r :: r in Latest(a) <==> r in Latest(b);
    forall k ensures k in Summarize(name, a).records <==> k in Summarize(name, b).records {
      SummaryRecords(name, a, k);
      SummaryRecords(name, b, k);
    }
    assert Summarize(name, a).records.Keys == Summarize(name, b).records.Keys;
    TimesAreMaxima(name, Latest(a));
    TimesAreMaxima(name, Latest(b));
    assert Times(Latest(a)) == Times(Latest(b)) && PositiveTimes(name, Latest(a)) == PositiveTimes(name, Latest(b));
    MaximumUnique(Times(Latest(a)), CheckedAt(Latest(a)), CheckedAt(Latest(b)));
    MaximumUnique(PositiveTimes(name, Latest(a)), ObservedAt(name, Latest(a)), ObservedAt(name, Latest(b)));
  }

  lemma {:induction false} GivenByRecord(name: string, r: Row, n: nat, k: Record)
    requires n <= |r.answer| && GivenTtl(name, r, n, k).Some?
    ensures exists t :: t in r.answer && Counts(name, r, t) && Key(t) == k && t.ttl == GivenTtl(name, r, n, k).value
  {
    if Counts(name, r, r.answer[n - 1]) && Key(r.answer[n - 1]) == k { assert r.answer[n - 1] in r.answer; }
    else { GivenByRecord(name, r, n - 1, k); }
  }

  // A stored ttl is that of some record which counts.
  lemma {:induction false} TtlIsObserved(name: string, latest: seq<Row>, k: Record)
    requires k in Records(name, latest)
    ensures exists r, t ::
      r in latest && t in r.answer && Counts(name, r, t) && Key(t) == k && t.ttl == Records(name, latest)[k]
  {
    StoredIsGiven(name, latest, k);
    var r :| r in latest && Gives(name, r, k) == StoredTtl(Records(name, latest), k);
    GivenByRecord(name, r, |r.answer|, k);
    var t :| t in r.answer && Counts(name, r, t) && Key(t) == k && t.ttl == Records(name, latest)[k];
  }

  // ------------------------------------------------------------------- ttls

  // The other observations of the vantage point of `r`.
  ghost function Own(rows: set<Row>, r: Row): set<Row> {
    set x | x in rows && IsTlsa(x) && IdentityOf(x) == IdentityOf(r) && x != r
  }

  // A row order that reads the vantage point of `r` last.
  lemma {:induction false} ReadLast(rows: set<Row>, r: Row) returns (order: seq<Row>, before: seq<Row>)
    requires NoTies(rows) && IsLatest(rows, r)
    ensures Set(order) == rows && |order| == |rows| && Latest(order) == before + [r]
  {
    var others := Enumerate(rows - Own(rows, r) - {r});
    var older := Enumerate(Own(rows, r));
    before, order := Latest(others), others + [r] + older;
    SetJoin(others + [r], older);
    SetJoin(others, [r]);
    assert Set([r]) == {r} && rows == rows - Own(rows, r) - {r} + {r} + Own(rows, r);
    OthersFirst(rows, r, others);
    OwnLose(rows, r, others, older);
  }

  lemma {:induction false} OthersFirst(rows: set<Row>, r: Row, others: seq<Row>)
    requires NoTies(rows) && Set(others) == rows - Own(rows, r) - {r} && IsTlsa(r)
    ensures Latest(others + [r]) == Latest(others) + [r]
    ensures forall x :: x in Latest(others) ==> IdentityOf(x) != IdentityOf(r)
  {
    assert forall x :: x in others ==> x in Set(others);
    LatestWithout(others, r);
    assert (others + [r])[..|others|] == others;
    PutAbsent(Latest(others), r);
  }

  lemma {:induction false} OwnLose(rows: set<Row>, r: Row, others: seq<Row>, older: seq<Row>)
    requires IsLatest(rows, r) && Set(older) == Own(rows, r) && Latest(others + [r]) == Latest(others) + [r]
    requires forall x :: x in Latest(others) ==> IdentityOf(x) != IdentityOf(r)
    ensures Latest(others + [r] + older) == Latest(others) + [r]
  {
    forall x | x in older
      ensures IsTlsa(x) && IdentityOf(x) == IdentityOf(r) && !Newer(x, r)
    {
      assert x in Set(older);
    }
    OlderLose(others + [r], Latest(others), r, older);
  }

  lemma {:induction false} SetJoin(a: seq<Row>, b: seq<Row>)
    ensures Set(a + b) == Set(a) + Set(b)
  {}

  lemma {:induction false} LatestWithout(others: seq<Row>, r: Row)
    requires NoTies(Set(others)) && forall x :: x in others ==> !(IsTlsa(x) && IdentityOf(x) == IdentityOf(r))
    ensures forall x :: x in Latest(others) ==> IdentityOf(x) != IdentityOf(r)
  {
    LatestIs(others);
  }

  lemma {:induction false} Enumerate(rows: set<Row>) returns (order: seq<Row>)
    ensures Set(order) == rows && |order| == |rows|
  {
    order := [];
    if rows != {} {
      var r :| r in rows;
      var rest := Enumerate(rows - {r});
      order := rest + [r];
      SetJoin(rest, [r]);
    }
  }

  lemma {:induction false} PutAbsent(latest: seq<Row>, r: Row)
    requires forall x :: x in latest ==> IdentityOf(x) != IdentityOf(r)
    ensures Put(latest, r) == latest + [r]
  {
    if latest != [] {
      assert latest == [latest[0]] + latest[1..];
      PutAbsent(latest[1..], r);
    }
  }

  lemma {:induction false} PutOlder(before: seq<Row>, r: Row, x: Row)
    requires forall y :: y in before ==> IdentityOf(y) != IdentityOf(r)
    requires IdentityOf(x) == IdentityOf(r) && !Newer(x, r)
    ensures Put(before + [r], x) == before + [r]
  {
    if before != [] {
      assert (before + [r])[1..] == before[1..] + [r];
      assert before == [before[0]] + before[1..];
      PutOlder(before[1..], r, x);
    }
  }

  // Rows of the vantage point that are no newer change nothing.
  lemma {:induction false} OlderLose(rows: seq<Row>, before: seq<Row>, r: Row, older: seq<Row>)
    requires Latest(rows) == before + [r] && forall y :: y in before ==> IdentityOf(y) != IdentityOf(r)
    requires forall x :: x in older ==> IsTlsa(x) && IdentityOf(x) == IdentityOf(r) && !Newer(x, r)
    ensures Latest(rows + older) == before + [r]
  {
    if older == [] { assert rows + older == rows; }
    else {
      var x := older[|older| - 1];
      OlderLose(rows, before, r, older[..|older| - 1]);
      assert (rows + older)[..|rows + older| - 1] == rows + older[..|older| - 1];
      assert x in older;
      PutOlder(before, r, x);
    }
  }

  // No two latest observations that hold a record give it different ttls.
  ghost predicate TtlsAgree(name: string, rows: set<Row>) {
    forall r, q, k {:trigger Gives(name, r, k), Gives(name, q, k)} ::
      IsLatest(rows, r) && IsLatest(rows, q) && Gives(name, r, k).Some? && Gives(name, q, k).Some? ==>
        Gives(name, r, k) == Gives(name, q, k)
  }

  ghost predicate OneSummary(name: string, rows: set<Row>) {
    forall a, b :: Set(a) == rows && Set(b) == rows ==> Summarize(name, a) == Summarize(name, b)
  }

  lemma {:induction false} AgreeingTtl(name: string, rows: set<Row>, a: seq<Row>, b: seq<Row>, k: Record)
    requires NoTies(rows) && TtlsAgree(name, rows) && Set(a) == rows && Set(b) == rows
    requires k in Records(name, Latest(a)) && k in Records(name, Latest(b))
    ensures Records(name, Latest(a))[k] == Records(name, Latest(b))[k]
  {
    LatestIs(a);
    LatestIs(b);
    StoredIsGiven(name, Latest(a), k);
    StoredIsGiven(name, Latest(b), k);
    var r :| r in Latest(a) && Gives(name, r, k) == StoredTtl(Records(name, Latest(a)), k);
    var q :| q in Latest(b) && Gives(name, q, k) == StoredTtl(Records(name, Latest(b)), k);
    assert IsLatest(rows, r) && IsLatest(rows, q);
  }

  // The ttl is the one thing the order of reading decides: every order gives
  // one summary, ttls included, exactly if the latest observations agree on
  // the ttls of the records they share.
  lemma {:induction false} OneSummaryIff(name: string, rows: set<Row>)
    requires NoTies(rows)
    ensures OneSummary(name, rows) <==> TtlsAgree(name, rows)
  {
    if TtlsAgree(name, rows) {
      forall a, b | Set(a) == rows && Set(b) == rows ensures Summarize(name, a) == Summarize(name, b) {
        OrderDoesNotMatter(name, a, b);
        forall k | k in Summarize(name, a).records
          ensures Summarize(name, a).records[k] == Summarize(name, b).records[k]
        {
          AgreeingTtl(name, rows, a, b, k);
        }
      }
    }
    if OneSummary(name, rows) {
      forall r, q, k | IsLatest(rows, r) && IsLatest(rows, q) && Gives(name, r, k).Some? && Gives(name, q, k).Some?
        ensures Gives(name, r, k) == Gives(name, q, k)
      {
        var a, before := ReadLast(rows, r);
        var b, earlier := ReadLast(rows, q);
        LastGives(name, before, r, k);
        LastGives(name, earlier, q, k);
        assert Summarize(name, a) == Summarize(name, b);
      }
    }
  }

  // --------------------------------------------------------- the owner's shape

  lemma {:induction false} TrimDotsNothing(s: string)
    requires s == "" || s[|s| - 1] != '.'
    ensures TrimRight(s, Dots) == s
    ensures TrimRight(s + ".", Dots) == s
  {}

  // Owners that count for `root`: `_443._tcp.root.` and `_443._tcp.<sub>.root.`
  lemma {:induction false} HttpsOwnerShape(host: string, root: string)
    requires root != "" && root[|root| - 1] != '.' && (host == "" || host[|host| - 1] != '.')
    ensures IsHttpsOwner(HTTPS_PREFIX + host + ".", root + ".") <==>
      host == root || exists sub: string :: host == sub + "." + root
  {
    var owner := HTTPS_PREFIX + host + ".";
    assert owner[..|HTTPS_PREFIX|] == HTTPS_PREFIX;
    assert owner[|HTTPS_PREFIX|..] == host + ".";
    TrimDotsNothing(host);
    TrimDotsNothing(root);
    var tail := "." + root;
    if EndsWith(host, tail) {
      var sub := host[..|host| - |tail|];
      assert host == sub + tail;
      assert host == sub + "." + root;
    }
    if sub: string :| host == sub + "." + root {
      assert host == sub + tail;
      assert host[|host| - |tail|..] == tail;
    }
  }
}
