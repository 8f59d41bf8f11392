// Summaries of DNS evidence: the latest TLSA observation of each vantage point
// decides, whatever the order the observations are read in.
module Tlsa {
  import opened Text

  // A record of an answer, its owner already normalised by the parser.
  datatype Record = Record(owner: string, usage: int, selector: int, matchingType: int, association: string,
    ttl: Option<nat>)

  datatype Row = Row(
    id: int, name: string, qname: string, rrtype: string, server: string, source: string, sourceId: string,
    status: string, rcode: string, flags: seq<string>, answer: seq<Record>, capturedAt: string)

  datatype Identity = Identity(qname: string, server: string, source: string, sourceId: string)

  datatype Summary = Summary(
    name: string, hasTlsa: bool, records: map<Record, Option<nat>>, owners: set<string>,
    observedAt: Option<string>, checkedAt: Option<string>)

  // ------------------------------------------------------------------- one row

  // _normalized_dns_name
  function DnsName(s: string): string {
    if PlainName(s) == "" then "" else PlainName(s) + "."
  }

  predicate IsTlsa(r: Row) { Lower(r.rrtype) == "tlsa" }

  function IdentityOf(r: Row): Identity { Identity(DnsName(r.qname), r.server, r.source, r.sourceId) }

  predicate Newer(a: Row, b: Row) { Less(b.capturedAt, a.capturedAt) || (a.capturedAt == b.capturedAt && b.id < a.id) }

  predicate Successful(r: Row) {
    && Lower(r.status) == "ok" && Lower(r.rcode) in {"", "noerror"}
    && exists f :: f in r.flags && Lower(f) in {"aa", "ad"}
  }

  const HTTPS_PREFIX: string := "_443._tcp."

  predicate StartsWith(s: string, prefix: string) { |prefix| <= |s| && s[..|prefix|] == prefix }

  predicate EndsWith(s: string, suffix: string) { |suffix| <= |s| && s[|s| - |suffix|..] == suffix }

  // _is_https_owner_for_name
  predicate IsHttpsOwner(owner: string, name: string) {
    StartsWith(owner, HTTPS_PREFIX)
    && var host, root := TrimRight(owner[|HTTPS_PREFIX|..], Dots), TrimRight(name, Dots);
    root != "" && (host == root || EndsWith(host, "." + root))
  }

  // A record without its ttl: what tells two records apart.
  function Key(t: Record): Record { t.(ttl := None) }

  predicate Counts(name: string, r: Row, t: Record) {
    Successful(r) && t in r.answer && t.owner == DnsName(r.qname) && IsHttpsOwner(t.owner, DnsName(name))
  }

  // ------------------------------------------------------------ the summary

  // The dictionary `latest`, its values in insertion order.
  function Put(latest: seq<Row>, r: Row): seq<Row> {
    if latest == [] then [r]
    else if IdentityOf(latest[0]) == IdentityOf(r) then (if Newer(r, latest[0]) then [r] else [latest[0]]) + latest[1..]
    else [latest[0]] + Put(latest[1..], r)
  }

  function Latest(rows: seq<Row>): seq<Row> {
    if rows == [] then []
    else
      var before, r := Latest(rows[..|rows| - 1]), rows[|rows| - 1];
      if IsTlsa(r) then Put(before, r) else before
  }

  // The records of one row that count, put into the dictionary of records.
  function RowRecords(name: string, r: Row, n: nat, records: map<Record, Option<nat>>): map<Record, Option<nat>>
    requires n <= |r.answer|
  {
    if n == 0 then records
    else
      var before, t := RowRecords(name, r, n - 1, records), r.answer[n - 1];
      if Counts(name, r, t) then before[Key(t) := t.ttl] else before
  }

  function Records(name: string, latest: seq<Row>): map<Record, Option<nat>> {
    if latest == [] then map[]
    else
      var r := latest[|latest| - 1];
      RowRecords(name, r, |r.answer|, Records(name, latest[..|latest| - 1]))
  }

  // max(times, default=None) with empty times left out.
  function Later(a: Option<string>, time: string): Option<string> {
    if time == "" then a else if a.None? || Less(a.value, time) then Some(time) else a
  }

  function CheckedAt(latest: seq<Row>): Option<string> {
    if latest == [] then None else Later(CheckedAt(latest[..|latest| - 1]), latest[|latest| - 1].capturedAt)
  }

  predicate Positive(name: string, r: Row) { exists t :: t in r.answer && Counts(name, r, t) }

  function ObservedAt(name: string, latest: seq<Row>): Option<string> {
    if latest == [] then None
    else
      var before, r := ObservedAt(name, latest[..|latest| - 1]), latest[|latest| - 1];
      if Positive(name, r) then Later(before, r.capturedAt) else before
  }

  function Summarize(name: string, rows: seq<Row>): Summary {
    var latest := Latest(rows);
    var records := Records(name, latest);
    Summary(TrimRight(DnsName(name), Dots), records != map[], records, set t | t in records :: t.owner,
            ObservedAt(name, latest), CheckedAt(latest))
  }

  // ------------------------------------------------------ the loops of the code

  method LatestRows(rows: seq<Row>) returns (latest: seq<Row>)
    ensures latest == Latest(rows)
  {
    latest := [];
    for i := 0 to |rows|
      invariant latest == Latest(rows[..i])
    {
      assert rows[..i + 1][..i] == rows[..i];
      if IsTlsa(rows[i]) { latest := Put(latest, rows[i]); }
    }
    assert rows[..|rows|] == rows;
  }

  method AddRecords(name: string, r: Row, records0: map<Record, Option<nat>>, observed0: Option<string>)
      returns (records: map<Record, Option<nat>>, observed: Option<string>)
    ensures records == RowRecords(name, r, |r.answer|, records0)
    ensures observed == if Positive(name, r) then Later(observed0, r.capturedAt) else observed0
  {
    records, observed := records0, observed0;
    if !Successful(r) {
      NoRecords(name, r, |r.answer|, records0);
      return;
    }
    var found;
    records, found := AnswerRecords(name, r, records0);
    if found { observed := Later(observed, r.capturedAt); }
  }

  predicate Owned(name: string, r: Row, t: Record) {
    t.owner == DnsName(r.qname) && IsHttpsOwner(t.owner, DnsName(name))
  }

  lemma {:induction false} OwnedCounts(name: string, r: Row, k: nat)
    requires k < |r.answer| && Successful(r)
    ensures Owned(name, r, r.answer[k]) <==> Counts(name, r, r.answer[k])
  {}

  // Whether one of the first `k` records counts.
  predicate PositiveTo(name: string, r: Row, k: nat)
    requires k <= |r.answer|
  {
    k > 0 && (Counts(name, r, r.answer[k - 1]) || PositiveTo(name, r, k - 1))
  }

  function Tests(name: string, r: Row): seq<bool> { seq(|r.answer|,
        i requires 0 <= i < |r.answer| => Counts(name, r, r.answer[i])) }

  predicate AnyTrue(tests: seq<bool>, k: nat)
    requires k <= |tests|
  {
    k > 0 && (tests[k - 1] || AnyTrue(tests, k - 1))
  }

  lemma {:induction false} AnyTrueIs(tests: seq<bool>, k: nat)
    requires k <= |tests|
    ensures AnyTrue(tests, k) <==> exists i :: 0 <= i < k && tests[i]
  {
    if k > 0 { AnyTrueIs(tests, k - 1); }
  }

  lemma {:induction false} PositiveToTests(name: string, r: Row, k: nat, tests: seq<bool>)
    requires k <= |r.answer| == |tests| && forall i :: 0 <= i < k ==> tests[i] == Counts(name, r, r.answer[i])
    ensures PositiveTo(name, r, k) == AnyTrue(tests, k)
  {
    if k > 0 { PositiveToTests(name, r, k - 1, tests); }
  }

  lemma {:induction false} PositiveIsAny(name: string, r: Row)
    ensures PositiveTo(name, r, |r.answer|) <==> Positive(name, r)
  {
    var tests := Tests(name, r);
    PositiveToTests(name, r, |r.answer|, tests);
    AnyTrueIs(tests, |tests|);
    if Positive(name, r) {
      var t :| t in r.answer && Counts(name, r, t);
      var i :| 0 <= i < |r.answer| && r.answer[i] == t;
      assert tests[i];
    }
    if i :| 0 <= i < |tests| && tests[i] { assert r.answer[i] in r.answer; }
  }

  method AnswerRecords(name: string, r: Row, records0: map<Record, Option<nat>>)
      returns (records: map<Record, Option<nat>>, found: bool)
    requires Successful(r)
    ensures records == RowRecords(name, r, |r.answer|, records0)
    ensures found <==> Positive(name, r)
  {
    records, found := records0, false;
    PositiveIsAny(name, r);
    for k := 0 to |r.answer|
      invariant records == RowRecords(name, r, k, records0)
      invariant found == PositiveTo(name, r, k)
    {
      OwnedCounts(name, r, k);
      if Owned(name, r, r.answer[k]) { records, found := records[Key(r.answer[k]) := r.answer[k].ttl], true; }
    }
  }

  lemma {:induction false} NoRecords(name: string, r: Row, n: nat, records: map<Record, Option<nat>>)
    requires n <= |r.answer| && !Successful(r)
    ensures RowRecords(name, r, n, records) == records
  {
    if n > 0 { NoRecords(name, r, n - 1, records); }
  }

  method SummarizeTlsaEvidence(name: string, rows: seq<Row>) returns (s: Summary)
    ensures s == Summarize(name, rows)
  {
    var latest := LatestRows(rows);
    var records: map<Record, Option<nat>> := map[];
    var observed: Option<string>, checked: Option<string> := None, None;
    for i := 0 to |latest|
      invariant records == Records(name, latest[..i])
      invariant observed == ObservedAt(name, latest[..i]) && checked == CheckedAt(latest[..i])
    {
      assert latest[..i + 1][..i] == latest[..i];
      checked := Later(checked, latest[i].capturedAt);
      records, observed := AddRecords(name, latest[i], records, observed);
    }
    assert latest[..|latest|] == latest;
    var owners := set t | t in records :: t.owner;
    s := Summary(TrimRight(DnsName(name), Dots), records != map[], records, owners, observed, checked);
  }

  // -------------------------------------------------- what the latest rows are

  // `r` is an observation no other of its vantage point is newer than.
  ghost predicate IsLatest(rows: set<Row>, r: Row) {
    r in rows && IsTlsa(r) && forall q :: q in rows && IsTlsa(q) && IdentityOf(q) == IdentityOf(r) ==> !Newer(q, r)
  }

  // Two observations of a vantage point never tie: ids are unique.
  ghost predicate NoTies(rows: set<Row>) {
    forall a, b :: a in rows && b in rows && a != b ==> Newer(a, b) || Newer(b, a)
  }

  function Set(rows: seq<Row>): set<Row> { set r | r in rows }

  ghost predicate OnePerIdentity(latest: seq<Row>) {
    forall i, j :: 0 <= i < j < |latest| ==> IdentityOf(latest[i]) != IdentityOf(latest[j])
  }

  lemma {:induction false} NewerOrder(a: Row, b: Row, c: Row)
    ensures !Newer(a, a)
    ensures Newer(a, b) && Newer(b, c) ==> Newer(a, c)
    ensures Newer(a, b) || Newer(b, a) || (a.capturedAt == b.capturedAt && a.id == b.id)
  {
    LessIrreflexive(a.capturedAt);
    LessTotal(a.capturedAt, b.capturedAt);
    if Less(c.capturedAt, b.capturedAt) && Less(b.capturedAt, a.capturedAt) {
      LessTransitive(c.capturedAt, b.capturedAt, a.capturedAt);
    }
  }

  // Putting a row replaces the entry of its identity if it is newer.
  lemma {:induction false} PutHas(latest: seq<Row>, r: Row)
    requires OnePerIdentity(latest)
    ensures OnePerIdentity(Put(latest, r))
    ensures forall x :: x in Put(latest, r) <==>
      (x in latest && (IdentityOf(x) == IdentityOf(r) ==> !Newer(r, x)))
      || (x == r && forall y :: y in latest && IdentityOf(y) == IdentityOf(r) ==> Newer(r, y))
    ensures forall x :: x in Put(latest, r) ==> IdentityOf(x) == IdentityOf(r) || x in latest
  {
    if latest != [] {
      assert latest == [latest[0]] + latest[1..];
      if IdentityOf(latest[0]) == IdentityOf(r) {
        forall y | y in latest[1..] ensures IdentityOf(y) != IdentityOf(r) {
          var i :| 0 <= i < |latest[1..]| && latest[1..][i] == y;
          assert latest[i + 1] == y;
        }
      } else {
        PutHas(latest[1..], r);
        var rest := Put(latest[1..], r);
        forall j | 0 <= j < |rest| ensures IdentityOf(rest[j]) != IdentityOf(latest[0]) {
          assert rest[j] in rest;
          if rest[j] in latest[1..] {
            var i :| 0 <= i < |latest[1..]| && latest[1..][i] == rest[j];
            assert latest[i + 1] == rest[j];
          }
        }
      }
    }
  }

  // The dictionary ends with exactly the latest rows.
  lemma {:induction false} LatestIs(rows: seq<Row>)
    requires NoTies(Set(rows))
    ensures OnePerIdentity(Latest(rows))
    ensures forall r :: r in Latest(rows) <==> IsLatest(Set(rows), r)
  {
    if rows != [] {
      var before, last := rows[..|rows| - 1], rows[|rows| - 1];
      assert rows == before + [last];
      assert Set(rows) == Set(before) + {last};
      LatestIs(before);
      if IsTlsa(last) {
        PutHas(Latest(before), last);
        forall r ensures r in Latest(rows) <==> IsLatest(Set(rows), r) { PutIsLatest(before, last, r); }
      }
    }
  }

  lemma {:induction false} PutIsLatest(before: seq<Row>, last: Row, r: Row)
    requires NoTies(Set(before) + {last}) && IsTlsa(last) && OnePerIdentity(Latest(before))
    requires forall x :: x in Latest(before) <==> IsLatest(Set(before), x)
    ensures r in Put(Latest(before), last) <==> IsLatest(Set(before) + {last}, r)
  {
    var all, latest := Set(before) + {last}, Latest(before);
    PutHas(latest, last);
    NewerOrder(last, last, last);
    if IsLatest(all, r) && r == last {
      forall y | y in latest && IdentityOf(y) == IdentityOf(last) ensures Newer(last, y) || y == last {
        assert y in all && !Newer(y, last);
      }
      if last in latest { assert r in Put(latest, last); }
    }
    if r == last && r in Put(latest, last) {
      forall q | q in all && IsTlsa(q) && IdentityOf(q) == IdentityOf(last) ensures !Newer(q, last) {
        if q in Set(before) { NewestKnown(before, q, last); }
      }
    }
  }

  // If `last` beats the latest row of its identity it beats every row of it.
  lemma {:induction false} NewestKnown(before: seq<Row>, q: Row, last: Row)
    requires forall x :: x in Latest(before) <==> IsLatest(Set(before), x)
    requires q in before && IsTlsa(q) && IsTlsa(last) && IdentityOf(q) == IdentityOf(last)
    requires NoTies(Set(before) + {last})
    requires last in Put(Latest(before), last) && OnePerIdentity(Latest(before))
    ensures !Newer(q, last)
  {
    PutHas(Latest(before), last);
    NewerOrder(last, last, last);
    var m := LatestOfIdentity(Set(before), q);
    assert m in Latest(before);
    NewerOrder(q, last, m);
    NewerOrder(last, m, q);
    NewerOrder(m, q, last);
    NewerOrder(q, last, q);
  }

  lemma {:induction false} LatestOfIdentity(rows: set<Row>, q: Row) returns (m: Row)
    requires q in rows && IsTlsa(q) && NoTies(rows)
    ensures IsLatest(rows, m) && IdentityOf(m) == IdentityOf(q) && !Newer(q, m)
    decreases set r | r in rows && Newer(r, q)
  {
    NewerOrder(q, q, q);
    if p :| p in rows && IsTlsa(p) && IdentityOf(p) == IdentityOf(q) && Newer(p, q) {
      NewerOrder(p, p, p);
      forall r | r in rows && Newer(r, p) ensures Newer(r, q) { NewerOrder(r, p, q); }
      var above, higher := set r | r in rows && Newer(r, q), set r | r in rows && Newer(r, p);
      assert p in above && p !in higher && higher <= above;
      m := LatestOfIdentity(rows, p);
      NewerOrder(q, m, q);
      NewerOrder(p, q, m);
      NewerOrder(m, p, q);
    } else {
      m := q;
    }
  }
}
