// The TLSA summary on the columns of the evidence rows: which observation of a
// vantage point is the latest, and what it takes for a name to have TLSA.
module TlsaColumns {
  import opened Text
  import opened Tlsa
  import opened TlsaSummary
  import opened TlsaTables

  // ---------------------------------------------------------- the latest rows

  predicate IsQuestion(r: Row) { Lower(r.rrtype) == "tlsa" }

  // A vantage point: the name asked for in plain form, server and source.
  predicate SameVantage(a: Row, b: Row) {
    TrimRight(Lower(Strip(a.qname)), Dots) == TrimRight(Lower(Strip(b.qname)), Dots)
    && a.server == b.server && a.source == b.source && a.sourceId == b.sourceId
  }

  // `q` was captured after `r`, or at the same time with the higher id.
  predicate After(q: Row, r: Row) { Less(r.capturedAt, q.capturedAt) || (r.capturedAt == q.capturedAt && q.id > r.id) }

  // A TLSA row with none of its vantage point after it.
  ghost predicate Newest(rows: seq<Row>, r: Row) {
    r in rows && IsQuestion(r) && forall q :: q in rows && IsQuestion(q) && SameVantage(q, r) ==> !After(q, r)
  }

  // The primary key of dns_evidence.
  ghost predicate DistinctIds(rows: seq<Row>) { forall a, b :: a in rows && b in rows && a.id == b.id ==> a == b }

  lemma {:induction false} IdsDecide(rows: seq<Row>)
    requires DistinctIds(rows)
    ensures NoTies(Set(rows))
  {
    forall a, b | a in rows && b in rows && a != b ensures Newer(a, b) || Newer(b, a) {
      LessTotal(a.capturedAt, b.capturedAt);
    }
  }

  lemma {:induction false} VantageIs(a: Row, b: Row)
    ensures SameVantage(a, b) <==> IdentityOf(a) == IdentityOf(b)
  {
    var p, q := PlainName(a.qname), PlainName(b.qname);
    assert p != "" && q != "" && p + "." == q + "." ==> p == q by {
      if p + "." == q + "." {
        assert p == (p + ".")[..|p + "."| - 1] && q == (q + ".")[..|q + "."| - 1];
      }
    }
  }

  // The dictionary holds the newest row of each vantage point, and no other.
  lemma {:induction false} LatestIsNewest(rows: seq<Row>, r: Row)
    requires DistinctIds(rows)
    ensures r in Latest(rows) <==> Newest(rows, r)
  {
    IdsDecide(rows);
    LatestIs(rows);
    forall q ensures SameVantage(q, r) <==> IdentityOf(q) == IdentityOf(r) { VantageIs(q, r); }
  }

  // ---------------------------------------------------------------- has_tlsa

  // An answer without error that an authority or a validating resolver gave.
  ghost predicate Answers(r: Row) {
    && Lower(r.status) == "ok" && (r.rcode == "" || Lower(r.rcode) == "noerror")
    && exists f :: f in r.flags && (Lower(f) == "aa" || Lower(f) == "ad")
  }

  ghost predicate Under(host: string, root: string) {
    host == root || exists sub: string :: host == sub + "." + root
  }

  // The owner is `_443._tcp` of the root or of a name below it.
  ghost predicate HttpsName(owner: string, root: string) {
    root != "" && exists host: string :: owner == "_443._tcp." + host && Under(TrimRight(host, Dots), root)
  }

  // The row holds a record owned by the name it asked for, an HTTPS name of `n`.
  ghost predicate Holds(r: Row, t: Record, n: string) {
    && t in r.answer && t.owner == TrimRight(Lower(Strip(r.qname)), Dots) + "."
    && HttpsName(t.owner, TrimRight(Lower(Strip(n)), Dots))
  }

  lemma {:induction false} TrimmedTwice(s: string)
    ensures TrimRight(DnsName(s), Dots) == PlainName(s)
  {
    TrimmedEnd(Lower(Strip(s)), Dots);
    TrimDotsNothing(PlainName(s));
  }

  lemma {:induction false} OwnerIs(owner: string, n: string)
    ensures IsHttpsOwner(owner, DnsName(n)) <==> HttpsName(owner, PlainName(n))
  {
    TrimmedTwice(n);
    var root := PlainName(n);
    if StartsWith(owner, HTTPS_PREFIX) {
      var rest := owner[|HTTPS_PREFIX|..];
      assert owner == "_443._tcp." + rest;
      EndsWithIff(TrimRight(rest, Dots), "." + root);
      if sub: string :| TrimRight(rest, Dots) == sub + ("." + root) { assert sub + ("." + root) == sub + "." + root; }
    }
    forall host: string | owner == "_443._tcp." + host ensures host == owner[|HTTPS_PREFIX|..] {}
    forall sub: string ensures sub + ("." + root) == sub + "." + root {}
  }

  lemma {:induction false} EndsWithIff(s: string, suffix: string)
    ensures EndsWith(s, suffix) <==> exists pre: string :: s == pre + suffix
  {
    if EndsWith(s, suffix) { assert s == s[..|s| - |suffix|] + suffix; }
  }

  lemma {:induction false} HoldsIsCounts(r: Row, t: Record, n: string)
    ensures Answers(r) && Holds(r, t, n) <==> t in r.answer && Counts(n, r, t)
  {
    OwnerIs(t.owner, n);
    if PlainName(r.qname) == "" { NoOwner(n); }
  }

  lemma {:induction false} NoOwner(n: string)
    ensures !HttpsName(".", PlainName(n)) && !HttpsName("", PlainName(n))
  {
    forall host: string ensures "." != "_443._tcp." + host && "" != "_443._tcp." + host {
      assert |"_443._tcp." + host| == 10 + |host|;
    }
  }

  // A name has TLSA exactly if the newest row of some vantage point answers
  // with such a record.
  lemma {:induction false} HasTlsaColumns(n: string, rows: seq<Row>)
    requires DistinctIds(rows)
    ensures Summarize(n, rows).hasTlsa <==> exists r, t :: Newest(rows, r) && Answers(r) && Holds(r, t, n)
  {
    IdsDecide(rows);
    HasTlsaIff(n, rows);
    LatestIs(rows);
    forall r ensures IsLatest(Set(rows), r) <==> Newest(rows, r) { LatestIsNewest(rows, r); }
    forall r, t ensures Answers(r) && Holds(r, t, n) <==> t in r.answer && Counts(n, r, t) { HoldsIsCounts(r, t, n); }
    if r, t :| Newest(rows, r) && Answers(r) && Holds(r, t, n) {
      assert IsLatest(Set(rows), r) && t in r.answer && Counts(n, r, t);
    }
  }

  // An older answer does not keep a removed record alive: once a row that does
  // not count is the newest of its vantage point, has_tlsa needs another one.
  lemma {:induction false} LaterRowEndsTlsa(n: string, rows: seq<Row>, q: Row)
    requires DistinctIds(rows) && q in rows && IsQuestion(q)
    requires forall r :: r in rows && IsQuestion(r) && SameVantage(r, q) && r != q ==> After(q, r)
    requires !Answers(q) || forall t :: !Holds(q, t, n)
    requires forall r, t :: r in rows && IsQuestion(r) && !SameVantage(r, q) && Answers(r) ==> !Holds(r, t, n)
    ensures !Summarize(n, rows).hasTlsa
  {
    HasTlsaColumns(n, rows);
    if r, t :| Newest(rows, r) && Answers(r) && Holds(r, t, n) {
      VantageIs(q, r);
      VantageIs(r, q);
    }
  }

  // The columns of a record but its ttl.
  predicate SameRecord(a: Record, b: Record) {
    && a.owner == b.owner && a.usage == b.usage && a.selector == b.selector && a.matchingType == b.matchingType
    && a.association == b.association
  }

  // The summary's records and owners are those of the newest rows, each record
  // once whatever its ttl is, under the plain form of the name.
  lemma {:induction false} RecordColumns(n: string, rows: seq<Row>, k: Record)
    requires DistinctIds(rows)
    ensures k in Summarize(n, rows).records <==>
      k.ttl.None? && exists r, t :: Newest(rows, r) && Answers(r) && Holds(r, t, n) && SameRecord(t, k)
    ensures Summarize(n, rows).owners == set t | t in Summarize(n, rows).records :: t.owner
    ensures Summarize(n, rows).name == TrimRight(Lower(Strip(n)), Dots)
  {
    IdsDecide(rows);
    SummaryRecords(n, rows, k);
    LatestIs(rows);
    TrimmedTwice(n);
    forall r ensures IsLatest(Set(rows), r) <==> Newest(rows, r) { LatestIsNewest(rows, r); }
    forall r, t ensures Answers(r) && Holds(r, t, n) <==> t in r.answer && Counts(n, r, t) { HoldsIsCounts(r, t, n); }
    forall t ensures Key(t) == k <==> k.ttl.None? && SameRecord(t, k) {}
    if r, t :| Newest(rows, r) && Answers(r) && Holds(r, t, n) && SameRecord(t, k) {
      assert IsLatest(Set(rows), r) && t in r.answer && Counts(n, r, t);
    }
  }

  // observed_at is the last time of a newest row that holds a record.
  lemma {:induction false} ObservedAtIs(n: string, rows: seq<Row>)
    requires DistinctIds(rows)
    ensures var observed := Summarize(n, rows).observedAt;
      && (observed.Some? ==> observed.value != "" && exists r :: Witness(rows, r, n) && r.capturedAt == observed.value)
      && forall r :: Witness(rows, r, n) ==>
           if observed.None? then r.capturedAt == "" else !Less(observed.value, r.capturedAt)
  {
    var latest, observed := Latest(rows), ObservedAt(n, Latest(rows));
    TimesAreMaxima(n, latest);
    forall r ensures Witness(rows, r, n) <==> r in latest && Positive(n, r) {
      LatestIsNewest(rows, r);
      forall t ensures Answers(r) && Holds(r, t, n) <==> t in r.answer && Counts(n, r, t) { HoldsIsCounts(r, t, n); }
    }
    forall r | Witness(rows, r, n)
      ensures if observed.None? then r.capturedAt == "" else !Less(observed.value, r.capturedAt)
    {
      assert r.capturedAt in PositiveTimes(n, latest);
      LessIrreflexive(r.capturedAt);
      NotEarlier(r.capturedAt, r.capturedAt, observed);
    }
  }

  ghost predicate Witness(rows: seq<Row>, r: Row, n: string) {
    Newest(rows, r) && Answers(r) && exists t :: Holds(r, t, n)
  }

  // The times of all TLSA rows, superseded or not.
  ghost predicate LastTime(rows: seq<Row>, time: Option<string>) {
    if time.None? then forall r :: r in rows && IsQuestion(r) ==> r.capturedAt == ""
    else
      && time.value != "" && (exists r :: r in rows && IsQuestion(r) && r.capturedAt == time.value)
      && forall r :: r in rows && IsQuestion(r) ==> !Less(time.value, r.capturedAt)
  }

  // checked_at is when a TLSA row of the name was last captured.
  lemma {:induction false} CheckedAtIs(n: string, rows: seq<Row>)
    requires DistinctIds(rows)
    ensures LastTime(rows, Summarize(n, rows).checkedAt)
  {
    var latest, time := Latest(rows), CheckedAt(Latest(rows));
    IdsDecide(rows);
    TimesAreMaxima(n, latest);
    forall r ensures r in latest <==> Newest(rows, r) { LatestIsNewest(rows, r); }
    forall r | r in rows && IsQuestion(r)
      ensures if time.None? then r.capturedAt == "" else !Less(time.value, r.capturedAt)
    {
      LatestIs(rows);
      var m := LatestOfIdentity(Set(rows), r);
      assert m in latest && m.capturedAt in Times(latest) && !Less(m.capturedAt, r.capturedAt);
      NotEarlier(m.capturedAt, r.capturedAt, time);
    }
  }

  lemma {:induction false} NotEarlier(m: string, r: string, time: Option<string>)
    requires !Less(m, r) && (if time.None? then m == "" else m == time.value || Less(m, time.value))
    ensures if time.None? then r == "" else !Less(time.value, r)
  {
    LessTotal(m, r);
    if time.Some? && Less(time.value, r) && m != time.value {
      LessTransitive(m, time.value, r);
    }
  }

  // ------------------------------------------------------- the rows of a name

  // The evidence of a name is read newest first, and only its TLSA rows.
  lemma {:induction false} TlsaRowsAre(rows: seq<Row>, n: string)
    ensures var r := TlsaRows(rows, n);
      && (forall q :: q in r <==> q in rows && q.name == n && IsQuestion(q))
      && NewestFirst(r)
  {
    if rows != [] {
      var init, last := rows[..|rows| - 1], rows[|rows| - 1];
      assert rows == init + [last];
      TlsaRowsAre(init, n);
      if last.name == n && IsTlsa(last) { InsertedNewestFirst(last, TlsaRows(init, n)); }
    }
  }

  lemma {:induction false} AfterOrder(a: Row, b: Row, c: Row)
    ensures After(a, b) && After(b, c) ==> After(a, c)
    ensures After(a, b) <==> Newer(a, b)
    ensures !After(a, a)
  {
    NewerOrder(a, b, c);
  }

  ghost predicate NewestFirst(rows: seq<Row>) { forall i, j :: 0 <= i < j < |rows| ==> !After(rows[j], rows[i]) }

  lemma {:induction false} InsertedNewestFirst(x: Row, rows: seq<Row>)
    requires NewestFirst(rows)
    ensures NewestFirst(InsertNewestFirst(x, rows))
    ensures forall q :: q in InsertNewestFirst(x, rows) <==> q == x || q in rows
  {
    if rows != [] {
      var first, rest := rows[0], rows[1..];
      assert rows == [first] + rest;
      if Newer(x, first) {
        forall j | 0 <= j < |rows| ensures !After(rows[j], x) { AfterOrder(rows[j], x, first); }
      } else {
        InsertedNewestFirst(x, rest);
        var more := InsertNewestFirst(x, rest);
        forall j | 0 <= j < |more| ensures !After(more[j], first) { assert more[j] in more; }
      }
    }
  }
}
