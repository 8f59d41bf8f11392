// What select_sweep_candidates selects in the generic tiers, in terms of rows,
// pages and authorities, and the marking of authorities a page shares.
module SweepSelect {
  import opened Text
  import opened Sweep

  datatype Candidate = Candidate(tier: Tier, root: Root, healthKeys: seq<string>)

  datatype Selection = Selection(
    candidates: seq<Candidate>, updates: map<Tier, string>, completed: seq<Tier>, at: int)

  // ---------------------------------------------------------- marked rows

  // A page's rows as candidates, with the health keys the page gives them.
  function MarkedPage(tier: Tier, page: seq<Root>): (marked: seq<Candidate>)
    ensures |marked| == |page| && forall i :: 0 <= i < |page| ==> marked[i].root == page[i] && marked[i].tier == tier
  {
    seq(|page|, i requires 0 <= i < |page| => Candidate(tier, page[i], HealthKeys(tier, page, page[i])))
  }

  // A tier's rows as candidates, marked page by page.
  function MarkedRows(tier: Tier, rows: seq<Root>, size: nat): (marked: seq<Candidate>)
    requires size > 0
    ensures |marked| == |rows| && forall i :: 0 <= i < |rows| ==> marked[i].root == rows[i] && marked[i].tier == tier
    decreases |rows|
  {
    if |rows| <= size then MarkedPage(tier, rows)
    else MarkedPage(tier, rows[..size]) + MarkedRows(tier, rows[size..], size)
  }

  // A page starts at row `n`.
  predicate PageStart(n: nat, size: nat) { n == 0 || (0 < size <= n && PageStart(n - size, size)) }

  lemma {:induction false} MarkedBehind(tier: Tier, rows: seq<Root>, size: nat)
    requires 0 < size <= |rows|
    ensures MarkedRows(tier, rows, size)[size..] == MarkedRows(tier, rows[size..], size)
  {}

  lemma {:induction false} DropTwice<T>(a: seq<T>, m: nat, n: nat)
    requires m <= n <= |a|
    ensures a[m..][n - m..] == a[n..]
  {}

  lemma {:induction false} MarkedFrom(tier: Tier, rows: seq<Root>, size: nat, n: nat)
    requires size > 0 && n <= |rows| && PageStart(n, size)
    ensures MarkedRows(tier, rows, size)[n..] == MarkedRows(tier, rows[n..], size)
  {
    if n == 0 {
      assert rows[0..] == rows;
    } else {
      MarkedBehind(tier, rows, size);
      MarkedFrom(tier, rows[size..], size, n - size);
      DropTwice(rows, size, n);
      DropTwice(MarkedRows(tier, rows, size), size, n);
    }
  }

  // The page read at row `n`.
  lemma {:induction false} MarkedPageAt(tier: Tier, rows: seq<Root>, size: nat, n: nat)
    requires size > 0 && n <= |rows| && PageStart(n, size)
    ensures var page := FirstPage(rows[n..], size);
      n + |page| <= |rows| && MarkedRows(tier, rows, size)[n..n + |page|] == MarkedPage(tier, page)
  {
    MarkedFrom(tier, rows, size, n);
    var rest := rows[n..];
    var page := FirstPage(rest, size);
    var all := MarkedRows(tier, rows, size);
    assert all[n..n + |page|] == all[n..][..|page|];
    assert MarkedRows(tier, rest, size)[..|page|] == MarkedPage(tier, page);
  }

  // ------------------------------------------------------- what a scan means

  predicate Due(c: Candidate, s: Live, now: int) {
    !Skipped(c.tier, c.root) && CoverageDue(s.coverage, c.root, now)
  }

  function Judged(c: Candidate, s: Live, now: int): Authority { AuthorityState(c.healthKeys, s.health, now) }

  // A row that is not to be probed: no bootstrap address, covered, or suppressed.
  predicate Settled(c: Candidate, s: Live, now: int) { !Due(c, s, now) || Judged(c, s, now).Suppressed? }

  // A due row of an unknown authority: the cursor waits there.
  predicate Held(c: Candidate, s: Live, now: int) { Due(c, s, now) && Judged(c, s, now).Unknown? }

  // A row is chosen for good by a candidate that is not a sample.
  predicate Chosen(picks: seq<Candidate>, c: Candidate, s: Live, now: int) {
    c in picks && SampleOf(c, s, now).None?
  }

  // Why the cursor may move over a row.
  predicate Accounted(picks: seq<Candidate>, c: Candidate, s: Live, now: int) {
    Settled(c, s, now) || Chosen(picks, c, s, now)
  }

  ghost predicate AccountedTo(picks: seq<Candidate>, rows: seq<Candidate>, n: nat, s: Live, now: int) {
    n <= |rows|
    && forall k {:trigger Accounted(picks, rows[k], s, now)} :: 0 <= k < n ==> Accounted(picks, rows[k], s, now)
  }

  ghost predicate Ascending(picks: seq<Candidate>) {
    forall i, j {:trigger Less(picks[i].root.name, picks[j].root.name)} ::
      0 <= i < j < |picks| ==> Less(picks[i].root.name, picks[j].root.name)
  }

  // `picks` are rows to be probed, in name order.
  ghost predicate Picked(rows: seq<Candidate>, picks: seq<Candidate>, s: Live, now: int) {
    Ascending(picks) && forall c :: c in picks ==> c in rows && !Settled(c, s, now)
  }

  // The authority key a candidate is a sample of, if its authority is unknown.
  function SampleOf(c: Candidate, s: Live, now: int): Option<string> {
    if AuthorityState(c.healthKeys, s.health, now).Unknown? then Some(SampleKey(c.healthKeys, s.health, now)) else None
  }

  // How many of some candidates are samples of a key.
  function SampleNumber(cs: seq<Candidate>, key: string, s: Live, now: int): nat {
    if cs == [] then 0
    else SampleNumber(cs[..|cs| - 1], key, s, now) + (if SampleOf(cs[|cs| - 1], s, now) == Some(key) then 1 else 0)
  }

  // At most three candidates of a batch are samples of one unknown key, and the
  // sample map counts them.
  ghost predicate Sampled(samples: map<string, nat>, selected: seq<Candidate>, key: string, s: Live, now: int) {
    Count(samples, key) == SampleNumber(selected, key, s, now) <= UNKNOWN_AUTHORITY_SAMPLES
  }

  ghost predicate Samples(samples: map<string, nat>, selected: seq<Candidate>, s: Live, now: int) {
    forall key :: Sampled(samples, selected, key, s, now)
  }

  // Why the selection may leave a row that is to be probed out: its unknown
  // authority has all its samples.
  predicate Crowded(selected: seq<Candidate>, c: Candidate, s: Live, now: int) {
    var sample := SampleOf(c, s, now);
    sample.Some? && SampleNumber(selected, sample.value, s, now) >= UNKNOWN_AUTHORITY_SAMPLES
  }

  predicate Handled(selected: seq<Candidate>, c: Candidate, s: Live, now: int) {
    Settled(c, s, now) || c in selected || Crowded(selected, c, s, now)
  }

  ghost predicate HandledTo(selected: seq<Candidate>, rows: seq<Candidate>, n: nat, s: Live, now: int) {
    n <= |rows|
    && forall k {:trigger Handled(selected, rows[k], s, now)} :: 0 <= k < n ==> Handled(selected, rows[k], s, now)
  }

  // The candidate is one of the first `n` rows.
  ghost predicate AmongFirst(rows: seq<Candidate>, n: nat, c: Candidate) {
    n <= |rows| && exists k :: 0 <= k < n && rows[k] == c
  }

  ghost predicate PicksTo(rows: seq<Candidate>, n: nat, picks: seq<Candidate>) {
    forall c {:trigger AmongFirst(rows, n, c)} :: c in picks ==> AmongFirst(rows, n, c)
  }

  lemma {:induction false} SamplesGrow(selected: seq<Candidate>, more: seq<Candidate>, key: string, s: Live, now: int)
    requires selected <= more
    ensures SampleNumber(more, key, s, now) >= SampleNumber(selected, key, s, now)
    decreases |more|
  {
    if |selected| < |more| {
      SamplesGrow(selected, more[..|more| - 1], key, s, now);
    } else {
      assert selected == more;
    }
  }

  // More candidates do not undo it.
  lemma {:induction false} StaysHandled(selected: seq<Candidate>, more: seq<Candidate>, rows: seq<Candidate>, n: nat,
        s: Live, now: int)
    requires selected <= more && HandledTo(selected, rows, n, s, now)
    ensures HandledTo(more, rows, n, s, now)
  {
    forall k | 0 <= k < n ensures Handled(more, rows[k], s, now) {
      assert Handled(selected, rows[k], s, now);
      var sample := SampleOf(rows[k], s, now);
      if sample.Some? { SamplesGrow(selected, more, sample.value, s, now); }
      if rows[k] in selected {
        var i :| 0 <= i < |selected| && selected[i] == rows[k];
        assert more[i] == rows[k];
      }
    }
  }

  predicate Within(maximum: Option<nat>, n: nat) { maximum.Some? ==> n <= maximum.value }

  predicate Full(maximum: Option<nat>, n: nat) { maximum.Some? && n >= maximum.value }

  // --------------------------------------------------- shared authority keys

  lemma {:induction false} PageCountAppend(tier: Tier, page: seq<Root>, r: Root, key: string)
    ensures PageCount(tier, page + [r], key)
         == PageCount(tier, page, key) + (if Skipped(tier, r) then 0 else Occurrences(AuthorityKeys(r), key))
  {
    if page == [] { assert page + [r] == [r]; }
    else {
      assert (page + [r])[1..] == page[1..] + [r];
      PageCountAppend(tier, page[1..], r, key);
    }
  }

  lemma {:induction false} OccurrencesAppend(keys: seq<string>, k: string, key: string)
    ensures Occurrences(keys + [k], key) == Occurrences(keys, key) + (if k == key then 1 else 0)
  {
    if keys == [] { assert keys + [k] == [k]; }
    else {
      assert (keys + [k])[1..] == keys[1..] + [k];
      OccurrencesAppend(keys[1..], k, key);
    }
  }

  function Count(counts: map<string, nat>, key: string): nat { if key in counts then counts[key] else 0 }

  // The counter after the keys of a row / of some rows.
  ghost predicate CountsKeys(counts: map<string, nat>, before: map<string, nat>, keys: seq<string>) {
    forall key :: Count(counts, key) == Count(before, key) + Occurrences(keys, key)
  }

  ghost predicate CountsRows(counts: map<string, nat>, tier: Tier, page: seq<Root>) {
    forall key :: Count(counts, key) == PageCount(tier, page, key)
  }

  method CountRow(counts0: map<string, nat>, keys: seq<string>) returns (counts: map<string, nat>)
    ensures CountsKeys(counts, counts0, keys)
  {
    counts := counts0;
    for k := 0 to |keys|
      invariant CountsKeys(counts, counts0, keys[..k])
    {
      assert keys[..k + 1] == keys[..k] + [keys[k]];
      forall key { OccurrencesAppend(keys[..k], keys[k], key); }
      counts := counts[keys[k] := Count(counts, keys[k]) + 1];
    }
    assert keys[..|keys|] == keys;
  }

  lemma {:induction false} CountedRow(counts: map<string, nat>, before: map<string, nat>, tier: Tier, page: seq<Root>,
        r: Root)
    requires CountsRows(before, tier, page)
    requires if Skipped(tier, r) then counts == before else CountsKeys(counts, before, AuthorityKeys(r))
    ensures CountsRows(counts, tier, page + [r])
  {
    forall key { PageCountAppend(tier, page, r, key); }
  }

  method CountPage(tier: Tier, page: seq<Root>) returns (counts: map<string, nat>)
    ensures CountsRows(counts, tier, page)
  {
    counts := map[];
    for i := 0 to |page|
      invariant CountsRows(counts, tier, page[..i])
    {
      assert page[..i + 1] == page[..i] + [page[i]];
      ghost var before := counts;
      if !Skipped(tier, page[i]) { counts := CountRow(counts, AuthorityKeys(page[i])); }
      CountedRow(counts, before, tier, page[..i], page[i]);
    }
    assert page[..|page|] == page;
  }

  method SharedKeys(tier: Tier, page: seq<Root>, counts: map<string, nat>, keys: seq<string>)
      returns (shared: seq<string>)
    requires CountsRows(counts, tier, page)
    ensures shared == Shared(tier, page, keys)
  {
    shared := [];
    for k := |keys| downto 0
      invariant shared == Shared(tier, page, keys[k..])
    {
      assert keys[k..][1..] == keys[k + 1..];
      if Count(counts, keys[k]) > 1 { shared := [keys[k]] + shared; }
    }
    assert keys[0..] == keys;
  }

  // _mark_shared_authority_keys: one counting pass, one marking pass.
  method MarkSharedAuthorityKeys(tier: Tier, page: seq<Root>) returns (marked: seq<Candidate>)
    ensures marked == MarkedPage(tier, page)
  {
    var counts := CountPage(tier, page);
    marked := [];
    for i := 0 to |page|
      invariant marked == MarkedPage(tier, page)[..i]
    {
      var shared := SharedKeys(tier, page, counts, AuthorityKeys(page[i]));
      marked := marked + [Candidate(tier, page[i], shared)];
    }
  }
}
