// What selection and recording mean on the stored columns: which rows are
// candidates, which rows a completed tier may leave out, and when a recorded
// root is probed again.
module SweepColumns {
  import opened Text
  import opened LiveModels
  import opened Sweep
  import opened SweepSelect
  import opened SweepPage
  import opened SweepTier
  import opened SweepBatch
  import opened LiveDb
  import opened SweepRuns
  import opened AuthorityHealth

  // ------------------------------------------------------------------ a row

  // The tier of a root, by its flags.
  predicate InColumns(tier: Tier, r: Root) {
    && r.eligible && r.hasDs == (tier.DsBootstrap? || tier.DsDelegated?)
    && (if tier.DsBootstrap? || tier.Bootstrap? then r.hasGlue || r.hasSynth
        else r.hasNs && !r.hasGlue && !r.hasSynth)
  }

  // Tiers of bootstrap addresses skip a root without one.
  predicate HasAddress(tier: Tier, r: Root) { tier.DsDelegated? || tier.Delegated? || |r.bootstrap| > 0 }

  // No coverage row, one of another topology resource, or one whose next check
  // has come.
  predicate Uncovered(coverage: map<string, Coverage>, r: Root, now: int) {
    r.name in coverage && coverage[r.name].resourceHash == r.resourceHash ==> now >= coverage[r.name].nextCheckAt
  }

  predicate ToProbe(coverage: map<string, Coverage>, tier: Tier, r: Root, now: int) {
    InColumns(tier, r) && HasAddress(tier, r) && Uncovered(coverage, r, now)
  }

  // No key of the row is healthy, and none may be probed yet.
  predicate Hopeless(health: map<string, Health>, keys: seq<string>, now: int) {
    |keys| > 0 && forall k :: k in keys ==> k in health && health[k].state != Healthy && health[k].nextProbeAt > now
  }

  // No key is healthy, and key `i` is the first that may be probed.
  predicate Sampling(health: map<string, Health>, keys: seq<string>, now: int, i: nat) {
    && i < |keys| && (keys[i] in health ==> health[keys[i]].nextProbeAt <= now)
    && (forall j :: 0 <= j < i ==> keys[j] in health && health[keys[j]].nextProbeAt > now)
    && (forall k :: k in keys && k in health ==> health[k].state != Healthy)
  }

  // Every eligible root with addresses or nameservers is in one tier.
  lemma {:induction false} EveryRootHasATier(r: Root)
    ensures (exists tier :: InTier(tier, r)) <==> r.eligible && (r.hasGlue || r.hasSynth || r.hasNs)
  {
    assert InTier(DsBootstrap, r) || InTier(Bootstrap, r) || InTier(DsDelegated, r) || InTier(Delegated, r)
      <==> r.eligible && (r.hasGlue || r.hasSynth || r.hasNs);
  }

  // Where the first key that may be probed stands; the number of keys if none.
  function FirstAt(keys: seq<string>, health: map<string, Health>, now: int): (i: nat)
    ensures i <= |keys|
    ensures forall j :: 0 <= j < i ==> keys[j] in health && health[keys[j]].nextProbeAt > now
    ensures i < |keys| ==> keys[i] in health ==> health[keys[i]].nextProbeAt <= now
    ensures FirstNeeding(keys, health, now) == if i < |keys| then Some(keys[i]) else None
  {
    if keys == [] || NeedsProbe(health, keys[0], now) then 0 else FirstAt(keys[1..], health, now) + 1
  }

  lemma {:induction false} JudgedBy(keys: seq<string>, health: map<string, Health>, now: int)
    ensures AuthorityState(keys, health, now).Suppressed? <==> Hopeless(health, keys, now)
    ensures AuthorityState(keys, health, now).Unknown? <==> exists i: nat :: Sampling(health, keys, now, i)
    ensures forall i: nat :: Sampling(health, keys, now, i) ==> SampleKey(keys, health, now) == keys[i]
  {
    HealthyMeans(keys, health);
    SuppressedIff(keys, health, now);
    var i := FirstAt(keys, health, now);
    if i < |keys| && !AnyHealthy(keys, health) { assert Sampling(health, keys, now, i); }
  }

  // -------------------------------------------------------------- selection

  function After(s: Live, tier: Tier): string { if tier in s.cursors then s.cursors[tier] else "" }

  predicate Open(s: Live, tier: Tier, now: int) { tier in s.notBefore ==> s.notBefore[tier] <= now }

  lemma {:induction false} RowColumns(c: Candidate, s: Live, now: int)
    requires InTier(c.tier, c.root)
    ensures !Settled(c, s, now) <==>
      ToProbe(s.coverage, c.tier, c.root, now) && !Hopeless(s.health, c.healthKeys, now)
    ensures Held(c, s, now) <==>
      ToProbe(s.coverage, c.tier, c.root, now) && exists i: nat :: Sampling(s.health, c.healthKeys, now, i)
    ensures SampleOf(c, s, now).Some? <==> exists i: nat :: Sampling(s.health, c.healthKeys, now, i)
    ensures forall i: nat :: Sampling(s.health, c.healthKeys, now, i) ==> SampleOf(c, s, now) == Some(c.healthKeys[i])
  {
    JudgedBy(c.healthKeys, s.health, now);
  }

  // A candidate is a row of an open tier asked for, by its flags, behind the
  // stored cursor, not covered beyond now, and not without hope.
  lemma {:induction false} CandidateColumns(topology: seq<Root>, tiers: seq<Tier>, s: Live, now: int, size: nat,
        maximum: Option<nat>, sel: Selection, c: Candidate)
    requires SortedTopology(topology) && SelectionOk(topology, tiers, s, now, size, maximum, sel)
    requires c in sel.candidates
    ensures c.tier in tiers && Open(s, c.tier, now) && c.root in topology && Less(After(s, c.tier), c.root.name)
    ensures ToProbe(s.coverage, c.tier, c.root, now) && !Hopeless(s.health, c.healthKeys, now)
  {
    assert Eligible(topology, tiers, s, now, size, c);
    TierRowsHave(topology, c.tier, s, size);
    RowColumns(c, s, now);
  }

  // A row of a tier behind its cursor, with the health keys its page gives it.
  lemma {:induction false} RowOfTier(topology: seq<Root>, s: Live, size: nat, tier: Tier, r: Root)
      returns (c: Candidate)
    requires SortedTopology(topology) && size > 0 && r in topology && InColumns(tier, r) && Less(After(s, tier), r.name)
    ensures c in TierRows(topology, tier, s, size) && c.root == r && c.tier == tier
  {
    var k := TierRowOf(topology, s, size, tier, r);
    c := TierRows(topology, tier, s, size)[k];
  }

  // Of a completed tier nothing is left out: a row behind its cursor that is to
  // be probed is a candidate, or its health keys are without hope.
  lemma {:induction false} CompletedColumns(topology: seq<Root>, tiers: seq<Tier>, s: Live, now: int, size: nat,
        maximum: Option<nat>, sel: Selection, c: Candidate)
    requires SortedTopology(topology) && SelectionOk(topology, tiers, s, now, size, maximum, sel)
    requires c.tier in sel.completed && c in TierRows(topology, c.tier, s, size)
    requires ToProbe(s.coverage, c.tier, c.root, now)
    ensures c in sel.candidates || Hopeless(s.health, c.healthKeys, now)
  {
    var rows := TierRows(topology, c.tier, s, size);
    assert TierOutcome(topology, c.tier, s, now, size, maximum, sel, c.tier in tiers && !Gated(s, c.tier, now));
    var k :| 0 <= k < |rows| && rows[k] == c;
    assert Accounted(sel.candidates, rows[k], s, now);
    TierRowsHave(topology, c.tier, s, size);
    RowColumns(c, s, now);
  }

  // So it is with a root none of whose keys its page names twice.
  lemma {:induction false} NothingDueIsLeftOut(topology: seq<Root>, tiers: seq<Tier>, s: Live, now: int, size: nat,
        maximum: Option<nat>, sel: Selection, tier: Tier, r: Root)
    requires SortedTopology(topology) && SelectionOk(topology, tiers, s, now, size, maximum, sel)
    requires tier in sel.completed && r in topology && Less(After(s, tier), r.name)
    requires ToProbe(s.coverage, tier, r, now)
    ensures exists c :: c in TierRows(topology, tier, s, size) && c.root == r && c.tier == tier
                        && (c in sel.candidates || Hopeless(s.health, c.healthKeys, now))
  {
    var c := RowOfTier(topology, s, size, tier, r);
    CompletedColumns(topology, tiers, s, now, size, maximum, sel, c);
  }

  // An open tier that is asked for and not complete stopped for a reason: the
  // batch is full, or a row that is to be probed must first be sampled, with
  // every row before it a candidate, without hope, or not to be probed.
  lemma {:induction false} WaitingColumns(topology: seq<Root>, tiers: seq<Tier>, s: Live, now: int, size: nat,
        maximum: Option<nat>, sel: Selection, tier: Tier)
    requires SortedTopology(topology) && SelectionOk(topology, tiers, s, now, size, maximum, sel)
    requires tier in tiers && Open(s, tier, now) && tier !in sel.completed
    requires maximum.Some? ==> |sel.candidates| < maximum.value
    ensures exists k: nat :: WaitsAt(TierRows(topology, tier, s, size), s, now, sel.candidates, k)
  {
    var rows := TierRows(topology, tier, s, size);
    TierRowsHave(topology, tier, s, size);
    assert TierOutcome(topology, tier, s, now, size, maximum, sel, tier in tiers && !Gated(s, tier, now));
    var k: nat :| Waits(rows, tier, s, now, sel, k);
    forall j | 0 <= j <= k
      ensures j < k ==> rows[j] in sel.candidates || Passable(rows[j], s, now)
      ensures j == k ==> ToSample(rows[j], s, now)
    {
      assert rows[j] in rows;
      RowColumns(rows[j], s, now);
      if j < k { assert Accounted(sel.candidates, rows[..k][j], s, now); }
    }
    assert WaitsAt(rows, s, now, sel.candidates, k);
  }

  predicate Passable(c: Candidate, s: Live, now: int) {
    !ToProbe(s.coverage, c.tier, c.root, now) || Hopeless(s.health, c.healthKeys, now)
  }

  ghost predicate ToSample(c: Candidate, s: Live, now: int) {
    ToProbe(s.coverage, c.tier, c.root, now) && exists i: nat :: Sampling(s.health, c.healthKeys, now, i)
  }

  ghost predicate WaitsAt(rows: seq<Candidate>, s: Live, now: int, picks: seq<Candidate>, k: nat) {
    k < |rows| && ToSample(rows[k], s, now) && forall j :: 0 <= j < k ==> rows[j] in picks || Passable(rows[j], s, now)
  }

  // -------------------------------------------------------------- its limits

  // The candidate is a sample of an authority: no key of it is healthy, and this
  // is the first that may be probed.
  ghost predicate SampleFor(c: Candidate, s: Live, now: int, key: string) {
    exists i: nat :: Sampling(s.health, c.healthKeys, now, i) && c.healthKeys[i] == key
  }

  lemma {:induction false} OneMoreSample(cs: seq<Candidate>, key: string, s: Live, now: int, i: nat)
    requires i < |cs| && SampleOf(cs[i], s, now) == Some(key)
    ensures SampleNumber(cs, key, s, now) >= SampleNumber(cs[..i], key, s, now) + 1
    decreases |cs|
  {
    var last := |cs| - 1;
    if i < last {
      OneMoreSample(cs[..last], key, s, now, i);
      assert cs[..last][..i] == cs[..i];
    }
  }

  lemma {:induction false} FourSamples(cs: seq<Candidate>, key: string, s: Live, now: int, i: nat, j: nat, k: nat,
        l: nat)
    requires i < j < k < l < |cs| && SampleOf(cs[i], s, now) == SampleOf(cs[j], s, now) == Some(key)
    requires SampleOf(cs[k], s, now) == SampleOf(cs[l], s, now) == Some(key)
    ensures SampleNumber(cs, key, s, now) >= 4
  {
    assert cs[..l][..k] == cs[..k] && cs[..k][..j] == cs[..j] && cs[..j][..i] == cs[..i];
    OneMoreSample(cs, key, s, now, l);
    OneMoreSample(cs[..l], key, s, now, k);
    OneMoreSample(cs[..k], key, s, now, j);
    OneMoreSample(cs[..j], key, s, now, i);
  }

  // A batch never holds four samples of one authority.
  lemma {:induction false} AtMostThreeSamples(topology: seq<Root>, tiers: seq<Tier>, s: Live, now: int, size: nat,
        maximum: Option<nat>, sel: Selection, key: string, i: nat, j: nat, k: nat, l: nat)
    requires SelectionOk(topology, tiers, s, now, size, maximum, sel) && i < j < k < l < |sel.candidates|
    ensures var cs := sel.candidates;
      !(SampleFor(cs[i], s, now, key) && SampleFor(cs[j], s, now, key)
        && SampleFor(cs[k], s, now, key) && SampleFor(cs[l], s, now, key))
  {
    var cs := sel.candidates;
    assert SampleNumber(cs, key, s, now) <= UNKNOWN_AUTHORITY_SAMPLES;
    forall c ensures SampleFor(c, s, now, key) ==> SampleOf(c, s, now) == Some(key) {
      JudgedBy(c.healthKeys, s.health, now);
    }
    if SampleFor(cs[i], s, now, key) && SampleFor(cs[j], s, now, key)
       && SampleFor(cs[k], s, now, key) && SampleFor(cs[l], s, now, key)
    {
      FourSamples(cs, key, s, now, i, j, k, l);
    }
  }
}
