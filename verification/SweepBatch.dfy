// The tier loop of selection, and what a whole selection promises.
module SweepBatch {
  import opened Text
  import opened Sweep
  import opened SweepSelect
  import opened SweepPage
  import opened SweepTier

  // ------------------------------------------------------------ the tier loop

  // The selection after one more tier, which is scanned unless it is gated.
  function AddStep(sel: Selection, step: Option<Scan>): Selection {
    if step.None? then sel else
      var scan := step.value;
      sel.(candidates := sel.candidates + scan.picks,
           updates := if scan.progress.Some? then sel.updates[scan.tier := scan.progress.value] else sel.updates,
           completed := if scan.done then sel.completed + [scan.tier] else sel.completed)
  }

  // A step over `tier`, with the candidates of `sel` selected after it.
  ghost predicate Step(topology: seq<Root>, tier: Tier, s: Live, now: int, size: nat, maximum: Option<nat>,
        step: Option<Scan>, sel: Selection)
    requires size > 0
  {
    if Gated(s, tier, now) then step.None?
    else
      && step.Some? && step.value.tier == tier
      && TierScanned(topology, s, now, size, Full(maximum, |sel.candidates|), step.value)
      && ReadScan(topology, s, now, size, sel.candidates, Full(maximum, |sel.candidates|), step.value)
  }

  // The selections between the tiers, from none to the whole.
  datatype Trace = Trace(steps: seq<Option<Scan>>, selections: seq<Selection>)

  ghost predicate StepAt(topology: seq<Root>, tiers: seq<Tier>, s: Live, now: int, size: nat, maximum: Option<nat>,
        trace: Trace, i: nat)
    requires size > 0 && i < |trace.steps| <= |tiers| && |trace.selections| == |trace.steps| + 1
  {
    && trace.selections[i + 1] == AddStep(trace.selections[i], trace.steps[i])
    && Step(topology, tiers[i], s, now, size, maximum, trace.steps[i], trace.selections[i + 1])
  }

  // The tiers are scanned in order from their stored cursors, a repeated tier
  // again.
  ghost predicate Steps(topology: seq<Root>, tiers: seq<Tier>, s: Live, now: int, size: nat, maximum: Option<nat>,
        trace: Trace, sel: Selection)
    requires size > 0
  {
    && |trace.steps| <= |tiers| && |trace.selections| == |trace.steps| + 1
    && trace.selections[0] == Selection([], map[], [], now) && trace.selections[|trace.steps|] == sel
    && forall i :: 0 <= i < |trace.steps| ==> StepAt(topology, tiers, s, now, size, maximum, trace, i)
  }

  // The tier loop ends when all tiers are scanned or the batch is full.
  ghost predicate SelectedBy(topology: seq<Root>, tiers: seq<Tier>, s: Live, now: int, size: nat,
        maximum: Option<nat>, sel: Selection, trace: Trace)
    requires size > 0
  {
    && Steps(topology, tiers, s, now, size, maximum, trace, sel)
    && (|trace.steps| == |tiers| || Full(maximum, |sel.candidates|))
  }

  function Extend(trace: Trace, step: Option<Scan>, sel: Selection): Trace {
    Trace(trace.steps + [step], trace.selections + [sel])
  }

  lemma {:induction false} StepsNext(topology: seq<Root>, tiers: seq<Tier>, s: Live, now: int, size: nat,
        maximum: Option<nat>, trace: Trace, sel: Selection, step: Option<Scan>, next: Selection)
    requires size > 0 && Steps(topology, tiers, s, now, size, maximum, trace, sel) && |trace.steps| < |tiers|
    requires next == AddStep(sel, step) && Step(topology, tiers[|trace.steps|], s, now, size, maximum, step, next)
    ensures Steps(topology, tiers, s, now, size, maximum, Extend(trace, step, next), next)
  {
    var more := Extend(trace, step, next);
    forall i | 0 <= i < |more.steps| ensures StepAt(topology, tiers, s, now, size, maximum, more, i) {
      if i < |trace.steps| { assert StepAt(topology, tiers, s, now, size, maximum, trace, i); }
    }
  }

  // ------------------------------------------------- what becomes of a tier

  // A tier's stored cursor moves only over rows that are accounted for, and a
  // tier is complete only if all rows behind its cursor are.
  ghost predicate Reaches(rows: seq<Candidate>, tier: Tier, s: Live, now: int, sel: Selection) {
    && (tier in sel.completed ==> tier in sel.updates && AccountedTo(sel.candidates, rows, |rows|, s, now))
    && (tier in sel.updates ==>
          || (sel.updates[tier] == "" && tier in sel.completed)
          || exists passed: nat :: CursorBehind(rows, tier, s, now, sel, passed))
  }

  // The stored cursor stands at the last of `passed` rows, all accounted for.
  ghost predicate CursorBehind(rows: seq<Candidate>, tier: Tier, s: Live, now: int, sel: Selection, passed: nat) {
    && 0 < passed <= |rows| && tier in sel.updates && sel.updates[tier] == rows[passed - 1].root.name
    && AccountedTo(sel.candidates, rows, passed, s, now)
  }

  // Why the scan of a tier ended: its rows did, the batch was full, or the
  // stored cursor waits at a row of an unknown authority.
  ghost predicate Stops(rows: seq<Candidate>, tier: Tier, s: Live, now: int, maximum: Option<nat>, sel: Selection) {
    || tier in sel.completed || Full(maximum, |sel.candidates|)
    || exists k: nat :: Waits(rows, tier, s, now, sel, k)
  }

  ghost predicate Waits(rows: seq<Candidate>, tier: Tier, s: Live, now: int, sel: Selection, k: nat) {
    && k < |rows| && Held(rows[k], s, now) && AccountedTo(sel.candidates, rows, k, s, now)
    && (if k == 0 then tier !in sel.updates else tier in sel.updates && sel.updates[tier] == rows[k - 1].root.name)
  }

  ghost predicate TierOutcome(topology: seq<Root>, tier: Tier, s: Live, now: int, size: nat, maximum: Option<nat>,
        sel: Selection, scanned: bool)
    requires size > 0
  {
    var rows := TierRows(topology, tier, s, size);
    Reaches(rows, tier, s, now, sel) && (scanned ==> Stops(rows, tier, s, now, maximum, sel))
  }

  ghost predicate Outcomes(topology: seq<Root>, tiers: seq<Tier>, s: Live, now: int, size: nat, maximum: Option<nat>,
        sel: Selection)
    requires size > 0
  {
    forall tier :: TierOutcome(topology, tier, s, now, size, maximum, sel, tier in tiers && !Gated(s, tier, now))
  }

  // A candidate is a due row behind the cursor of a tier asked for and not
  // gated, not suppressed, with the keys its page gives it.
  ghost predicate Eligible(topology: seq<Root>, tiers: seq<Tier>, s: Live, now: int, size: nat, c: Candidate)
    requires size > 0
  {
    c.tier in tiers && !Gated(s, c.tier, now) && c in TierRows(topology, c.tier, s, size) && !Settled(c, s, now)
  }

  ghost predicate AllEligible(topology: seq<Root>, tiers: seq<Tier>, s: Live, now: int, size: nat, cs: seq<Candidate>)
    requires size > 0
  {
    forall c :: c in cs ==> Eligible(topology, tiers, s, now, size, c)
  }

  ghost predicate DistinctRoots(cs: seq<Candidate>) {
    forall i, j :: 0 <= i < j < |cs| ==> cs[i].root.name != cs[j].root.name
  }

  // Candidates of one name are one candidate, selected more than once.
  ghost predicate NamesAreKeys(cs: seq<Candidate>) {
    forall c, d :: c in cs && d in cs && c.root.name == d.root.name ==> c == d
  }

  ghost predicate FewSamples(cs: seq<Candidate>, s: Live, now: int) {
    forall key :: SampleNumber(cs, key, s, now) <= UNKNOWN_AUTHORITY_SAMPLES
  }

  // Only tiers asked for and not gated are touched; a selection that picks
  // nothing completes them.
  ghost predicate Touches(tiers: seq<Tier>, s: Live, now: int, sel: Selection) {
    && (forall t :: t in sel.completed || t in sel.updates ==> t in tiers && !Gated(s, t, now))
    && (|sel.candidates| == 0 ==> forall t :: t in sel.updates ==> sel.updates[t] == "")
  }

  ghost predicate CompletesAll(tiers: seq<Tier>, s: Live, now: int, sel: Selection) {
    |sel.candidates| == 0 ==> forall t :: t in tiers ==> Gated(s, t, now) || t in sel.completed
  }

  ghost predicate SelectionOk(topology: seq<Root>, tiers: seq<Tier>, s: Live, now: int, size: nat,
        maximum: Option<nat>, sel: Selection) {
    && size > 0 && sel.at == now && (exists trace :: SelectedBy(topology, tiers, s, now, size, maximum, sel, trace))
    && Outcomes(topology, tiers, s, now, size, maximum, sel)
    && AllEligible(topology, tiers, s, now, size, sel.candidates)
    && NamesAreKeys(sel.candidates) && (DistinctTiers(tiers) ==> DistinctRoots(sel.candidates))
    && FewSamples(sel.candidates, s, now) && Within(maximum, |sel.candidates|)
    && Touches(tiers, s, now, sel) && (!Full(maximum, 0) ==> CompletesAll(tiers, s, now, sel))
  }

  // ------------------------------------------------------------ its outcomes

  // A row that is accounted for does not hold the cursor.
  lemma {:induction false} AccountedDoesNotHold(picks: seq<Candidate>, rows: seq<Candidate>, s: Live, now: int, k: nat)
    requires AccountedTo(picks, rows, |rows|, s, now) && k < |rows|
    ensures !Held(rows[k], s, now)
  {
    assert Accounted(picks, rows[k], s, now);
  }

  // The cursor waits at the first row that holds it, however often the tier is
  // scanned.
  lemma {:induction false} WaitsAtFirst(rows: seq<Candidate>, tier: Tier, s: Live, now: int, sel: Selection,
        picks: seq<Candidate>, k: nat, j: nat)
    requires Waits(rows, tier, s, now, sel, k)
    requires j < |rows| && Held(rows[j], s, now) && AccountedTo(picks, rows, j, s, now)
    ensures k == j
  {
    if k < j {
      AccountedDoesNotHold(picks, rows[..j], s, now, k);
    } else if j < k {
      AccountedDoesNotHold(sel.candidates, rows[..k], s, now, j);
    }
  }

  // What stays so when candidates are added and the tier is left alone.
  lemma {:induction false} OutcomeKept(topology: seq<Root>, tier: Tier, s: Live, now: int, size: nat,
        maximum: Option<nat>, a: Selection, b: Selection, scanned: bool)
    requires size > 0 && TierOutcome(topology, tier, s, now, size, maximum, a, scanned)
    requires (forall c :: c in a.candidates ==> c in b.candidates) && |a.candidates| <= |b.candidates|
    requires tier in a.completed <==> tier in b.completed
    requires tier in a.updates <==> tier in b.updates
    requires tier in a.updates ==> a.updates[tier] == b.updates[tier]
    ensures TierOutcome(topology, tier, s, now, size, maximum, b, scanned)
  {
    var rows := TierRows(topology, tier, s, size);
    if tier in a.completed { AccountedMore(a.candidates, b.candidates, rows, |rows|, s, now); }
    if passed: nat :| CursorBehind(rows, tier, s, now, a, passed) {
      AccountedMore(a.candidates, b.candidates, rows, passed, s, now);
      assert CursorBehind(rows, tier, s, now, b, passed);
    }
    if k: nat :| Waits(rows, tier, s, now, a, k) {
      AccountedMore(a.candidates, b.candidates, rows, k, s, now);
      assert Waits(rows, tier, s, now, b, k);
    }
  }

  // The scanned tier's stored cursor.
  lemma {:induction false} ScannedReaches(rows: seq<Candidate>, s: Live, now: int, sel: Selection, scan: Scan)
    requires Reaches(rows, scan.tier, s, now, sel)
    requires TierScan(rows, s, now, scan.picks, scan.passed) && (scan.done ==> scan.passed == |rows|)
    requires scan.progress == (if scan.done then Some("") else ProgressAt(rows, scan.passed))
    ensures Reaches(rows, scan.tier, s, now, AddStep(sel, Some(scan)))
  {
    var next := AddStep(sel, Some(scan));
    assert rows[..|rows|] == rows;
    AccountedMore(scan.picks, next.candidates, rows, scan.passed, s, now);
    if scan.tier in sel.completed { AccountedMore(sel.candidates, next.candidates, rows, |rows|, s, now); }
    if !scan.done {
      if scan.passed > 0 {
        assert CursorBehind(rows, scan.tier, s, now, next, scan.passed);
      } else if passed: nat :| CursorBehind(rows, scan.tier, s, now, sel, passed) {
        AccountedMore(sel.candidates, next.candidates, rows, passed, s, now);
        assert CursorBehind(rows, scan.tier, s, now, next, passed);
      }
    }
  }

  // The scanned tier ended where it may; a cursor that waits at the first row
  // was not stored by an earlier scan either.
  lemma {:induction false} ScannedStops(rows: seq<Candidate>, s: Live, now: int, maximum: Option<nat>, sel: Selection,
        scan: Scan)
    requires TierScan(rows, s, now, scan.picks, scan.passed)
    requires scan.progress == (if scan.done then Some("") else ProgressAt(rows, scan.passed))
    requires || scan.done || Full(maximum, |AddStep(sel, Some(scan)).candidates|)
             || (scan.passed < |rows| && Held(rows[scan.passed], s, now))
    requires scan.tier in sel.updates ==>
      !Full(maximum, |sel.candidates|) && Reaches(rows, scan.tier, s, now, sel)
        && Stops(rows, scan.tier, s, now, maximum, sel)
    ensures Stops(rows, scan.tier, s, now, maximum, AddStep(sel, Some(scan)))
  {
    var next := AddStep(sel, Some(scan));
    if !scan.done && !Full(maximum, |next.candidates|) {
      AccountedMore(scan.picks, next.candidates, rows, scan.passed, s, now);
      if scan.passed == 0 && scan.tier in sel.updates {
        if k: nat :| Waits(rows, scan.tier, s, now, sel, k) {
          WaitsAtFirst(rows, scan.tier, s, now, sel, scan.picks, k, 0);
        } else {
          AccountedDoesNotHold(sel.candidates, rows, s, now, 0);
        }
      } else {
        assert Waits(rows, scan.tier, s, now, next, scan.passed);
      }
    }
  }

  lemma {:induction false} MoreOutcomes(topology: seq<Root>, tiers: seq<Tier>, tier: Tier, s: Live, now: int,
        size: nat, maximum: Option<nat>, sel: Selection, scan: Scan)
    requires size > 0 && Outcomes(topology, tiers, s, now, size, maximum, sel) && Touches(tiers, s, now, sel)
    requires !Gated(s, tier, now) && scan.tier == tier && !Full(maximum, |sel.candidates|)
    requires TierScanned(topology, s, now, size, Full(maximum, |AddStep(sel, Some(scan)).candidates|), scan)
    ensures Outcomes(topology, tiers + [tier], s, now, size, maximum, AddStep(sel, Some(scan)))
  {
    var next := AddStep(sel, Some(scan));
    forall t ensures TierOutcome(topology, t, s, now, size, maximum, next, t in tiers + [tier] && !Gated(s, t, now)) {
      var scanned := t in tiers && !Gated(s, t, now);
      assert TierOutcome(topology, t, s, now, size, maximum, sel, scanned);
      if t == tier {
        ScannedReaches(TierRows(topology, t, s, size), s, now, sel, scan);
        ScannedStops(TierRows(topology, t, s, size), s, now, maximum, sel, scan);
      } else {
        OutcomeKept(topology, t, s, now, size, maximum, sel, next, scanned);
        assert scanned == (t in tiers + [tier] && !Gated(s, t, now));
      }
    }
  }

  // ---------------------------------------------------------- its candidates

  lemma {:induction false} NameIsKey(topology: seq<Root>, a: Root, b: Root)
    requires SortedTopology(topology) && a in topology && b in topology && a.name == b.name
    ensures a == b
  {
    var i :| 0 <= i < |topology| && topology[i] == a;
    var j :| 0 <= j < |topology| && topology[j] == b;
    TopologyOrder(topology, i, j);
  }

  lemma {:induction false} AscendingAt(cs: seq<Candidate>, i: nat, j: nat)
    requires Ascending(cs) && i < |cs| && j < |cs|
    ensures i < j ==> Less(cs[i].root.name, cs[j].root.name)
  {}

  lemma {:induction false} AscendingKey(cs: seq<Candidate>, c: Candidate, d: Candidate)
    requires Ascending(cs) && c in cs && d in cs && c.root.name == d.root.name
    ensures c == d
  {
    var i :| 0 <= i < |cs| && cs[i] == c;
    var j :| 0 <= j < |cs| && cs[j] == d;
    LessIrreflexive(c.root.name);
    AscendingAt(cs, i, j);
    AscendingAt(cs, j, i);
  }

  // A name is in one tier only, and there it is one row.
  lemma {:induction false} EligibleKey(topology: seq<Root>, tiers: seq<Tier>, s: Live, now: int, size: nat,
        c: Candidate, d: Candidate)
    requires SortedTopology(topology) && size > 0 && c.root.name == d.root.name
    requires Eligible(topology, tiers, s, now, size, c) && Eligible(topology, tiers, s, now, size, d)
    ensures c == d
  {
    TierRowsHave(topology, c.tier, s, size);
    TierRowsHave(topology, d.tier, s, size);
    NameIsKey(topology, c.root, d.root);
    TiersDisjoint(c.root, c.tier, d.tier);
    AscendingKey(TierRows(topology, c.tier, s, size), c, d);
  }

  lemma {:induction false} EligibleNames(topology: seq<Root>, tiers: seq<Tier>, s: Live, now: int, size: nat,
        cs: seq<Candidate>)
    requires SortedTopology(topology) && size > 0 && AllEligible(topology, tiers, s, now, size, cs)
    ensures NamesAreKeys(cs)
  {
    forall c, d | c in cs && d in cs && c.root.name == d.root.name ensures c == d {
      EligibleKey(topology, tiers, s, now, size, c, d);
    }
  }

  lemma {:induction false} AscendingDistinct(cs: seq<Candidate>)
    requires Ascending(cs)
    ensures DistinctRoots(cs)
  {
    forall i, j | 0 <= i < j < |cs| ensures cs[i].root.name != cs[j].root.name {
      assert Less(cs[i].root.name, cs[j].root.name);
      LessIrreflexive(cs[i].root.name);
    }
  }

  lemma {:induction false} MoreEligible(topology: seq<Root>, tiers: seq<Tier>, tier: Tier, s: Live, now: int, size: nat,
        before: seq<Candidate>, picks: seq<Candidate>)
    requires SortedTopology(topology) && size > 0 && !Gated(s, tier, now)
    requires AllEligible(topology, tiers, s, now, size, before)
    requires Picked(TierRows(topology, tier, s, size), picks, s, now)
    ensures AllEligible(topology, tiers + [tier], s, now, size, before + picks)
  {
    TierRowsHave(topology, tier, s, size);
    forall c | c in before + picks ensures Eligible(topology, tiers + [tier], s, now, size, c) {
      if c in before { assert Eligible(topology, tiers, s, now, size, c); }
    }
  }

  // A tier scanned for the first time adds no root that is selected already.
  lemma {:induction false} MoreDistinct(topology: seq<Root>, tiers: seq<Tier>, tier: Tier, s: Live, now: int, size: nat,
        before: seq<Candidate>, picks: seq<Candidate>)
    requires SortedTopology(topology) && size > 0 && tier !in tiers && !Gated(s, tier, now)
    requires AllEligible(topology, tiers, s, now, size, before) && DistinctRoots(before)
    requires Picked(TierRows(topology, tier, s, size), picks, s, now)
    ensures DistinctRoots(before + picks)
  {
    AscendingDistinct(picks);
    TierRowsHave(topology, tier, s, size);
    MoreEligible(topology, tiers, tier, s, now, size, before, picks);
    forall c, d | c in before && d in picks ensures c.root.name != d.root.name {
      assert Eligible(topology, tiers, s, now, size, c);
      assert c in before + picks && d in before + picks;
      if c.root.name == d.root.name { EligibleKey(topology, tiers + [tier], s, now, size, c, d); }
    }
  }

  predicate Differ(tiers: seq<Tier>, i: nat, j: nat)
    requires i < |tiers| && j < |tiers|
  {
    tiers[i] != tiers[j]
  }

  ghost predicate DistinctTiers(tiers: seq<Tier>) { forall i, j :: 0 <= i < j < |tiers| ==> Differ(tiers, i, j) }

  lemma {:induction false} LastTierIsNew(tiers: seq<Tier>, tier: Tier)
    requires DistinctTiers(tiers + [tier])
    ensures tier !in tiers && DistinctTiers(tiers)
  {
    var more := tiers + [tier];
    forall i | 0 <= i < |tiers| ensures tiers[i] != tier { assert Differ(more, i, |tiers|); }
    forall i, j | 0 <= i < j < |tiers| ensures Differ(tiers, i, j) { assert Differ(more, i, j); }
  }

  // ----------------------------------------------------------- the selection

  // What a selection over the first tiers comes to.
  ghost predicate Selecting(topology: seq<Root>, tiers: seq<Tier>, s: Live, now: int, size: nat, maximum: Option<nat>,
        sel: Selection)
    requires size > 0
  {
    && sel.at == now && (DistinctTiers(tiers) ==> DistinctRoots(sel.candidates))
    && Outcomes(topology, tiers, s, now, size, maximum, sel)
    && AllEligible(topology, tiers, s, now, size, sel.candidates)
    && Touches(tiers, s, now, sel) && CompletesAll(tiers, s, now, sel)
  }

  lemma {:induction false} SelectMore(topology: seq<Root>, tiers: seq<Tier>, tier: Tier, s: Live, now: int, size: nat,
        maximum: Option<nat>, sel: Selection, scan: Scan)
    requires size > 0 && SortedTopology(topology) && !Gated(s, tier, now) && scan.tier == tier
    requires Selecting(topology, tiers, s, now, size, maximum, sel) && !Full(maximum, |sel.candidates|)
    requires TierScanned(topology, s, now, size, Full(maximum, |AddStep(sel, Some(scan)).candidates|), scan)
    requires |sel.candidates| + |scan.picks| == 0 ==> scan.done
    ensures Selecting(topology, tiers + [tier], s, now, size, maximum, AddStep(sel, Some(scan)))
  {
    MoreEligible(topology, tiers, tier, s, now, size, sel.candidates, scan.picks);
    if DistinctTiers(tiers + [tier]) {
      LastTierIsNew(tiers, tier);
      MoreDistinct(topology, tiers, tier, s, now, size, sel.candidates, scan.picks);
    }
    MoreOutcomes(topology, tiers, tier, s, now, size, maximum, sel, scan);
    MoreTouches(tiers, tier, s, now, sel, scan);
  }

  lemma {:induction false} MoreTouches(tiers: seq<Tier>, tier: Tier, s: Live, now: int, sel: Selection, scan: Scan)
    requires Touches(tiers, s, now, sel) && CompletesAll(tiers, s, now, sel)
    requires !Gated(s, tier, now) && scan.tier == tier && (|sel.candidates| + |scan.picks| == 0 ==> scan.done)
    requires scan.done ==> scan.progress == Some("")
    ensures Touches(tiers + [tier], s, now, AddStep(sel, Some(scan)))
    ensures CompletesAll(tiers + [tier], s, now, AddStep(sel, Some(scan)))
  {}

  lemma {:induction false} SkipTier(topology: seq<Root>, tiers: seq<Tier>, tier: Tier, s: Live, now: int, size: nat,
        maximum: Option<nat>, sel: Selection)
    requires size > 0 && Selecting(topology, tiers, s, now, size, maximum, sel) && Gated(s, tier, now)
    ensures Selecting(topology, tiers + [tier], s, now, size, maximum, sel)
  {
    if DistinctTiers(tiers + [tier]) { LastTierIsNew(tiers, tier); }
    forall t ensures TierOutcome(topology, t, s, now, size, maximum, sel, t in tiers + [tier] && !Gated(s, t, now)) {
      assert TierOutcome(topology, t, s, now, size, maximum, sel, t in tiers && !Gated(s, t, now));
      assert (t in tiers && !Gated(s, t, now)) == (t in tiers + [tier] && !Gated(s, t, now));
    }
    forall c | c in sel.candidates ensures Eligible(topology, tiers + [tier], s, now, size, c) {
      assert Eligible(topology, tiers, s, now, size, c);
    }
  }

  // select_sweep_candidates for the generic tiers. At most three candidates are
  // sampled under one unknown authority key, over all tiers and pages.
  method SelectSweepCandidates(topology: seq<Root>, tiers: seq<Tier>, s: Live, now: int, limit: Option<int>,
        pageSize: int)
      returns (sel: Selection)
    requires SortedTopology(topology)
    ensures SelectionOk(topology, tiers, s, now, PageSize(pageSize), Maximum(limit), sel)
    ensures limit.Some? ==> |sel.candidates| <= if limit.value > 0 then limit.value else 0
  {
    var maximum := Maximum(limit);
    var samples: map<string, nat> := map[];
    sel := Selection([], map[], [], now);
    ghost var size, trace := PageSize(pageSize), Trace([], [sel]);
    LoopStarts(topology, tiers, s, now, size, maximum);
    var i := 0;
    while i < |tiers| && !Full(maximum, |sel.candidates|)
      invariant TierLoop(topology, tiers, i, s, now, size, maximum, sel, trace)
      invariant Tally(maximum, sel.candidates, samples, false, s, now)
    {
      ghost var step;
      ghost var before := sel;
      sel, samples, step := SelectTier(topology, tiers[..i], tiers[i], s, now, maximum, pageSize, sel, samples);
      LoopTurns(topology, tiers, i, s, now, size, maximum, before, trace, step, sel);
      trace, i := Extend(trace, step, sel), i + 1;
    }
    AtMostThree(samples, sel.candidates, s, now);
    Selected(topology, tiers, i, s, now, size, maximum, sel, trace);
  }

  // The tier loop before tier `i`.
  ghost predicate TierLoop(topology: seq<Root>, tiers: seq<Tier>, i: nat, s: Live, now: int, size: nat,
        maximum: Option<nat>, sel: Selection, trace: Trace)
    requires size > 0
  {
    && i <= |tiers| && Selecting(topology, tiers[..i], s, now, size, maximum, sel)
    && |trace.steps| == i && Steps(topology, tiers, s, now, size, maximum, trace, sel)
  }

  lemma {:induction false} LoopStarts(topology: seq<Root>, tiers: seq<Tier>, s: Live, now: int, size: nat,
        maximum: Option<nat>)
    requires size > 0
    ensures var sel := Selection([], map[], [], now);
      TierLoop(topology, tiers, 0, s, now, size, maximum, sel, Trace([], [sel]))
  {
    NothingSelected(topology, s, now, size, maximum);
    assert tiers[..0] == [];
  }

  lemma {:induction false} LoopTurns(topology: seq<Root>, tiers: seq<Tier>, i: nat, s: Live, now: int, size: nat,
        maximum: Option<nat>, sel: Selection, trace: Trace, step: Option<Scan>, next: Selection)
    requires size > 0 && i < |tiers| && TierLoop(topology, tiers, i, s, now, size, maximum, sel, trace)
    requires Selecting(topology, tiers[..i] + [tiers[i]], s, now, size, maximum, next)
    requires next == AddStep(sel, step) && Step(topology, tiers[i], s, now, size, maximum, step, next)
    ensures TierLoop(topology, tiers, i + 1, s, now, size, maximum, next, Extend(trace, step, next))
  {
    assert tiers[..i + 1] == tiers[..i] + [tiers[i]];
    StepsNext(topology, tiers, s, now, size, maximum, trace, sel, step, next);
  }

  // One turn of the tier loop, behind `tiers`.
  method SelectTier(topology: seq<Root>, ghost tiers: seq<Tier>, tier: Tier, s: Live, now: int, maximum: Option<nat>,
        pageSize: int, sel0: Selection, samples0: map<string, nat>)
      returns (sel: Selection, samples: map<string, nat>, ghost step: Option<Scan>)
    requires SortedTopology(topology) && !Full(maximum, |sel0.candidates|)
    requires Selecting(topology, tiers, s, now, PageSize(pageSize), maximum, sel0)
    requires Tally(maximum, sel0.candidates, samples0, false, s, now)
    ensures Selecting(topology, tiers + [tier], s, now, PageSize(pageSize), maximum, sel)
    ensures sel == AddStep(sel0, step) && Step(topology, tier, s, now, PageSize(pageSize), maximum, step, sel)
    ensures Tally(maximum, sel.candidates, samples, false, s, now)
  {
    sel, samples, step := sel0, samples0, None;
    if Gated(s, tier, now) {
      SkipTier(topology, tiers, tier, s, now, PageSize(pageSize), maximum, sel0);
    } else {
      var selected, progress, done;
      ghost var scan;
      selected, samples, progress, done, scan :=
        ScanTier(topology, tier, s, now, maximum, pageSize, sel0.candidates, samples0);
      SelectMore(topology, tiers, tier, s, now, PageSize(pageSize), maximum, sel0, scan);
      sel := Selection(selected, if progress.Some? then sel0.updates[tier := progress.value] else sel0.updates,
                       if done then sel0.completed + [tier] else sel0.completed, now);
      step := Some(scan);
    }
  }

  // A selection that ran out of tiers or is full.
  lemma {:induction false} Selected(topology: seq<Root>, tiers: seq<Tier>, n: nat, s: Live, now: int, size: nat,
        maximum: Option<nat>, sel: Selection, trace: Trace)
    requires size > 0 && SortedTopology(topology) && n <= |tiers|
    requires Selecting(topology, tiers[..n], s, now, size, maximum, sel)
    requires n == |tiers| || Full(maximum, |sel.candidates|)
    requires |trace.steps| == n && Steps(topology, tiers, s, now, size, maximum, trace, sel)
    requires Within(maximum, |sel.candidates|) && FewSamples(sel.candidates, s, now)
    ensures SelectionOk(topology, tiers, s, now, size, maximum, sel)
  {
    assert n == |tiers| ==> tiers[..n] == tiers;
    assert SelectedBy(topology, tiers, s, now, size, maximum, sel, trace);
    MoreTiers(topology, tiers[..n], tiers, s, now, size, maximum, sel);
    EligibleNames(topology, tiers, s, now, size, sel.candidates);
    PrefixDistinct(tiers, n);
  }

  // The tiers that a full batch leaves out.
  lemma {:induction false} MoreTiers(topology: seq<Root>, tiers: seq<Tier>, more: seq<Tier>, s: Live, now: int,
        size: nat, maximum: Option<nat>, sel: Selection)
    requires size > 0 && (forall t :: t in tiers ==> t in more) && (tiers == more || Full(maximum, |sel.candidates|))
    requires Outcomes(topology, tiers, s, now, size, maximum, sel) && Touches(tiers, s, now, sel)
    requires AllEligible(topology, tiers, s, now, size, sel.candidates)
    ensures Outcomes(topology, more, s, now, size, maximum, sel) && Touches(more, s, now, sel)
    ensures AllEligible(topology, more, s, now, size, sel.candidates)
  {
    forall t ensures TierOutcome(topology, t, s, now, size, maximum, sel, t in more && !Gated(s, t, now)) {
      assert TierOutcome(topology, t, s, now, size, maximum, sel, t in tiers && !Gated(s, t, now));
    }
    forall c | c in sel.candidates ensures Eligible(topology, more, s, now, size, c) {
      assert Eligible(topology, tiers, s, now, size, c);
    }
  }

  lemma {:induction false} PrefixDistinct(tiers: seq<Tier>, n: nat)
    requires n <= |tiers|
    ensures DistinctTiers(tiers) ==> DistinctTiers(tiers[..n])
  {
    if DistinctTiers(tiers) {
      forall i, j | 0 <= i < j < n ensures Differ(tiers[..n], i, j) { assert Differ(tiers, i, j); }
    }
  }

  lemma {:induction false} AtMostThree(samples: map<string, nat>, selected: seq<Candidate>, s: Live, now: int)
    requires Samples(samples, selected, s, now)
    ensures FewSamples(selected, s, now)
  {
    forall key ensures SampleNumber(selected, key, s, now) <= UNKNOWN_AUTHORITY_SAMPLES {
      assert Sampled(samples, selected, key, s, now);
    }
  }

  function Maximum(limit: Option<int>): Option<nat> {
    if limit.None? then None else Some(if limit.value > 0 then limit.value else 0)
  }

  lemma {:induction false} NothingSelected(topology: seq<Root>, s: Live, now: int, size: nat, maximum: Option<nat>)
    requires size > 0
    ensures Selecting(topology, [], s, now, size, maximum, Selection([], map[], [], now))
  {}

  // -------------------------------------------------------- a repeated tier

  lemma {:induction false} StepOf(topology: seq<Root>, tiers: seq<Tier>, s: Live, now: int, size: nat,
        maximum: Option<nat>, trace: Trace, sel: Selection, i: nat)
    requires size > 0 && Steps(topology, tiers, s, now, size, maximum, trace, sel) && i < |trace.steps|
    ensures trace.selections[i + 1] == AddStep(trace.selections[i], trace.steps[i])
  {
    assert StepAt(topology, tiers, s, now, size, maximum, trace, i);
  }

  lemma {:induction false} PrefixAppend(a: seq<Candidate>, b: seq<Candidate>, step: Option<Scan>, sel: Selection)
    requires a <= b && b == sel.candidates
    ensures a <= AddStep(sel, step).candidates
  {}

  lemma {:induction false} SelectionsGrow(topology: seq<Root>, tiers: seq<Tier>, s: Live, now: int, size: nat,
        maximum: Option<nat>, trace: Trace, sel: Selection, i: nat, j: nat)
    requires size > 0 && Steps(topology, tiers, s, now, size, maximum, trace, sel) && i <= j <= |trace.steps|
    ensures trace.selections[i].candidates <= trace.selections[j].candidates
    decreases j
  {
    if i < j {
      var before := trace.selections[j - 1];
      SelectionsGrow(topology, tiers, s, now, size, maximum, trace, sel, i, j - 1);
      StepOf(topology, tiers, s, now, size, maximum, trace, sel, j - 1);
      PrefixAppend(trace.selections[i].candidates, before.candidates, trace.steps[j - 1], before);
    }
  }

  // A topology of one root with a private authority, which is always due.
  function OneRoot(tier: Tier): Root {
    var ds := tier.DsBootstrap? || tier.DsDelegated?;
    var glue := tier.DsBootstrap? || tier.Bootstrap?;
    Root("a", "hash", true, ds, true, glue, false, if glue then ["192.0.2.1"] else [], [], "")
  }

  const EMPTY: Live := Live(map[], map[], map[], map[])

  lemma {:induction false} OneRow(tier: Tier)
    ensures SortedTopology([OneRoot(tier)])
    ensures TierRows([OneRoot(tier)], tier, EMPTY, 1) == [Candidate(tier, OneRoot(tier), [])]
    ensures !Settled(Candidate(tier, OneRoot(tier), []), EMPTY, 0)
    ensures !Held(Candidate(tier, OneRoot(tier), []), EMPTY, 0)
  {
    var r := OneRoot(tier);
    assert RowsAfter([r][1..], tier, "") == [];
    assert RowsAfter([r], tier, "") == [r];
    OneAuthority(tier);
  }

  lemma {:induction false} OneAuthority(tier: Tier)
    ensures HealthKeys(tier, [OneRoot(tier)], OneRoot(tier)) == []
  {
    var r := OneRoot(tier);
    assert Prefixed("ip:", []) == [] && Prefixed("ns:", []) == [];
    PrefixedOne("ip:", "192.0.2.1");
    assert |AuthorityKeys(r)| == 1;
    OneKey(tier, r, AuthorityKeys(r)[0]);
  }

  lemma {:induction false} PrefixedOne(prefix: string, value: string)
    requires value != ""
    ensures Prefixed(prefix, [value]) == [prefix + value]
  {
    assert [value][1..] == [];
  }

  lemma {:induction false} OneKey(tier: Tier, r: Root, key: string)
    requires AuthorityKeys(r) == [key]
    ensures HealthKeys(tier, [r], r) == []
  {
    assert [key][1..] == [] && [r][1..] == [];
    assert Occurrences([], key) == 0 && PageCount(tier, [], key) == 0 && Shared(tier, [r], []) == [];
  }

  // Every scan of the tier selects the root.
  lemma {:induction false} ScanSelects(tier: Tier, scan: Scan)
    requires scan.tier == tier && TierScanned([OneRoot(tier)], EMPTY, 0, 1, false, scan)
    ensures Candidate(tier, OneRoot(tier), []) in scan.picks
  {
    OneRow(tier);
    var c := Candidate(tier, OneRoot(tier), []);
    var rows := TierRows([OneRoot(tier)], tier, EMPTY, 1);
    assert rows[..1][0] == c;
    assert Accounted(scan.picks, rows[..scan.passed][0], EMPTY, 0);
  }

  lemma {:induction false} ScannedAt(topology: seq<Root>, tiers: seq<Tier>, trace: Trace, sel: Selection, i: nat)
    requires i < |trace.steps| && Steps(topology, tiers, EMPTY, 0, 1, None, trace, sel)
    ensures trace.steps[i].Some? && trace.steps[i].value.tier == tiers[i]
    ensures TierScanned(topology, EMPTY, 0, 1, false, trace.steps[i].value)
    ensures trace.selections[i + 1].candidates == trace.selections[i].candidates + trace.steps[i].value.picks
  {
    assert StepAt(topology, tiers, EMPTY, 0, 1, None, trace, i);
  }

  // Where the scan of a tier put the root.
  lemma {:induction false} AddedAt(topology: seq<Root>, tiers: seq<Tier>, trace: Trace, sel: Selection, i: nat,
        c: Candidate)
      returns (k: nat)
    requires i < |trace.steps| && Steps(topology, tiers, EMPTY, 0, 1, None, trace, sel)
    requires topology == [OneRoot(tiers[i])] && c == Candidate(tiers[i], OneRoot(tiers[i]), [])
    ensures |trace.selections[i].candidates| <= k < |trace.selections[i + 1].candidates|
    ensures trace.selections[i + 1].candidates[k] == c
  {
    ScannedAt(topology, tiers, trace, sel, i);
    var picks := trace.steps[i].value.picks;
    ScanSelects(tiers[i], trace.steps[i].value);
    var n :| 0 <= n < |picks| && picks[n] == c;
    k := |trace.selections[i].candidates| + n;
  }

  lemma {:induction false} SelectedTwice(tiers: seq<Tier>, i: nat, j: nat, sel: Selection, trace: Trace)
    requires i < j < |tiers| && tiers[i] == tiers[j]
    requires SelectedBy([OneRoot(tiers[i])], tiers, EMPTY, 0, 1, None, sel, trace)
    ensures !DistinctRoots(sel.candidates)
  {
    var topology := [OneRoot(tiers[i])];
    var c := Candidate(tiers[i], OneRoot(tiers[i]), []);
    var a := AddedAt(topology, tiers, trace, sel, i, c);
    var b := AddedAt(topology, tiers, trace, sel, j, c);
    SelectionsGrow(topology, tiers, EMPTY, 0, 1, None, trace, sel, i + 1, j);
    SelectionsGrow(topology, tiers, EMPTY, 0, 1, None, trace, sel, i + 1, |trace.steps|);
    SelectionsGrow(topology, tiers, EMPTY, 0, 1, None, trace, sel, j + 1, |trace.steps|);
    TwicePicked(sel.candidates, a, b, c);
  }

  lemma {:induction false} TwicePicked(cs: seq<Candidate>, a: nat, b: nat, c: Candidate)
    requires a < b < |cs| && cs[a] == c && cs[b] == c
    ensures !DistinctRoots(cs)
  {}

  // A selection's roots are distinct whatever the tables hold exactly if no
  // tier is asked for twice: a tier asked for twice selects a due root of a
  // private authority twice.
  lemma {:induction false} DistinctRootsIff(tiers: seq<Tier>)
    ensures DistinctTiers(tiers) ==>
      forall topology, s, now, size, maximum, sel :: SelectionOk(topology, tiers, s, now, size, maximum, sel) ==>
        DistinctRoots(sel.candidates)
    ensures !DistinctTiers(tiers) ==>
      exists topology :: SortedTopology(topology)
        && forall sel :: SelectionOk(topology, tiers, EMPTY, 0, 1, None, sel) ==> !DistinctRoots(sel.candidates)
  {
    if !DistinctTiers(tiers) {
      var i: nat, j: nat :| i < j < |tiers| && !Differ(tiers, i, j);
      var topology := [OneRoot(tiers[i])];
      forall sel | SelectionOk(topology, tiers, EMPTY, 0, 1, None, sel) ensures !DistinctRoots(sel.candidates) {
        var trace :| SelectedBy(topology, tiers, EMPTY, 0, 1, None, sel, trace);
        SelectedTwice(tiers, i, j, sel, trace);
      }
      OneRow(tiers[i]);
    }
  }
}
