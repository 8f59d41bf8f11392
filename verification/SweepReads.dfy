// Which rows a selection reads, and that it leaves none of them out without a
// reason.
module SweepReads {
  import opened Text
  import opened Sweep
  import opened SweepSelect
  import opened SweepPage
  import opened SweepTier
  import opened SweepBatch
  import opened SweepColumns

  // The row is a sample of an authority that has three samples already.
  ghost predicate HasThree(cs: seq<Candidate>, c: Candidate, s: Live, now: int) {
    exists key, i, j, k :: 0 <= i < j < k < |cs| && SampleFor(c, s, now, key)
      && SampleFor(cs[i], s, now, key) && SampleFor(cs[j], s, now, key) && SampleFor(cs[k], s, now, key)
  }

  // A row that is read becomes a candidate unless it is not to be probed, its
  // health keys are without hope, or its authority has its samples.
  ghost predicate Answered(cs: seq<Candidate>, c: Candidate, s: Live, now: int) {
    c in cs || Passable(c, s, now) || HasThree(cs, c, s, now)
  }

  lemma {:induction false} LastSample(cs: seq<Candidate>, key: string, s: Live, now: int) returns (i: nat)
    requires SampleNumber(cs, key, s, now) > 0
    ensures i < |cs| && SampleOf(cs[i], s, now) == Some(key)
    ensures SampleNumber(cs[..i], key, s, now) == SampleNumber(cs, key, s, now) - 1
  {
    i := |cs| - 1;
    if SampleOf(cs[i], s, now) != Some(key) {
      var before := cs[..i];
      i := LastSample(before, key, s, now);
      assert before[..i] == cs[..i];
    }
  }

  lemma {:induction false} IsSample(c: Candidate, s: Live, now: int, key: string)
    ensures SampleFor(c, s, now, key) <==> SampleOf(c, s, now) == Some(key)
  {
    JudgedBy(c.healthKeys, s.health, now);
  }

  lemma {:induction false} CrowdedHasThree(cs: seq<Candidate>, c: Candidate, s: Live, now: int)
    requires Crowded(cs, c, s, now)
    ensures HasThree(cs, c, s, now)
  {
    var key := SampleOf(c, s, now).value;
    var k := LastSample(cs, key, s, now);
    var j := LastSample(cs[..k], key, s, now);
    assert cs[..k][..j] == cs[..j];
    var i := LastSample(cs[..j], key, s, now);
    IsSample(c, s, now, key);
    IsSample(cs[i], s, now, key);
    IsSample(cs[j], s, now, key);
    IsSample(cs[k], s, now, key);
  }

  lemma {:induction false} HandledIsAnswered(cs: seq<Candidate>, c: Candidate, s: Live, now: int)
    requires InTier(c.tier, c.root) && Handled(cs, c, s, now)
    ensures Answered(cs, c, s, now)
  {
    RowColumns(c, s, now);
    if Crowded(cs, c, s, now) { CrowdedHasThree(cs, c, s, now); }
  }

  // The scan a candidate comes from.
  lemma {:induction false} OriginOf(topology: seq<Root>, tiers: seq<Tier>, s: Live, now: int, size: nat,
        maximum: Option<nat>, trace: Trace, sel: Selection, n: nat, c: Candidate) returns (i: nat)
    requires size > 0 && Steps(topology, tiers, s, now, size, maximum, trace, sel) && n <= |trace.steps|
    requires c in trace.selections[n].candidates
    ensures i < n && trace.steps[i].Some? && c in trace.steps[i].value.picks
  {
    i := n - 1;
    StepOf(topology, tiers, s, now, size, maximum, trace, sel, i);
    if !(trace.steps[i].Some? && c in trace.steps[i].value.picks) {
      i := OriginOf(topology, tiers, s, now, size, maximum, trace, sel, i, c);
    }
  }

  // What a scan read is answered by the whole selection.
  lemma {:induction false} ScanAnswers(topology: seq<Root>, tiers: seq<Tier>, s: Live, now: int, size: nat,
        maximum: Option<nat>, trace: Trace, sel: Selection, i: nat)
    requires SortedTopology(topology) && size > 0 && i < |trace.steps| && trace.steps[i].Some?
    requires Steps(topology, tiers, s, now, size, maximum, trace, sel)
    ensures var scan := trace.steps[i].value;
      var rows := TierRows(topology, scan.tier, s, size);
      && scan.tier == tiers[i] && scan.read <= |rows| && PicksTo(rows, scan.read, scan.picks)
      && forall k :: 0 <= k < scan.read ==> Answered(sel.candidates, rows[k], s, now)
  {
    assert StepAt(topology, tiers, s, now, size, maximum, trace, i);
    var scan := trace.steps[i].value;
    var rows, before := TierRows(topology, scan.tier, s, size), trace.selections[i + 1].candidates;
    SelectionsGrow(topology, tiers, s, now, size, maximum, trace, sel, i + 1, |trace.steps|);
    StaysHandled(before, sel.candidates, rows, scan.read, s, now);
    TierRowsHave(topology, scan.tier, s, size);
    forall k | 0 <= k < scan.read ensures Answered(sel.candidates, rows[k], s, now) {
      assert Handled(sel.candidates, rows[k], s, now) && rows[k] in rows;
      HandledIsAnswered(sel.candidates, rows[k], s, now);
    }
  }

  // No row before a candidate of its tier is passed over without one of these
  // reasons: a limit cuts the rows off in order.
  lemma {:induction false} NonePassedOver(topology: seq<Root>, tiers: seq<Tier>, s: Live, now: int, size: nat,
        maximum: Option<nat>, sel: Selection, c: Candidate, j: nat, k: nat)
    requires SortedTopology(topology) && SelectionOk(topology, tiers, s, now, size, maximum, sel)
    requires c in sel.candidates && k < j < |TierRows(topology, c.tier, s, size)|
    requires TierRows(topology, c.tier, s, size)[j] == c
    ensures Answered(sel.candidates, TierRows(topology, c.tier, s, size)[k], s, now)
  {
    var trace :| SelectedBy(topology, tiers, s, now, size, maximum, sel, trace);
    var i := OriginOf(topology, tiers, s, now, size, maximum, trace, sel, |trace.steps|, c);
    ScanAnswers(topology, tiers, s, now, size, maximum, trace, sel, i);
    var scan := trace.steps[i].value;
    var rows := TierRows(topology, scan.tier, s, size);
    TierRowsHave(topology, scan.tier, s, size);
    assert AmongFirst(rows, scan.read, c);
    var m :| 0 <= m < scan.read && rows[m] == c;
    LessIrreflexive(c.root.name);
    AscendingAt(rows, m, j);
    AscendingAt(rows, j, m);
  }

  // `n` rows are whole pages.
  predicate WholePages(n: nat, size: nat, pages: nat) { n == Times(pages, size) }

  function Times(n: nat, size: nat): nat { if n == 0 then 0 else Times(n - 1, size) + size }

  lemma {:induction false} PagesOfStart(n: nat, size: nat) returns (pages: nat)
    requires PageStart(n, size)
    ensures WholePages(n, size, pages)
  {
    pages := 0;
    if n > 0 {
      var before := PagesOfStart(n - size, size);
      pages := before + 1;
    }
  }

  // Of an open tier a batch that is not full has read whole pages, or all of it:
  // up to the page with a row to be sampled where its cursor waits.
  lemma {:induction false} PagesAreRead(topology: seq<Root>, tiers: seq<Tier>, s: Live, now: int, size: nat,
        maximum: Option<nat>, sel: Selection, tier: Tier) returns (read: nat, pages: nat)
    requires SortedTopology(topology) && SelectionOk(topology, tiers, s, now, size, maximum, sel)
    requires tier in tiers && Open(s, tier, now) && (maximum.Some? ==> |sel.candidates| < maximum.value)
    ensures var rows := TierRows(topology, tier, s, size);
      && read <= |rows| && (read == |rows| || WholePages(read, size, pages))
      && (forall k :: 0 <= k < read ==> Answered(sel.candidates, rows[k], s, now))
      && (read == |rows| || exists k :: 0 <= k < read && ToSample(rows[k], s, now))
  {
    var trace :| SelectedBy(topology, tiers, s, now, size, maximum, sel, trace);
    var i: nat :| i < |tiers| && tiers[i] == tier;
    assert StepAt(topology, tiers, s, now, size, maximum, trace, i);
    SelectionsGrow(topology, tiers, s, now, size, maximum, trace, sel, i + 1, |trace.steps|);
    ScanAnswers(topology, tiers, s, now, size, maximum, trace, sel, i);
    var scan, rows := trace.steps[i].value, TierRows(topology, tier, s, size);
    TierRowsHave(topology, tier, s, size);
    read, pages := scan.read, 0;
    if read < |rows| {
      pages := PagesOfStart(read, size);
      assert rows[scan.passed] in rows;
      RowColumns(rows[scan.passed], s, now);
      assert ToSample(rows[scan.passed], s, now);
    }
  }
}
