// Runs of sweep batches over one topology: what a cursor has passed, and how
// the set of due roots drains.
module SweepRuns {
  import opened Text
  import opened LiveModels
  import opened Sweep
  import opened SweepSelect
  import opened SweepPage
  import opened SweepTier
  import opened SweepBatch
  import opened LiveDb

  const WEEK: int := 7 * DAY

  ghost predicate SweepRun(topology: seq<Root>, states: seq<Live>, batches: seq<Batch>) {
    && |states| == |batches| + 1
    && forall i :: 0 <= i < |batches| ==> BatchStep(topology, states[i], batches[i], states[i + 1])
  }

  // ------------------------------------------------------- coverage of a batch

  // A recorded root is covered, with its current hash, for at least a week.
  ghost predicate CoverageAfter(s: Live, b: Batch, t: Live, r: Root) {
    if r.name in b.done then
      r.name in t.coverage && t.coverage[r.name].resourceHash == r.resourceHash
        && t.coverage[r.name].nextCheckAt >= b.now + WEEK
    else
      (r.name in t.coverage <==> r.name in s.coverage)
        && (r.name in s.coverage ==> t.coverage[r.name] == s.coverage[r.name])
  }

  lemma {:induction false} CandidateRow(topology: seq<Root>, s: Live, b: Batch, t: Live, c: Candidate)
    requires SortedTopology(topology) && BatchStep(topology, s, b, t) && c in b.sel.candidates
    ensures c.root in topology && InTier(c.tier, c.root) && Due(c, s, b.now)
  {
    assert Eligible(topology, b.tiers, s, b.now, b.size, c);
    TierRowsHave(topology, c.tier, s, b.size);
  }

  lemma {:induction false} BatchCoverage(topology: seq<Root>, s: Live, b: Batch, t: Live, r: Root)
    requires SortedTopology(topology) && BatchStep(topology, s, b, t) && r in topology
    ensures CoverageAfter(s, b, t, r)
    ensures r.name in b.done ==> CoverageDue(s.coverage, r, b.now)
  {
    if r.name in b.done {
      var c :| c in b.sel.candidates && c.root.name == r.name;
      CandidateRow(topology, s, b, t, c);
      NameIsKey(topology, c.root, r);
    }
  }

  // ------------------------------------------------------------ cursor safety

  // `name` stands at or before the tier's cursor; "" is the start of a pass.
  predicate Passed(s: Live, tier: Tier, name: string) { name != "" && !Less(Cursor(s, tier), name) }

  // The batch moved the tier's cursor over the root, whose authorities were
  // suppressed on the page it read.
  ghost predicate PassedSuppressed(topology: seq<Root>, s: Live, b: Batch, t: Live, tier: Tier, r: Root) {
    && !b.failed && !Passed(s, tier, r.name) && (Passed(t, tier, r.name) || tier in b.sel.completed)
    && b.size > 0 && exists c ::
      c in TierRows(topology, tier, s, b.size) && c.root == r && Judged(c, s, b.now).Suppressed?
  }

  ghost function SuppressedIn(topology: seq<Root>, s: Live, b: Batch, t: Live, tier: Tier): set<string> {
    set r | r in topology && PassedSuppressed(topology, s, b, t, tier, r) :: r.name
  }

  // Why a root needs no probe in a pass begun at `from`.
  ghost predicate DealtWith(tier: Tier, r: Root, s: Live, from: int, suppressed: set<string>) {
    Skipped(tier, r) || !CoverageDue(s.coverage, r, from) || r.name in suppressed
  }

  ghost predicate CursorSafe(topology: seq<Root>, tier: Tier, s: Live, from: int, suppressed: set<string>) {
    forall r :: r in topology && InTier(tier, r) && Passed(s, tier, r.name) ==> DealtWith(tier, r, s, from, suppressed)
  }

  ghost predicate TierDone(topology: seq<Root>, tier: Tier, s: Live, from: int, suppressed: set<string>) {
    forall r :: r in topology && InTier(tier, r) && r.name != "" ==> DealtWith(tier, r, s, from, suppressed)
  }

  lemma {:induction false} StaysDealtWith(topology: seq<Root>, s: Live, b: Batch, t: Live, tier: Tier, r: Root,
        from: int, suppressed: set<string>)
    requires SortedTopology(topology) && BatchStep(topology, s, b, t) && r in topology && from <= b.now
    requires DealtWith(tier, r, s, from, suppressed)
    ensures DealtWith(tier, r, t, from, suppressed + SuppressedIn(topology, s, b, t, tier))
  {
    BatchCoverage(topology, s, b, t, r);
  }

  // A row the selection's cursor moved over.
  lemma {:induction false} AccountedIsDealtWith(topology: seq<Root>, s: Live, b: Batch, t: Live, tier: Tier,
        c: Candidate, from: int, suppressed: set<string>)
    requires SortedTopology(topology) && BatchStep(topology, s, b, t) && !b.failed && from <= b.now && b.size > 0
    requires c in TierRows(topology, tier, s, b.size) && c.root in topology && c.tier == tier
    requires Accounted(b.sel.candidates, c, s, b.now)
    requires !Passed(s, tier, c.root.name) && (Passed(t, tier, c.root.name) || tier in b.sel.completed)
    ensures DealtWith(tier, c.root, t, from, suppressed + SuppressedIn(topology, s, b, t, tier))
  {
    BatchCoverage(topology, s, b, t, c.root);
    if Judged(c, s, b.now).Suppressed? {
      assert PassedSuppressed(topology, s, b, t, tier, c.root);
      assert c.root.name in SuppressedIn(topology, s, b, t, tier);
    } else if Chosen(b.sel.candidates, c, s, b.now) {
      assert c.root.name in b.done;
    }
  }

  // The rows the stored cursor moves over are accounted for.
  lemma {:induction false} PassedIsAccounted(topology: seq<Root>, s: Live, b: Batch, t: Live, tier: Tier, k: nat)
    requires SortedTopology(topology) && BatchStep(topology, s, b, t) && !b.failed && b.size > 0
    requires var rows := TierRows(topology, tier, s, b.size);
      k < |rows| && (Passed(t, tier, rows[k].root.name) || tier in b.sel.completed)
        && Less(Cursor(s, tier), rows[k].root.name)
    ensures var rows := TierRows(topology, tier, s, b.size);
      Accounted(b.sel.candidates, rows[k], s, b.now)
  {
    var rows := TierRows(topology, tier, s, b.size);
    assert TierOutcome(topology, tier, s, b.now, b.size, b.maximum, b.sel, tier in b.tiers && !Gated(s, tier, b.now));
    if tier !in b.sel.completed {
      assert t.cursors == s.cursors + b.sel.updates;
      var passed: nat :| CursorBehind(rows, tier, s, b.now, b.sel, passed);
      TierRowsHave(topology, tier, s, b.size);
      BehindTheCursor(b.sel.candidates, rows, s, b.now, passed, k);
    }
  }

  lemma {:induction false} BehindTheCursor(picks: seq<Candidate>, rows: seq<Candidate>, s: Live, now: int, passed: nat,
        k: nat)
    requires Ascending(rows) && 0 < passed <= |rows| && k < |rows| && AccountedTo(picks, rows, passed, s, now)
    requires !Less(rows[passed - 1].root.name, rows[k].root.name)
    ensures Accounted(picks, rows[k], s, now)
  {
    AscendingAt(rows, passed - 1, k);
    assert Accounted(picks, rows[..passed][k], s, now);
  }

  // One batch, whether it raises or not: rows behind the new cursor are dealt
  // with, and if the tier is reported complete, all its rows are.
  lemma {:induction false} BatchKeepsCursorSafe(topology: seq<Root>, s: Live, b: Batch, t: Live, tier: Tier,
        from: int, suppressed: set<string>)
    requires SortedTopology(topology) && BatchStep(topology, s, b, t) && from <= b.now
    requires CursorSafe(topology, tier, s, from, suppressed)
    ensures CursorSafe(topology, tier, t, from, suppressed + SuppressedIn(topology, s, b, t, tier))
    ensures !b.failed && tier in b.sel.completed ==>
      TierDone(topology, tier, t, from, suppressed + SuppressedIn(topology, s, b, t, tier))
  {
    forall r | r in topology && InTier(tier, r) && r.name != ""
      && (Passed(t, tier, r.name) || (!b.failed && tier in b.sel.completed))
      ensures DealtWith(tier, r, t, from, suppressed + SuppressedIn(topology, s, b, t, tier))
    {
      if Passed(s, tier, r.name) {
        StaysDealtWith(topology, s, b, t, tier, r, from, suppressed);
      } else {
        var k := TierRowOf(topology, s, b.size, tier, r);
        PassedIsAccounted(topology, s, b, t, tier, k);
        AccountedIsDealtWith(topology, s, b, t, tier, TierRows(topology, tier, s, b.size)[k], from, suppressed);
      }
    }
  }

  // A root of the tier behind its cursor is one of the rows it reads.
  lemma {:induction false} TierRowOf(topology: seq<Root>, s: Live, size: nat, tier: Tier, r: Root) returns (k: nat)
    requires SortedTopology(topology) && size > 0 && r in topology && InTier(tier, r) && Less(Cursor(s, tier), r.name)
    ensures k < |TierRows(topology, tier, s, size)| && TierRows(topology, tier, s, size)[k].root == r
    ensures TierRows(topology, tier, s, size)[k].tier == tier
  {
    var roots := RowsAfter(topology, tier, Cursor(s, tier));
    RowsAfterHas(topology, tier, Cursor(s, tier));
    k :| k < |roots| && roots[k] == r;
  }

  // The pass a batch belongs to begins with the last batch so far that found
  // the tier's cursor empty: when that was, and what was suppressed since.
  ghost function PassFrom(states: seq<Live>, batches: seq<Batch>, tier: Tier, n: nat): int
    requires 0 < n <= |batches| < |states|
  {
    if n == 1 || Cursor(states[n - 1], tier) == "" then batches[n - 1].now else PassFrom(states, batches, tier, n - 1)
  }

  ghost function PassSuppressed(topology: seq<Root>, states: seq<Live>, batches: seq<Batch>, tier: Tier,
        n: nat): set<string>
    requires n <= |batches| < |states|
  {
    if n == 0 then {} else
      (if Cursor(states[n - 1], tier) == "" then {} else PassSuppressed(topology, states, batches, tier, n - 1))
      + SuppressedIn(topology, states[n - 1], batches[n - 1], states[n], tier)
  }

  ghost predicate ClockRuns(batches: seq<Batch>) {
    forall i {:trigger batches[i]} :: 0 < i < |batches| ==> batches[i - 1].now <= batches[i].now
  }

  lemma {:induction false} PassBegan(states: seq<Live>, batches: seq<Batch>, tier: Tier, n: nat)
    requires 0 < n <= |batches| < |states| && ClockRuns(batches)
    ensures PassFrom(states, batches, tier, n) <= batches[n - 1].now
  {
    if n > 1 && Cursor(states[n - 1], tier) != "" { PassBegan(states, batches, tier, n - 1); }
  }

  lemma {:induction false} NothingPassed(topology: seq<Root>, tier: Tier, s: Live, from: int)
    requires Cursor(s, tier) == ""
    ensures CursorSafe(topology, tier, s, from, {})
  {}

  // Over a run of any number of batches, failed ones included, from an empty
  // cursor: a root at or before the stored cursor has no bootstrap address, or
  // is covered beyond the start of the current pass, or was suppressed when
  // this pass moved over it; and a completed tier has no other root.
  lemma {:induction false} PassIsSafe(topology: seq<Root>, states: seq<Live>, batches: seq<Batch>, tier: Tier, n: nat)
    requires SortedTopology(topology) && SweepRun(topology, states, batches) && 0 < n <= |batches|
    requires Cursor(states[0], tier) == "" && ClockRuns(batches)
    ensures var from, suppressed :=
        PassFrom(states, batches, tier, n), PassSuppressed(topology, states, batches, tier, n);
      && CursorSafe(topology, tier, states[n], from, suppressed)
      && (!batches[n - 1].failed && tier in batches[n - 1].sel.completed ==>
            TierDone(topology, tier, states[n], from, suppressed))
  {
    var from := PassFrom(states, batches, tier, n);
    PassBegan(states, batches, tier, n);
    if Cursor(states[n - 1], tier) == "" {
      NothingPassed(topology, tier, states[n - 1], from);
      BatchKeepsCursorSafe(topology, states[n - 1], batches[n - 1], states[n], tier, from, {});
    } else {
      PassIsSafe(topology, states, batches, tier, n - 1);
      BatchKeepsCursorSafe(topology, states[n - 1], batches[n - 1], states[n], tier, from,
                           PassSuppressed(topology, states, batches, tier, n - 1));
    }
  }

  // A batch that raised leaves every cursor and gate where it was.
  lemma {:induction false} FailedBatchMovesNothing(topology: seq<Root>, s: Live, b: Batch, t: Live)
    requires BatchStep(topology, s, b, t) && b.failed
    ensures t.cursors == s.cursors && t.notBefore == s.notBefore
    ensures b.done <= NamesOf(b.sel.candidates)
  {}

  // ---------------------------------------------------------------- drainage

  predicate Probeable(r: Root) { exists tier :: InTier(tier, r) && !Skipped(tier, r) }

  // The roots whose coverage asks for a probe by `at`.
  ghost function DueBy(topology: seq<Root>, s: Live, at: int): set<string> {
    set r | r in topology && Probeable(r) && CoverageDue(s.coverage, r, at) :: r.name
  }

  lemma {:induction false} CandidatesAreDue(topology: seq<Root>, s: Live, b: Batch, t: Live, at: int)
    requires SortedTopology(topology) && BatchStep(topology, s, b, t) && b.now <= at
    ensures NamesOf(b.sel.candidates) <= DueBy(topology, s, at)
  {
    forall c | c in b.sel.candidates ensures c.root.name in DueBy(topology, s, at) {
      CandidateRow(topology, s, b, t, c);
      assert Probeable(c.root) && c.root in topology;
    }
  }

  lemma {:induction false} RecordedWasDue(topology: seq<Root>, s: Live, b: Batch, t: Live, at: int)
    requires SortedTopology(topology) && BatchStep(topology, s, b, t) && b.now <= at
    ensures b.done <= DueBy(topology, s, at)
  {
    CandidatesAreDue(topology, s, b, t, at);
    forall n | n in b.done ensures n in NamesOf(b.sel.candidates) {
      var c :| c in b.sel.candidates && c.root.name == n;
    }
  }

  lemma {:induction false} DueAfter(topology: seq<Root>, s: Live, b: Batch, t: Live, at: int, r: Root)
    requires SortedTopology(topology) && BatchStep(topology, s, b, t) && b.now <= at < b.now + WEEK && r in topology
    ensures CoverageDue(t.coverage, r, at) <==> CoverageDue(s.coverage, r, at) && r.name !in b.done
  {
    BatchCoverage(topology, s, b, t, r);
  }

  // What a batch recorded leaves the due set, for a week, and nothing else does.
  lemma {:induction false} BatchDrains(topology: seq<Root>, s: Live, b: Batch, t: Live, at: int)
    requires SortedTopology(topology) && BatchStep(topology, s, b, t) && b.now <= at < b.now + WEEK
    ensures DueBy(topology, t, at) == DueBy(topology, s, at) - b.done
    ensures b.done <= DueBy(topology, s, at)
  {
    RecordedWasDue(topology, s, b, t, at);
    forall r | r in topology
      ensures CoverageDue(t.coverage, r, at) <==> CoverageDue(s.coverage, r, at) && r.name !in b.done
    {
      DueAfter(topology, s, b, t, at, r);
    }
  }

  // What the first `n` batches recorded, and how many recordings they made.
  ghost function RecordedBy(batches: seq<Batch>, n: nat): set<string>
    requires n <= |batches|
  {
    if n == 0 then {} else RecordedBy(batches, n - 1) + batches[n - 1].done
  }

  ghost function Recordings(batches: seq<Batch>, n: nat): nat
    requires n <= |batches|
  {
    if n == 0 then 0 else Recordings(batches, n - 1) + |batches[n - 1].done|
  }

  ghost predicate InWindow(batches: seq<Batch>, at: int) {
    forall i :: 0 <= i < |batches| ==> batches[i].now <= at < batches[i].now + WEEK
  }

  ghost predicate Draining(due: seq<set<string>>, batches: seq<Batch>) {
    && |due| == |batches| + 1
    && forall i :: 0 <= i < |batches| ==> due[i + 1] == due[i] - batches[i].done && batches[i].done <= due[i]
  }

  lemma {:induction false} DrainingSum(due: seq<set<string>>, batches: seq<Batch>, n: nat)
    requires Draining(due, batches) && n <= |batches|
    ensures due[n] == due[0] - RecordedBy(batches, n)
    ensures |due[n]| + Recordings(batches, n) == |due[0]|
    decreases n
  {
    if n > 0 {
      DrainingSum(due, batches, n - 1);
      assert due[n - 1 + 1] == due[n - 1] - batches[n - 1].done;
    }
  }

  // Within a week the due set only drains: by exactly the recorded roots, none
  // of them recorded twice.
  lemma {:induction false} SweepDrains(topology: seq<Root>, states: seq<Live>, batches: seq<Batch>, at: int, n: nat)
    requires SortedTopology(topology) && SweepRun(topology, states, batches) && InWindow(batches, at) && n <= |batches|
    ensures DueBy(topology, states[n], at) == DueBy(topology, states[0], at) - RecordedBy(batches, n)
    ensures |DueBy(topology, states[n], at)| + Recordings(batches, n) == |DueBy(topology, states[0], at)|
  {
    var due := seq(|states|, i requires 0 <= i < |states| => DueBy(topology, states[i], at));
    forall i | 0 <= i < |batches|
      ensures due[i + 1] == due[i] - batches[i].done && batches[i].done <= due[i]
    {
      BatchDrains(topology, states[i], batches[i], states[i + 1], at);
    }
    DrainingSum(due, batches, n);
  }

  // A root recorded once is not selected again within the week.
  lemma {:induction false} NeverSelectedAgain(topology: seq<Root>, states: seq<Live>, batches: seq<Batch>, at: int,
        i: nat, j: nat)
    requires SortedTopology(topology) && SweepRun(topology, states, batches) && InWindow(batches, at)
    requires i < j < |batches|
    ensures batches[i].done !! NamesOf(batches[j].sel.candidates)
  {
    SweepDrains(topology, states, batches, at, j);
    CandidatesAreDue(topology, states[j], batches[j], states[j + 1], at);
    RecordedByHas(batches, i, j);
  }

  lemma {:induction false} RecordedByHas(batches: seq<Batch>, i: nat, n: nat)
    requires i < n <= |batches|
    ensures batches[i].done <= RecordedBy(batches, n)
  {
    if i < n - 1 { RecordedByHas(batches, i, n - 1); }
  }

  // A completed batch with candidates records a root.
  lemma {:induction false} RecordsSome(topology: seq<Root>, s: Live, b: Batch, t: Live)
    requires BatchStep(topology, s, b, t) && !b.failed && b.sel.candidates != []
    ensures |b.done| > 0
  {
    assert b.sel.candidates[0].root.name in b.done;
  }

  // An empty completed batch with room for a candidate gates every tier asked
  // for: there was nothing left to select behind any cursor.
  lemma {:induction false} EmptyBatchGates(topology: seq<Root>, s: Live, b: Batch, t: Live, tier: Tier)
    requires BatchStep(topology, s, b, t) && !b.failed
    requires b.sel.candidates == [] && !Full(b.maximum, 0) && tier in b.tiers
    ensures Gated(t, tier, b.now)
    ensures tier !in b.sel.completed ==> Gated(s, tier, b.now)
    ensures tier in b.sel.completed ==> Cursor(t, tier) == "" && Gated(t, tier, b.now + WEEK - 1)
  {}

  ghost predicate Completes(batches: seq<Batch>) {
    forall i :: 0 <= i < |batches| ==> !batches[i].failed && !Full(batches[i].maximum, 0)
  }

  lemma {:induction false} OneEach(batches: seq<Batch>, n: nat)
    requires n <= |batches| && forall i :: 0 <= i < |batches| ==> |batches[i].done| > 0
    ensures Recordings(batches, n) >= n
  {
    if n > 0 { OneEach(batches, n - 1); }
  }

  // Sweeping ends: of one more completed batch than there are due roots, one
  // selects nothing and leaves every tier it was asked for gated.
  lemma {:induction false} SweepFinishes(topology: seq<Root>, states: seq<Live>, batches: seq<Batch>, at: int)
    requires SortedTopology(topology) && SweepRun(topology, states, batches) && InWindow(batches, at)
    requires Completes(batches)
    requires |batches| > |DueBy(topology, states[0], at)|
    ensures exists i :: 0 <= i < |batches| && batches[i].sel.candidates == []
                        && forall tier :: tier in batches[i].tiers ==> Gated(states[i + 1], tier, batches[i].now)
  {
    SweepDrains(topology, states, batches, at, |batches|);
    if forall i :: 0 <= i < |batches| ==> batches[i].sel.candidates != [] {
      forall i | 0 <= i < |batches| ensures |batches[i].done| > 0 {
        RecordsSome(topology, states[i], batches[i], states[i + 1]);
      }
      OneEach(batches, |batches|);
    } else {
      var i :| 0 <= i < |batches| && batches[i].sel.candidates == [];
      forall tier | tier in batches[i].tiers ensures Gated(states[i + 1], tier, batches[i].now) {
        EmptyBatchGates(topology, states[i], batches[i], states[i + 1], tier);
      }
    }
  }
}
