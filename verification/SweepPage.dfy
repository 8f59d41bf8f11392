// The row loop of selection over one page: a cursor that moves only past rows
// it has accounted for.
module SweepPage {
  import opened Text
  import opened Sweep
  import opened SweepSelect

  // The row loop before row `i`: `passed` rows are behind the cursor, which
  // waits at the next one or keeps up with the loop.
  ghost predicate Scanning(page: seq<Candidate>, s: Live, now: int, i: nat, picks: seq<Candidate>, passed: nat,
        waiting: bool) {
    && i <= |page| && (if waiting then passed < i && Held(page[passed], s, now) else passed == i)
    && Picked(page, picks, s, now)
    && (i < |page| ==> forall c :: c in picks ==> Less(c.root.name, page[i].root.name))
    && AccountedTo(picks, page, passed, s, now)
  }

  lemma {:induction false} ScanStart(page: seq<Candidate>, s: Live, now: int)
    ensures Scanning(page, s, now, 0, [], 0, false)
  {}

  lemma {:induction false} NextRowIsAbove(page: seq<Candidate>, i: nat, picks: seq<Candidate>)
    requires Ascending(page) && i + 1 < |page|
    requires forall c :: c in picks ==> Less(c.root.name, page[i].root.name)
    ensures Less(page[i].root.name, page[i + 1].root.name)
    ensures forall c :: c in picks ==> Less(c.root.name, page[i + 1].root.name)
  {
    forall c | c in picks ensures Less(c.root.name, page[i + 1].root.name) {
      LessTransitive(c.root.name, page[i].root.name, page[i + 1].root.name);
    }
  }

  lemma {:induction false} AccountedMore(picks: seq<Candidate>, more: seq<Candidate>, rows: seq<Candidate>, n: nat,
        s: Live, now: int)
    requires AccountedTo(picks, rows, n, s, now) && forall c :: c in picks ==> c in more
    ensures AccountedTo(more, rows, n, s, now)
  {
    forall k | 0 <= k < n ensures Accounted(more, rows[k], s, now) {
      assert Accounted(picks, rows[k], s, now);
    }
  }

  lemma {:induction false} AccountedNext(picks: seq<Candidate>, rows: seq<Candidate>, i: nat, s: Live, now: int)
    requires i < |rows| && AccountedTo(picks, rows, i, s, now) && Accounted(picks, rows[i], s, now)
    ensures AccountedTo(picks, rows, i + 1, s, now)
  {}

  // A settled row: the cursor moves over it unless it waits at an earlier one.
  // At a due row of an unknown authority it waits.
  lemma {:induction false} ScanOver(page: seq<Candidate>, s: Live, now: int, i: nat, picks: seq<Candidate>, passed: nat,
        waiting: bool)
    requires Ascending(page) && i < |page| && Scanning(page, s, now, i, picks, passed, waiting)
    ensures Settled(page[i], s, now) ==>
      Scanning(page, s, now, i + 1, picks, if waiting then passed else i + 1, waiting)
    ensures Held(page[i], s, now) ==> Scanning(page, s, now, i + 1, picks, passed, true)
  {
    if i + 1 < |page| { NextRowIsAbove(page, i, picks); }
    if Settled(page[i], s, now) && !waiting { AccountedNext(picks, page, i, s, now); }
  }

  // A picked row: the cursor moves over it if it is no sample and the cursor
  // does not wait yet.
  lemma {:induction false} ScanPick(page: seq<Candidate>, s: Live, now: int, i: nat, picks: seq<Candidate>, passed: nat,
        waiting: bool)
    requires Ascending(page) && i < |page| && Scanning(page, s, now, i, picks, passed, waiting)
    requires !Settled(page[i], s, now)
    ensures SampleOf(page[i], s, now).None? ==>
      Scanning(page, s, now, i + 1, picks + [page[i]], if waiting then passed else i + 1, waiting)
    ensures SampleOf(page[i], s, now).Some? ==> Scanning(page, s, now, i + 1, picks + [page[i]], passed, true)
  {
    var c := page[i];
    var more := picks + [c];
    assert forall d :: d in more <==> d in picks || d == c;
    assert Ascending(more);
    AccountedMore(picks, more, page, passed, s, now);
    if SampleOf(c, s, now).None? && !waiting { AccountedNext(more, page, i, s, now); }
    if i + 1 < |page| { NextRowIsAbove(page, i, picks); }
  }

  lemma {:induction false} SampleNumberNext(selected: seq<Candidate>, c: Candidate, key: string, s: Live, now: int)
    ensures SampleNumber(selected + [c], key, s, now)
         == SampleNumber(selected, key, s, now) + (if SampleOf(c, s, now) == Some(key) then 1 else 0)
  {}

  lemma {:induction false} SampleOneMore(samples: map<string, nat>, selected: seq<Candidate>, c: Candidate, s: Live,
        now: int)
    requires Samples(samples, selected, s, now)
    ensures var sample := SampleOf(c, s, now);
      if sample.None? then Samples(samples, selected + [c], s, now)
      else
        && (Count(samples, sample.value) > 0 ==> |selected| > 0)
        && (Count(samples, sample.value) < UNKNOWN_AUTHORITY_SAMPLES ==>
              Samples(samples[sample.value := Count(samples, sample.value) + 1], selected + [c], s, now))
  {
    var sample := SampleOf(c, s, now);
    var next := if sample.None? then samples else samples[sample.value := Count(samples, sample.value) + 1];
    if sample.Some? { assert Sampled(samples, selected, sample.value, s, now); }
    if sample.None? || Count(samples, sample.value) < UNKNOWN_AUTHORITY_SAMPLES {
      forall key ensures Sampled(next, selected + [c], key, s, now) {
        assert Sampled(samples, selected, key, s, now);
        SampleNumberNext(selected, c, key, s, now);
      }
    }
  }

  // What the loops carry besides the position.
  ghost predicate Tally(maximum: Option<nat>, selected: seq<Candidate>, samples: map<string, nat>, waiting: bool,
        s: Live, now: int) {
    Samples(samples, selected, s, now) && Within(maximum, |selected|) && (waiting ==> |selected| > 0)
  }

  // A due row that is not suppressed: pick it, wait for its authority's
  // samples, or stop at the limit.
  method TryPick(c: Candidate, s: Live, now: int, maximum: Option<nat>, selected0: seq<Candidate>,
        samples0: map<string, nat>, waiting0: bool)
      returns (picked: bool, reached: bool, waiting: bool, selected: seq<Candidate>, samples: map<string, nat>)
    requires Tally(maximum, selected0, samples0, waiting0, s, now)
    ensures Tally(maximum, selected, samples, waiting, s, now)
    ensures selected == if picked then selected0 + [c] else selected0
    ensures reached ==> Full(maximum, |selected|) && !picked && waiting == waiting0
    ensures !reached ==> if SampleOf(c, s, now).Some? then waiting else picked && waiting == waiting0
    ensures !reached && !picked ==> Enough(samples0, c, s, now)
  {
    picked, reached, waiting := false, false, waiting0;
    selected, samples := selected0, samples0;
    var sample := SampleOf(c, s, now);
    SampleOneMore(samples, selected, c, s, now);
    if sample.Some? && Count(samples, sample.value) >= UNKNOWN_AUTHORITY_SAMPLES {
      waiting := true;
    } else if Full(maximum, |selected|) {
      reached := true;
    } else {
      picked, selected := true, selected + [c];
      if sample.Some? {
        samples := samples[sample.value := Count(samples, sample.value) + 1];
        waiting := true;
      }
    }
  }

  // The candidate's unknown authority has all its samples.
  predicate Enough(samples: map<string, nat>, c: Candidate, s: Live, now: int) {
    var sample := SampleOf(c, s, now);
    sample.Some? && Count(samples, sample.value) >= UNKNOWN_AUTHORITY_SAMPLES
  }

  lemma {:induction false} EnoughIsCrowded(samples: map<string, nat>, selected: seq<Candidate>, c: Candidate, s: Live,
        now: int)
    requires Samples(samples, selected, s, now)
    ensures Enough(samples, c, s, now) ==> Crowded(selected, c, s, now)
  {
    var sample := SampleOf(c, s, now);
    if sample.Some? { assert Sampled(samples, selected, sample.value, s, now); }
  }

  // The rows read so far are handled, and the picks are among them.
  ghost predicate ReadTo(page: seq<Candidate>, s: Live, now: int, selected: seq<Candidate>, picks: seq<Candidate>,
        upto: nat) {
    HandledTo(selected, page, upto, s, now) && PicksTo(page, upto, picks)
  }

  lemma {:induction false} ReadNext(page: seq<Candidate>, s: Live, now: int, selected0: seq<Candidate>,
        selected: seq<Candidate>, picks0: seq<Candidate>, picks: seq<Candidate>, i: nat)
    requires i < |page| && ReadTo(page, s, now, selected0, picks0, i) && selected0 <= selected
    requires Handled(selected, page[i], s, now) && forall c :: c in picks ==> c in picks0 || c == page[i]
    ensures ReadTo(page, s, now, selected, picks, i + 1)
  {
    StaysHandled(selected0, selected, page, i, s, now);
    forall c | c in picks ensures AmongFirst(page, i + 1, c) {
      if c in picks0 { assert AmongFirst(page, i, c); }
    }
  }

  // One row of the inner loop.
  method ScanRow(page: seq<Candidate>, s: Live, now: int, i: nat, maximum: Option<nat>,
        selected0: seq<Candidate>, samples0: map<string, nat>, waiting0: bool,
        ghost base: seq<Candidate>, ghost picks0: seq<Candidate>, passed0: nat)
      returns (selected: seq<Candidate>, samples: map<string, nat>, waiting: bool,
        reached: bool, advance: bool, ghost picks: seq<Candidate>)
    requires Ascending(page) && i < |page| && Scanning(page, s, now, i, picks0, passed0, waiting0)
    requires Tally(maximum, selected0, samples0, waiting0, s, now) && ReadTo(page, s, now, selected0, picks0, i)
    requires selected0 == base + picks0
    ensures Tally(maximum, selected, samples, waiting, s, now) && selected == base + picks
    ensures reached ==> Full(maximum, |selected|) && picks == picks0 && waiting == waiting0 && selected == selected0
    ensures !reached ==>
      && ReadTo(page, s, now, selected, picks, i + 1)
      && Scanning(page, s, now, i + 1, picks, if advance then i + 1 else passed0, waiting)
  {
    ScanOver(page, s, now, i, picks0, passed0, waiting0);
    selected, samples, waiting, picks := selected0, samples0, waiting0, picks0;
    reached, advance := false, !waiting0;
    if !Settled(page[i], s, now) {
      var picked;
      ScanPick(page, s, now, i, picks0, passed0, waiting0);
      picked, reached, waiting, selected, samples :=
        TryPick(page[i], s, now, maximum, selected0, samples0, waiting0);
      advance := picked && !waiting;
      if picked {
        Associate(base, picks0, [page[i]]);
        picks := picks0 + [page[i]];
      } else {
        EnoughIsCrowded(samples0, selected0, page[i], s, now);
      }
    }
    if !reached { ReadNext(page, s, now, selected0, selected, picks0, picks, i); }
  }

  // The inner loop of select_sweep_candidates. `passed` counts the rows the
  // cursor moved over.
  method ScanMarked(page: seq<Candidate>, s: Live, now: int, maximum: Option<nat>,
        selected0: seq<Candidate>, samples0: map<string, nat>, cursor0: string)
      returns (selected: seq<Candidate>, samples: map<string, nat>, cursor: string,
        waiting: bool, reached: bool, ghost picks: seq<Candidate>, passed: nat, ghost upto: nat)
    requires Ascending(page)
    requires Tally(maximum, selected0, samples0, false, s, now)
    ensures Scanning(page, s, now, upto, picks, passed, waiting) && (!reached ==> upto == |page|)
    ensures ReadTo(page, s, now, selected, picks, upto)
    ensures selected == selected0 + picks
    ensures cursor == CursorAt(page, passed, cursor0)
    ensures Tally(maximum, selected, samples, waiting, s, now)
    ensures reached ==> Full(maximum, |selected|)
  {
    selected, samples, cursor := selected0, samples0, cursor0;
    waiting, reached, picks, passed, upto := false, false, [], 0, 0;
    ScanStart(page, s, now);
    for i := 0 to |page|
      invariant upto == i && !reached
      invariant Scanning(page, s, now, i, picks, passed, waiting)
      invariant ReadTo(page, s, now, selected, picks, i)
      invariant selected == selected0 + picks && cursor == CursorAt(page, passed, cursor0)
      invariant Tally(maximum, selected, samples, waiting, s, now)
    {
      var advance;
      selected, samples, waiting, reached, advance, picks :=
        ScanRow(page, s, now, i, maximum, selected, samples, waiting, selected0, picks, passed);
      if reached { break; }
      upto := i + 1;
      if advance { cursor, passed := page[i].root.name, i + 1; }
    }
  }

  lemma {:induction false} Associate(a: seq<Candidate>, b: seq<Candidate>, c: seq<Candidate>)
    ensures a + b + c == a + (b + c)
  {}

  function CursorAt(page: seq<Candidate>, passed: nat, cursor: string): string
    requires passed <= |page|
  {
    if passed == 0 then cursor else page[passed - 1].root.name
  }
}
