// The live database's sweep tables, and one broad-sweep batch over them.
module LiveDb {
  import opened Text
  import opened LiveModels
  import opened Sweep
  import opened SweepSelect
  import opened SweepPage
  import opened SweepTier
  import opened SweepBatch

  // ------------------------------------------------------- recorded outcomes

  // _sweep_outcome: the outcome and the days to the next review.
  function SweepOutcome(r: ProbeResult): (o: (string, int))
    ensures 7 <= o.1 <= 90
    ensures Online(r.category) ==> o.1 == 30
    ensures !Online(r.category) && r.failure.DnssecValidationFailed? ==> o.1 == 7
  {
    if r.category.Https? then ("https_endpoint", 30)
    else if r.category.HttpOnly? then ("http_endpoint", 30)
    else if r.failure.DnssecValidationFailed? then ("dnssec_validation_failed", 7)
    else if r.dnsStatus.NoBootstrap? then ("no_bootstrap", 90)
    else if r.dnsStatus.NoAddress? then ("no_address", 90)
    else if r.httpsUntrusted then ("untrusted_https", 30)
    else if r.dnsStatus.DnsUnreachable? || r.failure.ProbeError? then ("transient_failure", 7)
    else ("no_endpoint", 90)
  }

  function CoverageRow(c: Candidate, r: ProbeResult): Coverage {
    var (outcome, days) := SweepOutcome(r);
    Coverage(c.root.resourceHash, c.tier, outcome,
             if r.category.Https? then "https" else if r.category.HttpOnly? then "http_only" else "",
             r.checkedAt, r.checkedAt + days * DAY, "")
  }

  // _authority_health_update
  function HealthRow(r: ProbeResult, previous: Option<Health>): Health {
    if r.dnsStatus.Resolved? || r.dnsStatus.NoAddress? then Health(Healthy, 0, r.checkedAt, r.checkedAt)
    else
      var before := if previous.Some? && (previous.value.state.Unreachable? || previous.value.state.Unresolved?)
                    then previous.value.failures else 0;
      var failures := before + 1;
      if r.dnsStatus.NoBootstrap? then
        Health(Unresolved, failures, r.checkedAt, r.checkedAt + Least(30, 7 * failures) * DAY)
      else if r.dnsStatus.DnsUnreachable? then
        Health(Unreachable, failures, r.checkedAt, r.checkedAt + Least(7, Pow2(failures - 1)) * DAY)
      else Health(Transient, failures, r.checkedAt, r.checkedAt + DAY)
  }

  function Previous(health: map<string, Health>, key: string): Option<Health> {
    if key in health then Some(health[key]) else None
  }

  function RecordedHealth(health: map<string, Health>, keys: set<string>, r: ProbeResult): map<string, Health> {
    health + map k | k in keys :: HealthRow(r, Previous(health, k))
  }

  function Nonempty(keys: seq<string>): set<string> { set k | k in keys && k != "" }

  lemma {:induction false} HealthStart(health: map<string, Health>, r: ProbeResult)
    ensures RecordedHealth(health, {}, r) == health
  {}

  lemma {:induction false} HealthNext(before: map<string, Health>, health: map<string, Health>, seen: set<string>,
        k: string, r: ProbeResult)
    requires health == RecordedHealth(before, seen, r) && k !in seen
    ensures RecordedHealth(before, seen + {k}, r) == health[k := HealthRow(r, Previous(health, k))]
  {}

  // ------------------------------------------------------- stored progress

  // A moved cursor reopens its tier; a completed tier is gated for a week.
  function StoreProgress(s: Live, sel: Selection): Live {
    s.(cursors := s.cursors + sel.updates,
       notBefore := map t | t in s.notBefore.Keys + (set u | u in sel.completed)
         && (t in sel.completed || !Moved(sel, t)) ::
         if t in sel.completed then sel.at + 7 * DAY else s.notBefore[t])
  }

  function Gates(completed: seq<Tier>, at: int): map<Tier, int> { map t | t in completed :: at + 7 * DAY }

  lemma {:induction false} ProgressInTwoSteps(notBefore: map<Tier, int>, sel: Selection)
    ensures (map t | t in notBefore && !Moved(sel, t) :: notBefore[t]) + Gates(sel.completed, sel.at)
         == (map t | t in notBefore.Keys + (set u | u in sel.completed) && (t in sel.completed || !Moved(sel, t)) ::
               if t in sel.completed then sel.at + 7 * DAY else notBefore[t])
  {}

  predicate Moved(sel: Selection, t: Tier) { t in sel.updates && sel.updates[t] != "" }

  // ---------------------------------------------------------- one batch step

  // The candidates `done` are recorded over `s`, in any order, and nothing else.
  ghost predicate Recorded(s: Live, u: Live, candidates: seq<Candidate>, done: set<string>,
        results: map<string, ProbeResult>) {
    && u.cursors == s.cursors && u.notBefore == s.notBefore
    && (forall n :: n in done ==> exists c :: c in candidates && c.root.name == n)
    && (forall c :: c in candidates && c.root.name in done && c.root.name in results ==>
          c.root.name in u.coverage && u.coverage[c.root.name] == CoverageRow(c, results[c.root.name]))
    && (forall n :: n !in done ==>
      (n in u.coverage <==> n in s.coverage) && (n in s.coverage ==> u.coverage[n] == s.coverage[n]))
  }

  // A health row that a result leaves, whatever was there before.
  ghost predicate LeftBy(row: Health, r: ProbeResult) {
    exists previous: Option<Health> :: row == HealthRow(r, previous)
  }

  ghost predicate Names(c: Candidate, done: set<string>,
        key: string) { c.root.name in done && key in Nonempty(c.healthKeys) }

  // An authority a recorded candidate names has the row that one of these
  // candidates' results left; the others are as they were.
  ghost predicate KeyRecorded(s: Live, u: Live, candidates: seq<Candidate>, done: set<string>,
        results: map<string, ProbeResult>, key: string) {
    if exists c :: c in candidates && Names(c, done, key) then
      key in u.health
      && exists c ::
           c in candidates && Names(c, done, key) && c.root.name in results
           && LeftBy(u.health[key], results[c.root.name])
    else (key in u.health <==> key in s.health) && (key in s.health ==> u.health[key] == s.health[key])
  }

  ghost predicate HealthRecorded(s: Live, u: Live, candidates: seq<Candidate>, done: set<string>,
        results: map<string, ProbeResult>) {
    forall key :: KeyRecorded(s, u, candidates, done, results, key)
  }

  function NamesOf(candidates: seq<Candidate>): set<string> { set c | c in candidates :: c.root.name }

  datatype Batch = Batch(
    tiers: seq<Tier>, now: int, size: nat, maximum: Option<nat>, sel: Selection,
    results: map<string, ProbeResult>, done: set<string>, failed: bool)

  ghost predicate Answers(topology: seq<Root>, now: int, results: map<string, ProbeResult>) {
    forall r :: r in topology ==> r.name in results && results[r.name].checkedAt >= now
  }

  // From `s` to `t`: a batch that raised records some candidates and moves no
  // cursor; one that completes records them all and then its progress.
  ghost predicate BatchStep(topology: seq<Root>, s: Live, b: Batch, t: Live) {
    && Answers(topology, b.now, b.results)
    && SelectionOk(topology, b.tiers, s, b.now, b.size, b.maximum, b.sel)
    && HealthRecorded(s, t, b.sel.candidates, b.done, b.results)
    && if b.failed then Recorded(s, t, b.sel.candidates, b.done, b.results)
       else b.done == NamesOf(b.sel.candidates)
            && Recorded(s, t.(cursors := s.cursors, notBefore := s.notBefore), b.sel.candidates, b.done, b.results)
            && t.cursors == StoreProgress(s, b.sel).cursors && t.notBefore == StoreProgress(s, b.sel).notBefore
  }

  // ---------------------------------------------------------------- the class

  class Database {
    var coverage: map<string, Coverage>
    var health: map<string, Health>
    var cursors: map<Tier, string>
    var notBefore: map<Tier, int>

    function Model(): Live
      reads this
    {
      Live(coverage, health, cursors, notBefore)
    }

    constructor ()
      ensures Model() == Live(map[], map[], map[], map[])
    {
      coverage, health, cursors, notBefore := map[], map[], map[], map[];
    }

    method RecordAuthorityHealth(keys: seq<string>, r: ProbeResult)
      modifies this`health
      ensures health == RecordedHealth(old(health), Nonempty(keys), r)
    {
      ghost var before := health;
      var all := Nonempty(keys);
      var rest := all;
      HealthStart(before, r);
      while rest != {}
        invariant rest <= all && health == RecordedHealth(before, all - rest, r)
        decreases rest
      {
        var k :| k in rest;
        HealthNext(before, health, all - rest, k, r);
        assert all - (rest - {k}) == all - rest + {k};
        health := health[k := HealthRow(r, Previous(health, k))];
        rest := rest - {k};
      }
      assert all - rest == all;
    }

    method StoreSweepCoverage(c: Candidate, r: ProbeResult)
      modifies this`coverage
      ensures coverage == old(coverage)[c.root.name := CoverageRow(c, r)]
    {
      coverage := coverage[c.root.name := CoverageRow(c, r)];
    }

    method GateTiers(completed: seq<Tier>, at: int)
      modifies this`notBefore
      ensures notBefore == old(notBefore) + Gates(completed, at)
    {
      ghost var before := notBefore;
      for i := 0 to |completed|
        invariant notBefore == before + Gates(completed[..i], at)
      {
        assert completed[..i + 1] == completed[..i] + [completed[i]];
        notBefore := notBefore[completed[i] := at + 7 * DAY];
      }
      assert completed[..|completed|] == completed;
    }

    method ReopenTiers(sel: Selection)
      modifies this`notBefore
      ensures notBefore == map t | t in old(notBefore) && !Moved(sel, t) :: old(notBefore)[t]
    {
      notBefore := map t | t in notBefore && !Moved(sel, t) :: notBefore[t];
    }

    method StoreSelectionProgress(sel: Selection)
      modifies this`cursors, this`notBefore
      ensures Model() == StoreProgress(old(Model()), sel)
    {
      ProgressInTwoSteps(notBefore, sel);
      cursors := cursors + sel.updates;
      ReopenTiers(sel);
      GateTiers(sel.completed, sel.at);
    }

    // The results of a batch arrive in any order; `failAfter` of them are
    // recorded before storing one raises, if it is given.
    method RecordResults(candidates: seq<Candidate>, results: map<string, ProbeResult>, failAfter: Option<nat>)
        returns (checked: nat, failed: bool, ghost done: set<string>)
      requires NamesAreKeys(candidates) && Answered(candidates, results)
      modifies this`coverage, this`health
      ensures Recorded(old(Model()), Model(), candidates, done, results)
      ensures HealthRecorded(old(Model()), Model(), candidates, done, results)
      ensures failed <==> failAfter.Some? && failAfter.value < |candidates|
      ensures checked == if failed then failAfter.value else |candidates|
      ensures !failed ==> done == NamesOf(candidates)
    {
      ghost var s := Model();
      var pending := candidates;
      checked, failed, done := 0, false, {};
      HealthUntouched(s, candidates, results);
      while pending != [] && !failed
        invariant Among(pending, candidates)
        invariant NamesOf(candidates) == done + NamesOf(pending)
        invariant Recorded(s, Model(), candidates, done, results)
        invariant HealthRecorded(s, Model(), candidates, done, results)
        invariant checked + |pending| == |candidates|
        invariant failAfter.Some? ==> checked <= failAfter.value
        invariant failed ==> failAfter == Some(checked) && pending != []
        decreases !failed, |pending|
      {
        if failAfter.Some? && checked == failAfter.value {
          failed := true;
        } else {
          var i :| 0 <= i < |pending|;
          var c := pending[i];
          ghost var before := Model();
          TakeOne(pending, i, candidates);
          RecordAuthorityHealth(c.healthKeys, results[c.root.name]);
          StoreSweepCoverage(c, results[c.root.name]);
          RecordedOneMore(s, before, Model(), candidates, done, results, c);
          HealthOneMore(s, before, Model(), candidates, done, results, c);
          pending, checked := pending[..i] + pending[i + 1..], checked + 1;
          done := done + {c.root.name};
        }
      }
    }

    // run_sweep_batch
    method RunSweepBatch(topology: seq<Root>, tiers: seq<Tier>, now: int, limit: Option<int>, pageSize: int,
          results: map<string, ProbeResult>, failAfter: Option<nat>)
        returns (checked: nat, ghost b: Batch)
      requires SortedTopology(topology) && Answers(topology, now, results)
      modifies this
      ensures b.tiers == tiers && b.now == now && b.results == results
      ensures b.size == (if pageSize > 1 then pageSize else 1)
      ensures b.maximum == (if limit.None? then None else if limit.value > 0 then Some(limit.value) else Some(0))
      ensures BatchStep(topology, old(Model()), b, Model())
      ensures b.failed <==> failAfter.Some? && failAfter.value < |b.sel.candidates|
      ensures checked == if b.failed then failAfter.value else |b.sel.candidates|
    {
      var s := Model();
      var sel;
      sel := SelectSweepCandidates(topology, tiers, s, now, limit, pageSize);
      SelectionAnswered(topology, tiers, s, now, PageSize(pageSize), Maximum(limit), sel, results);
      var failed;
      ghost var done;
      checked, failed, done := RecordResults(sel.candidates, results, failAfter);
      b := Batch(tiers, now, PageSize(pageSize), Maximum(limit), sel, results, done, failed);
      ghost var u := Model();
      if !failed { StoreSelectionProgress(sel); }
      StepOk(topology, s, b, u, Model());
    }
  }

  ghost predicate Among(pending: seq<Candidate>, candidates: seq<Candidate>) {
    forall c :: c in pending ==> c in candidates
  }

  lemma {:induction false} TakeOne(pending: seq<Candidate>, i: nat, candidates: seq<Candidate>)
    requires i < |pending| && Among(pending, candidates)
    ensures pending[i] in candidates
    ensures Among(pending[..i] + pending[i + 1..], candidates)
    ensures NamesOf(pending) == {pending[i].root.name} + NamesOf(pending[..i] + pending[i + 1..])
  {}

  ghost predicate Answered(candidates: seq<Candidate>, results: map<string, ProbeResult>) {
    forall c :: c in candidates ==> c.root.name in results
  }

  lemma {:induction false} SelectionAnswered(topology: seq<Root>, tiers: seq<Tier>, s: Live, now: int, size: nat,
        maximum: Option<nat>,
        sel: Selection, results: map<string, ProbeResult>)
    requires SortedTopology(topology) && Answers(topology, now, results)
    requires SelectionOk(topology, tiers, s, now, size, maximum, sel)
    ensures NamesAreKeys(sel.candidates) && Answered(sel.candidates, results)
  {
    forall c | c in sel.candidates ensures c.root.name in results {
      assert Eligible(topology, tiers, s, now, size, c);
      TierRowsHave(topology, c.tier, s, size);
    }
  }

  // A batch that recorded its results, and its progress unless it failed.
  lemma {:induction false} StepOk(topology: seq<Root>, s: Live, b: Batch, u: Live, t: Live)
    requires Answers(topology, b.now, b.results) && SelectionOk(topology, b.tiers, s, b.now, b.size, b.maximum, b.sel)
    requires Recorded(s, u, b.sel.candidates, b.done, b.results)
    requires HealthRecorded(s, u, b.sel.candidates, b.done, b.results)
    requires if b.failed then t == u else b.done == NamesOf(b.sel.candidates) && t == StoreProgress(u, b.sel)
    ensures BatchStep(topology, s, b, t)
  {
    if !b.failed { assert t.(cursors := s.cursors, notBefore := s.notBefore) == u; }
    SameHealth(s, u, t, b.sel.candidates, b.done, b.results);
  }

  lemma {:induction false} SameHealth(s: Live, u: Live, t: Live, candidates: seq<Candidate>, done: set<string>,
        results: map<string, ProbeResult>)
    requires HealthRecorded(s, u, candidates, done, results) && t.health == u.health
    ensures HealthRecorded(s, t, candidates, done, results)
  {
    forall key
      ensures KeyRecorded(s, t, candidates, done, results, key)
    {
      assert KeyRecorded(s, u, candidates, done, results, key);
    }
  }

  lemma {:induction false} HealthUntouched(s: Live, candidates: seq<Candidate>, results: map<string, ProbeResult>)
    ensures HealthRecorded(s, s, candidates, {}, results)
  {}

  lemma {:induction false} HealthOneMore(s: Live, u: Live, v: Live, candidates: seq<Candidate>, done: set<string>,
        results: map<string, ProbeResult>, c: Candidate)
    requires HealthRecorded(s, u, candidates, done, results) && NamesAreKeys(candidates)
    requires c in candidates && c.root.name in results
    requires v.health == RecordedHealth(u.health, Nonempty(c.healthKeys), results[c.root.name])
    ensures HealthRecorded(s, v, candidates, done + {c.root.name}, results)
  {
    var more := done + {c.root.name};
    forall key ensures KeyRecorded(s, v, candidates, more, results, key) {
      assert KeyRecorded(s, u, candidates, done, results, key);
      if key in Nonempty(c.healthKeys) {
        assert v.health[key] == HealthRow(results[c.root.name], Previous(u.health, key));
        assert LeftBy(v.health[key], results[c.root.name]) && Names(c, more, key);
      } else {
        NamesStay(candidates, done, c, key);
      }
    }
  }

  // A candidate that does not name the key does not change who does.
  lemma {:induction false} NamesStay(candidates: seq<Candidate>, done: set<string>, c: Candidate, key: string)
    requires NamesAreKeys(candidates) && c in candidates && key !in Nonempty(c.healthKeys)
    ensures forall d :: d in candidates ==> (Names(d, done + {c.root.name}, key) <==> Names(d, done, key))
  {}

  lemma {:induction false} RecordedOneMore(s: Live, u: Live, v: Live, candidates: seq<Candidate>, done: set<string>,
        results: map<string, ProbeResult>, c: Candidate)
    requires Recorded(s, u, candidates, done, results) && NamesAreKeys(candidates)
    requires c in candidates && c.root.name in results
    requires v.cursors == u.cursors && v.notBefore == u.notBefore
    requires v.coverage == u.coverage[c.root.name := CoverageRow(c, results[c.root.name])]
    ensures Recorded(s, v, candidates, done + {c.root.name}, results)
  {}
}
