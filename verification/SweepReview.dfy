// When a recorded root is probed again, and what a batch stores of its
// selection.
module SweepReview {
  import opened Text
  import opened LiveModels
  import opened Sweep
  import opened SweepSelect
  import opened SweepPage
  import opened SweepTier
  import opened SweepBatch
  import opened LiveDb
  import opened SweepRuns
  import opened SweepColumns

  // -------------------------------------------------------- recorded coverage

  // The days to the next check and the outcome a result is stored with.
  predicate Reviewed(r: ProbeResult, days: int, outcome: string) {
    && (r.category.Https? ==> days == 30 && outcome == "https_endpoint")
    && (r.category.HttpOnly? ==> days == 30 && outcome == "http_endpoint")
    && (r.category.Offline? ==>
      && (r.failure.DnssecValidationFailed? ==> days == 7 && outcome == "dnssec_validation_failed")
      && (!r.failure.DnssecValidationFailed? ==>
        && (r.dnsStatus.NoBootstrap? ==> days == 90 && outcome == "no_bootstrap")
        && (r.dnsStatus.NoAddress? ==> days == 90 && outcome == "no_address")
        && (!r.dnsStatus.NoBootstrap? && !r.dnsStatus.NoAddress? ==>
          && (r.httpsUntrusted ==> days == 30 && outcome == "untrusted_https")
          && (!r.httpsUntrusted && (r.dnsStatus.DnsUnreachable? || r.failure.ProbeError?) ==>
                days == 7 && outcome == "transient_failure")
          && (!r.httpsUntrusted && !r.dnsStatus.DnsUnreachable? && !r.failure.ProbeError? ==>
                days == 90 && outcome == "no_endpoint"))))
  }

  // The coverage row of a recorded candidate.
  ghost predicate CoveredBy(row: Coverage, c: Candidate, r: ProbeResult) {
    && row.resourceHash == c.root.resourceHash && row.signalTier == c.tier && row.checkedAt == r.checkedAt
    && row.category == (match r.category case Https => "https" case HttpOnly => "http_only" case Offline => "")
    && exists days :: Reviewed(r, days, row.outcome) && row.nextCheckAt == r.checkedAt + days * 86400
  }

  lemma {:induction false} CoverageRowIs(c: Candidate, r: ProbeResult)
    ensures CoveredBy(CoverageRow(c, r), c, r)
  {
    assert Reviewed(r, SweepOutcome(r).1, SweepOutcome(r).0);
  }

  // Every root a batch records is covered by its result; a root it does not
  // record keeps the coverage it had.
  lemma {:induction false} RecordedColumns(topology: seq<Root>, s: Live, b: Batch, t: Live, c: Candidate)
    requires SortedTopology(topology) && BatchStep(topology, s, b, t)
    requires c in b.sel.candidates && c.root.name in b.done
    ensures c.root.name in b.results && c.root.name in t.coverage
    ensures CoveredBy(t.coverage[c.root.name], c, b.results[c.root.name])
  {
    CandidateRow(topology, s, b, t, c);
    CoverageRowIs(c, b.results[c.root.name]);
  }

  // ------------------------------------------------------------- whole runs

  ghost predicate NotRecorded(batches: seq<Batch>, i: nat, j: nat, name: string) {
    j <= |batches| && forall k :: i <= k < j ==> name !in batches[k].done
  }

  lemma {:induction false} CoverageStays(topology: seq<Root>, states: seq<Live>, batches: seq<Batch>, i: nat, j: nat,
        r: Root)
    requires SortedTopology(topology) && SweepRun(topology, states, batches) && r in topology
    requires i <= j <= |batches| && NotRecorded(batches, i, j, r.name)
    requires r.name in states[i].coverage
    ensures r.name in states[j].coverage && states[j].coverage[r.name] == states[i].coverage[r.name]
  {
    if i < j {
      CoverageStays(topology, states, batches, i, j - 1, r);
      BatchCoverage(topology, states[j - 1], batches[j - 1], states[j], r);
    }
  }

  // The root's coverage row asks for a probe from `next` on, and only then.
  ghost predicate DueFrom(topology: seq<Root>, s: Live, c: Candidate, next: int) {
    && (forall now :: ToProbe(s.coverage, c.tier, c.root, now) <==> now >= next)
    && (forall at :: c.root.name in DueBy(topology, s, at) <==> at >= next)
  }

  lemma {:induction false} DueFromNextCheck(topology: seq<Root>, s: Live, c: Candidate)
    requires SortedTopology(topology) && c.root in topology && InTier(c.tier, c.root) && !Skipped(c.tier, c.root)
    requires c.root.name in s.coverage && s.coverage[c.root.name].resourceHash == c.root.resourceHash
    ensures DueFrom(topology, s, c, s.coverage[c.root.name].nextCheckAt)
  {
    forall at ensures c.root.name in DueBy(topology, s, at) <==> at >= s.coverage[c.root.name].nextCheckAt {
      if r :| r in topology && r.name == c.root.name && CoverageDue(s.coverage, r, at) {
        NameIsKey(topology, r, c.root);
      }
      assert Probeable(c.root);
    }
  }

  // A root that batch `i` recorded is due again from exactly the next check its
  // result gave it until a batch records it again, and no batch selects it
  // before.
  lemma {:induction false} DueAgain(topology: seq<Root>, states: seq<Live>, batches: seq<Batch>, i: nat, j: nat,
        c: Candidate)
    requires SortedTopology(topology) && SweepRun(topology, states, batches) && i < j <= |batches|
    requires c in batches[i].sel.candidates && c.root.name in batches[i].done
    requires NotRecorded(batches, i + 1, j, c.root.name)
    ensures c.root.name in batches[i].results && c.root.name in states[j].coverage
    ensures var row := states[j].coverage[c.root.name];
      && CoveredBy(row, c, batches[i].results[c.root.name])
      && DueFrom(topology, states[j], c, row.nextCheckAt)
      && (j < |batches| && c.root.name in NamesOf(batches[j].sel.candidates) ==> batches[j].now >= row.nextCheckAt)
  {
    CandidateRow(topology, states[i], batches[i], states[i + 1], c);
    RecordedColumns(topology, states[i], batches[i], states[i + 1], c);
    CoverageStays(topology, states, batches, i + 1, j, c.root);
    DueFromNextCheck(topology, states[j], c);
    if j < |batches| && c.root.name in NamesOf(batches[j].sel.candidates) {
      CandidatesAreDue(topology, states[j], batches[j], states[j + 1], batches[j].now);
      assert c.root.name in DueBy(topology, states[j], batches[j].now);
    }
  }

  // ------------------------------------------------------------ what is stored

  lemma {:induction false} ProgressIs(s: Live, sel: Selection, tier: Tier)
    ensures var t := StoreProgress(s, sel); ProgressOf(s, sel, t.cursors, t.notBefore, tier)
  {}

  // A tier's cursor is the one selected, if any, and closes a completed tier for
  // a week; a cursor that moved reopens a tier that is not complete.
  ghost predicate ProgressOf(s: Live, sel: Selection, cursors: map<Tier, string>, notBefore: map<Tier, int>,
        tier: Tier) {
    && (tier in sel.updates ==> tier in cursors && cursors[tier] == sel.updates[tier])
    && (tier !in sel.updates ==>
      (tier in cursors <==> tier in s.cursors) && (tier in s.cursors ==> cursors[tier] == s.cursors[tier]))
    && (if tier in sel.completed then tier in notBefore && notBefore[tier] == sel.at + 604800
        else if tier in sel.updates && sel.updates[tier] != "" then tier !in notBefore
        else (tier in notBefore <==> tier in s.notBefore)
             && (tier in s.notBefore ==> notBefore[tier] == s.notBefore[tier]))
  }

  // A batch that does not raise stores its progress; one that raises none.
  lemma {:induction false} ProgressColumns(topology: seq<Root>, s: Live, b: Batch, t: Live, tier: Tier)
    requires BatchStep(topology, s, b, t)
    ensures !b.failed ==> b.sel.at == b.now && ProgressOf(s, b.sel, t.cursors, t.notBefore, tier)
    ensures b.failed ==> t.cursors == s.cursors && t.notBefore == s.notBefore
  {
    ProgressIs(s, b.sel, tier);
  }
}
