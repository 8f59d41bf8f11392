// The health of an authority as its whole history of probe results decides it,
// and what selection makes of it.
module AuthorityHealth {
  import opened Text
  import opened LiveModels
  import opened Sweep
  import opened LiveDb

  type Results = seq<ProbeResult>

  function RowOf(results: Results): Option<Health> {
    if results == [] then None
    else Some(HealthRow(results[|results| - 1], RowOf(results[..|results| - 1])))
  }

  predicate Answering(r: ProbeResult) { r.dnsStatus.Resolved? || r.dnsStatus.NoAddress? }

  // A failure that counts on: no bootstrap address, or unreachable.
  predicate Persistent(r: ProbeResult) { r.dnsStatus.NoBootstrap? || r.dnsStatus.DnsUnreachable? }

  // The `n` results before the last are persistent failures, the one before
  // them is not.
  ghost predicate Streak(results: Results, n: nat) {
    && n < |results|
    && (forall i :: |results| - 1 - n <= i < |results| - 1 ==> Persistent(results[i]))
    && (n + 1 < |results| ==> !Persistent(results[|results| - 2 - n]))
  }

  lemma {:induction false} StreakExists(results: Results) returns (n: nat)
    requires results != []
    ensures Streak(results, n)
  {
    var m := |results| - 1;
    n := 0;
    while n < m && Persistent(results[m - 1 - n])
      invariant n <= m && forall i :: m - n <= i < m ==> Persistent(results[i])
      decreases m - n
    {
      n := n + 1;
    }
  }

  // State and failure count by history: an answer is healthy without failures;
  // else one failure more than the persistent failures right before it.
  lemma {:induction false} HealthByHistory(results: Results, n: nat)
    requires Streak(results, n)
    ensures var last, row := results[|results| - 1], RowOf(results).value;
      && row.checkedAt == last.checkedAt
      && (row.state.Healthy? <==> Answering(last)) && (row.state.Unresolved? <==> last.dnsStatus.NoBootstrap?)
      && (row.state.Unreachable? <==> last.dnsStatus.DnsUnreachable?)
      && row.failures == if Answering(last) then 0 else n + 1
    decreases n
  {
    var m := |results| - 1;
    if m > 0 {
      var before := results[..m];
      if n > 0 {
        assert Persistent(results[m - 1]);
        assert Streak(before, n - 1);
        HealthByHistory(before, n - 1);
      } else {
        var k := StreakExists(before);
        assert !Persistent(results[m - 1]) && before[|before| - 1] == results[m - 1];
        NotCarried(before);
      }
    }
  }

  // Only a persistent failure is carried over.
  lemma {:induction false} NotCarried(results: Results)
    requires results != []
    ensures Persistent(results[|results| - 1]) <==>
      RowOf(results).value.state.Unreachable? || RowOf(results).value.state.Unresolved?
  {}

  lemma {:induction false} Pow2AtLeast(n: nat)
    ensures Pow2(n) >= 1 && (n >= 3 ==> Pow2(n) >= 8)
  {
    if n > 0 { Pow2AtLeast(n - 1); }
  }

  // When the next probe may be made: at once after an answer, else after a week
  // a failure up to thirty days, one day doubling up to a week, or a day.
  lemma {:induction false} NextProbeByHistory(results: Results, n: nat)
    requires Streak(results, n)
    ensures var last, row := results[|results| - 1], RowOf(results).value;
      row.nextProbeAt == last.checkedAt + DAY * (
        if Answering(last) then 0
        else if last.dnsStatus.NoBootstrap? then Least(30, 7 * (n + 1))
        else if last.dnsStatus.DnsUnreachable? then (if n >= 3 then 7 else Pow2(n))
        else 1)
  {
    HealthByHistory(results, n);
    Pow2AtLeast(n);
    if n == 1 { assert Pow2(1) == 2; }
    if n == 2 { assert Pow2(2) == 4 by { assert Pow2(1) == 2; } }
  }

  // ------------------------------------------------------------ the whole table

  // One result recorded under the health keys of its candidate.
  datatype Recording = Recording(keys: seq<string>, result: ProbeResult)

  function Table(recordings: seq<Recording>): map<string, Health> {
    if recordings == [] then map[]
    else
      var last := recordings[|recordings| - 1];
      RecordedHealth(Table(recordings[..|recordings| - 1]), Nonempty(last.keys), last.result)
  }

  function ResultsOf(recordings: seq<Recording>, key: string): Results {
    if recordings == [] then []
    else
      var last := recordings[|recordings| - 1];
      ResultsOf(recordings[..|recordings| - 1], key) + (if key in last.keys then [last.result] else [])
  }

  // However the results of different authorities interleave, each key's row is
  // that of its own history; the empty key has none.
  lemma {:induction false} RowsAreHistories(recordings: seq<Recording>, key: string)
    ensures "" !in Table(recordings)
    ensures key != "" ==> (key in Table(recordings) <==> ResultsOf(recordings, key) != [])
    ensures key in Table(recordings) ==> Some(Table(recordings)[key]) == RowOf(ResultsOf(recordings, key))
  {
    if recordings != [] {
      var before, last := recordings[..|recordings| - 1], recordings[|recordings| - 1];
      RowsAreHistories(before, key);
      var past := ResultsOf(before, key);
      if key in last.keys { assert (past + [last.result])[..|past|] == past; } else { assert past + [] == past; }
    }
  }

  // ------------------------------------------------------------ in selection

  lemma {:induction false} HealthyMeans(keys: seq<string>, health: map<string, Health>)
    ensures AnyHealthy(keys, health) <==> exists k :: k in keys && k in health && health[k].state == Healthy
  {
    if keys != [] {
      assert keys == [keys[0]] + keys[1..];
      HealthyMeans(keys[1..], health);
    }
  }

  lemma {:induction false} NeedingMeans(keys: seq<string>, health: map<string, Health>, now: int)
    ensures FirstNeeding(keys, health, now).None? <==>
      forall k :: k in keys ==> k in health && now < health[k].nextProbeAt
    ensures FirstNeeding(keys, health, now).Some? ==> FirstNeeding(keys, health, now).value in keys
  {
    if keys != [] {
      assert keys == [keys[0]] + keys[1..];
      NeedingMeans(keys[1..], health, now);
    }
  }

  // A candidate is held back exactly if it has health keys, all of them failed
  // and none may be probed again yet: one healthy key is enough to select it.
  lemma {:induction false} SuppressedIff(keys: seq<string>, health: map<string, Health>, now: int)
    ensures AuthorityState(keys, health, now).Suppressed? <==>
      keys != [] && forall k :: k in keys ==> k in health && health[k].state != Healthy && now < health[k].nextProbeAt
    ensures AuthorityState(keys, health, now).Unknown? ==> SampleKey(keys, health, now) in keys
  {
    HealthyMeans(keys, health);
    NeedingMeans(keys, health, now);
  }
}
