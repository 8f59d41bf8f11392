// The listing state of a host: the stored row is decided by the whole history
// of its probe results, and the due time by the failures at its end.
module Listing {
  import opened Text
  import opened LiveModels

  datatype Listed = Listed | Degraded | Unlisted

  datatype Status = Status(
    resourceHash: string, category: Category, listing: Listed, url: string, checkedAt: int, nextCheckAt: int,
    firstOnlineAt: Option<int>, lastOnlineAt: Option<int>,
    lastGood: Option<Category>, lastGoodUrl: Option<string>, failures: nat)

  // Days to the next check after an ordinary failure that makes `failures`.
  function BackoffDays(failures: nat, degraded: bool): int {
    if degraded then 1 else Least(90, 7 * Pow2(if failures > 2 then failures - 2 else 0))
  }

  // Whether a failure leaves a host degraded, and the days to its next check.
  predicate LeavesDegraded(previous: Option<Status>) {
    previous.Some? && previous.value.lastGood.Some? && previous.value.failures == 0
  }

  function ReviewDays(previous: Option<Status>, r: ProbeResult): int {
    if Online(r.category) || r.failure.DnssecValidationFailed? then 7
    else BackoffDays((if previous.Some? then previous.value.failures else 0) + 1, LeavesDegraded(previous))
  }

  // _listing_state, and the columns store_probe_result copies from the result.
  function Probed(previous: Option<Status>, r: ProbeResult): Status {
    var next := r.checkedAt + ReviewDays(previous, r) * DAY;
    var first := if previous.Some? then previous.value.firstOnlineAt else None;
    if Online(r.category) then
      Status(r.resourceHash, r.category, Listed, r.url, r.checkedAt, next,
             if first.Some? then first else Some(r.checkedAt), Some(r.checkedAt), Some(r.category), Some(r.url), 0)
    else
      Status(r.resourceHash, r.category,
             if !r.failure.DnssecValidationFailed? && LeavesDegraded(previous) then Degraded else Unlisted,
             r.url, r.checkedAt, next, first,
             if previous.Some? then previous.value.lastOnlineAt else None,
             if previous.Some? then previous.value.lastGood else None,
             if previous.Some? then previous.value.lastGoodUrl else None,
             (if previous.Some? then previous.value.failures else 0) + 1)
  }

  // -------------------------------------------------- a row from its history

  type History = seq<ProbeResult>

  function StatusOf(history: History): Option<Status> {
    if history == [] then None
    else Some(Probed(StatusOf(history[..|history| - 1]), history[|history| - 1]))
  }

  predicate OnlineAt(history: History, i: nat) { i < |history| && Online(history[i].category) }

  predicate OrdinaryFailureAt(history: History, i: nat) {
    i < |history| && !Online(history[i].category) && !history[i].failure.DnssecValidationFailed?
  }

  // The last online result is the `i`th / there is none.
  ghost predicate LatestOnline(history: History, i: nat) {
    OnlineAt(history, i) && forall j: nat :: i < j < |history| ==> !OnlineAt(history, j)
  }

  ghost predicate FirstOnline(history: History, i: nat) {
    OnlineAt(history, i) && forall j: nat :: j < i ==> !OnlineAt(history, j)
  }

  ghost predicate NeverOnline(history: History) { forall i: nat :: !OnlineAt(history, i) }

  // What the row remembers, said of the history alone.
  ghost predicate Remembers(s: Status, history: History) {
    && (forall i: nat :: LatestOnline(history, i) ==>
          && s.lastGood == Some(history[i].category) && s.lastGoodUrl == Some(history[i].url)
          && s.lastOnlineAt == Some(history[i].checkedAt) && s.failures == |history| - 1 - i)
    && (forall i: nat :: FirstOnline(history, i) ==> s.firstOnlineAt == Some(history[i].checkedAt))
    && (NeverOnline(history) ==>
          s.lastGood.None? && s.lastGoodUrl.None? && s.lastOnlineAt.None? && s.firstOnlineAt.None?
            && s.failures == |history|)
  }

  lemma {:induction false} LatestOnlineExists(history: History)
    ensures NeverOnline(history) || exists i: nat :: LatestOnline(history, i)
    ensures NeverOnline(history) || exists i: nat :: FirstOnline(history, i)
  {
    if history != [] {
      var before := history[..|history| - 1];
      LatestOnlineExists(before);
      var m := |history| - 1;
      assert forall i: nat :: OnlineAt(before, i) <==> OnlineAt(history, i) && i < m;
      if OnlineAt(history, m) { assert LatestOnline(history, m); }
      if NeverOnline(before) {
        if OnlineAt(history, m) { assert FirstOnline(history, m); }
      } else {
        var i: nat :| LatestOnline(before, i);
        assert !OnlineAt(history, m) ==> LatestOnline(history, i);
        var j: nat :| FirstOnline(before, j);
        assert FirstOnline(history, j);
      }
    }
  }

  // A further result that is online / offline.
  lemma {:induction false} OnlineRemembered(history: History, m: nat, s: Status)
    requires m + 1 == |history| && OnlineAt(history, m) && Some(s) == StatusOf(history)
    requires m > 0 ==> Remembers(StatusOf(history[..m]).value, history[..m])
    ensures Remembers(s, history)
  {
    var before := history[..m];
    assert LatestOnline(history, m) && forall i: nat :: LatestOnline(history, i) ==> i == m;
    assert forall i: nat :: OnlineAt(before, i) <==> OnlineAt(history, i) && i < m;
    forall i: nat | FirstOnline(history, i) ensures s.firstOnlineAt == Some(history[i].checkedAt) {
      if i < m { assert FirstOnline(before, i); }
      else if m > 0 { assert NeverOnline(before); }
    }
  }

  lemma {:induction false} OfflineAdds(history: History, m: nat, i: nat)
    requires m + 1 == |history| && !OnlineAt(history, m)
    ensures OnlineAt(history[..m], i) <==> OnlineAt(history, i)
    ensures LatestOnline(history[..m], i) <==> LatestOnline(history, i)
    ensures FirstOnline(history[..m], i) <==> FirstOnline(history, i)
  {
    var before := history[..m];
    assert forall j: nat :: OnlineAt(before, j) <==> OnlineAt(history, j);
  }

  lemma {:induction false} OfflineRemembered(history: History, m: nat, s: Status)
    requires m + 1 == |history| && !OnlineAt(history, m) && Some(s) == StatusOf(history)
    requires m > 0 ==> Remembers(StatusOf(history[..m]).value, history[..m])
    ensures Remembers(s, history)
  {
    if m == 0 {
      forall i: nat ensures !OnlineAt(history, i) {}
    } else {
      var before := history[..m];
      var past := StatusOf(before).value;
      assert s == Probed(Some(past), history[m]);
      assert s.failures == past.failures + 1 && s.lastGood == past.lastGood && s.lastGoodUrl == past.lastGoodUrl
             && s.lastOnlineAt == past.lastOnlineAt && s.firstOnlineAt == past.firstOnlineAt;
      OfflineCarries(history, m, past, s);
    }
  }

  lemma {:induction false} OfflineCarries(history: History, m: nat, past: Status, s: Status)
    requires m + 1 == |history| && !OnlineAt(history, m) && Remembers(past, history[..m])
    requires s.failures == past.failures + 1 && s.lastGood == past.lastGood && s.lastGoodUrl == past.lastGoodUrl
             && s.lastOnlineAt == past.lastOnlineAt && s.firstOnlineAt == past.firstOnlineAt
    ensures Remembers(s, history)
  {
    forall i: nat ensures LatestOnline(history, i) <==> LatestOnline(history[..m], i) { OfflineAdds(history, m, i); }
    forall i: nat ensures FirstOnline(history, i) <==> FirstOnline(history[..m], i) { OfflineAdds(history, m, i); }
    if NeverOnline(history) {
      forall i: nat ensures !OnlineAt(history[..m], i) { OfflineAdds(history, m, i); }
    }
  }

  lemma {:induction false} RowRemembers(history: History)
    requires history != []
    ensures Remembers(StatusOf(history).value, history)
    ensures StatusOf(history).value.lastGood.Some? <==> !NeverOnline(history)
    ensures StatusOf(history).value.firstOnlineAt.Some? <==> !NeverOnline(history)
  {
    var m := |history| - 1;
    if m > 0 { RowRemembers(history[..m]); }
    if OnlineAt(history, m) { OnlineRemembered(history, m, StatusOf(history).value); }
    else { OfflineRemembered(history, m, StatusOf(history).value); }
    LatestOnlineExists(history);
  }

  // Listed: the last result was online. Degraded: one ordinary failure follows
  // an online result. Failures: the length of the offline end.
  lemma {:induction false} ListingByHistory(history: History)
    requires history != []
    ensures var s := StatusOf(history).value;
      var m := |history| - 1;
      && (s.listing.Listed? <==> OnlineAt(history, m))
      && (s.listing.Degraded? <==> m > 0 && OnlineAt(history, m - 1) && OrdinaryFailureAt(history, m))
      && (s.failures == 0 <==> OnlineAt(history, m))
  {}

  // ------------------------------------------------------------- the next check

  function WaitDays(history: History): int
    requires history != []
  {
    ReviewDays(StatusOf(history[..|history| - 1]), history[|history| - 1])
  }

  lemma {:induction false} Pow2Grows(n: nat)
    ensures Pow2(n) >= 1 && Pow2(n) >= n
  {
    if n > 0 { Pow2Grows(n - 1); }
  }

  lemma {:induction false} BackoffRange(failures: nat, degraded: bool)
    ensures 1 <= BackoffDays(failures, degraded) <= 90
  {
    Pow2Grows(if failures > 2 then failures - 2 else 0);
  }

  // After an ordinary failure: a day if the host was online just before, else
  // a week doubling from the third failure in a row, at most ninety days.
  lemma {:induction false} WaitByHistory(history: History)
    requires history != []
    ensures var s := StatusOf(history).value;
      s.checkedAt == history[|history| - 1].checkedAt && s.nextCheckAt == s.checkedAt + WaitDays(history) * DAY
    ensures var m := |history| - 1;
      && 1 <= WaitDays(history) <= 90
      && WaitDays(history) == (if !OrdinaryFailureAt(history, m) then 7
                               else if m > 0 && OnlineAt(history, m - 1) then 1
                               else BackoffDays(StatusOf(history).value.failures, false))
  {
    ListingByHistory(history);
    BackoffRange(StatusOf(history).value.failures, LeavesDegraded(StatusOf(history[..|history| - 1])));
    WaitIs(history);
  }

  lemma {:induction false} WaitIs(history: History)
    requires history != []
    ensures var m := |history| - 1;
      WaitDays(history) == if !OrdinaryFailureAt(history, m) then 7
                           else BackoffDays(StatusOf(history).value.failures, StatusOf(history).value.listing.Degraded?)
  {}

  // Along ordinary failures the wait never shrinks, and doubles from the third
  // failure until it reaches ninety days.
  lemma {:induction false} BackoffNeverShrinks(history: History, r: ProbeResult)
    requires history != [] && OrdinaryFailureAt(history, |history| - 1)
    requires !Online(r.category) && !r.failure.DnssecValidationFailed?
    ensures WaitDays(history) <= WaitDays(history + [r])
    ensures StatusOf(history).value.failures >= 2 ==>
      WaitDays(history + [r]) == Least(90, 2 * WaitDays(history))
  {}

  // Once a host has been online its first online time stays.
  lemma {:induction false} FirstOnlineIsFixed(history: History, more: History)
    requires history != [] && StatusOf(history).value.firstOnlineAt.Some?
    ensures StatusOf(history + more).value.firstOnlineAt == StatusOf(history).value.firstOnlineAt
    decreases |more|
  {
    if more == [] { assert history + more == history; }
    else {
      FirstOnlineIsFixed(history, more[..|more| - 1]);
      assert (history + more)[..|history + more| - 1] == history + more[..|more| - 1];
    }
  }

  // ----------------------------------------------------------------- directory

  // The category a directory row shows.
  function DirectoryCategory(s: Status): Option<Category> {
    if s.listing.Unlisted? then Some(Offline) else s.lastGood
  }

  // The published category is the last result's if that was online, the one
  // before it if a single ordinary failure followed, and else offline.
  lemma {:induction false} DirectoryByHistory(history: History)
    requires history != []
    ensures var m := |history| - 1;
      DirectoryCategory(StatusOf(history).value) == Some(
        if OnlineAt(history, m) then history[m].category
        else if m > 0 && OnlineAt(history, m - 1) && OrdinaryFailureAt(history, m) then history[m - 1].category
        else Offline)
  {}

  // ------------------------------------------------------------- the whole table

  // A host is a root and a host name.
  type Host = (string, string)

  function HostOf(r: ProbeResult): Host { (r.root, r.host) }

  function Stored(rows: map<Host, Status>, r: ProbeResult): map<Host, Status> {
    rows[HostOf(r) := Probed(if HostOf(r) in rows then Some(rows[HostOf(r)]) else None, r)]
  }

  function StoredAll(results: seq<ProbeResult>): map<Host, Status> {
    if results == [] then map[] else Stored(StoredAll(results[..|results| - 1]), results[|results| - 1])
  }

  function HistoryOf(results: seq<ProbeResult>, host: Host): History {
    if results == [] then []
    else
      var last := results[|results| - 1];
      HistoryOf(results[..|results| - 1], host) + (if HostOf(last) == host then [last] else [])
  }

  // However the results of different hosts interleave, each host's row is that
  // of its own history.
  lemma {:induction false} RowsAreHistories(results: seq<ProbeResult>, host: Host)
    ensures host in StoredAll(results) <==> HistoryOf(results, host) != []
    ensures host in StoredAll(results) ==> Some(StoredAll(results)[host]) == StatusOf(HistoryOf(results, host))
  {
    if results != [] {
      var before, last := results[..|results| - 1], results[|results| - 1];
      RowsAreHistories(before, host);
      var past := HistoryOf(before, host);
      if HostOf(last) == host { assert (past + [last])[..|past|] == past; }
      else { assert past + [] == past; }
    }
  }

  class StatusTable {
    var rows: map<Host, Status>

    constructor ()
      ensures rows == map[]
    {
      rows := map[];
    }

    method StoreProbeResult(r: ProbeResult)
      modifies this
      ensures rows == Stored(old(rows), r)
    {
      var previous := if HostOf(r) in rows then Some(rows[HostOf(r)]) else None;
      var state := ListingState(previous, r);
      rows := rows[HostOf(r) := state];
    }

    // live_summary_counts over the active candidates, with their hashes, and
    // the active roots.
    method SummaryCounts(candidates: map<Host, string>, roots: set<string>) returns (counts: Counts)
      ensures counts.checked == |Current(rows, candidates, roots)|
      ensures counts.https == |InCategory(rows, Current(rows, candidates, roots), Https)|
      ensures counts.httpOnly == |InCategory(rows, Current(rows, candidates, roots), HttpOnly)|
      ensures counts.degraded == |InState(rows, Current(rows, candidates, roots), Degraded)|
      ensures counts.offline == |InState(rows, Current(rows, candidates, roots), Unlisted)|
    {
      var joined := set h | h in rows && h in candidates && h.0 in roots && rows[h].resourceHash == candidates[h];
      var https := set h | h in joined && !rows[h].listing.Unlisted? && rows[h].lastGood == Some(Https);
      var httpOnly := set h | h in joined && !rows[h].listing.Unlisted? && rows[h].lastGood == Some(HttpOnly);
      var degraded := set h | h in joined && rows[h].listing.Degraded?;
      var offline := set h | h in joined && rows[h].listing.Unlisted?;
      counts := Counts(|joined|, |https|, |httpOnly|, |degraded|, |offline|);
      assert joined == Current(rows, candidates, roots);
      assert https == InCategory(rows, joined, Https) && httpOnly == InCategory(rows, joined, HttpOnly);
      assert degraded == InState(rows, joined, Degraded) && offline == InState(rows, joined, Unlisted);
    }
  }

  datatype Counts = Counts(checked: nat, https: nat, httpOnly: nat, degraded: nat, offline: nat)

  // The rows of active candidates of active roots that were probed with the
  // candidate's present topology resource.
  ghost function Current(rows: map<Host, Status>, candidates: map<Host, string>, roots: set<string>): set<Host> {
    set h | h in rows && h in candidates && h.0 in roots && rows[h].resourceHash == candidates[h]
  }

  ghost function InCategory(rows: map<Host, Status>, hosts: set<Host>, category: Category): set<Host> {
    set h | h in hosts && h in rows && DirectoryCategory(rows[h]) == Some(category)
  }

  ghost function InState(rows: map<Host, Status>, hosts: set<Host>, listing: Listed): set<Host> {
    set h | h in hosts && h in rows && rows[h].listing == listing
  }

  // The local failure counter of _listing_state.
  method ListingState(previous: Option<Status>, r: ProbeResult) returns (s: Status)
    ensures s == Probed(previous, r)
  {
    var p := if previous.Some? then previous.value
             else Status("", Offline, Unlisted, "", 0, 0, None, None, None, None, 0);
    var failures := p.failures;
    if Online(r.category) {
      var first := if p.firstOnlineAt.Some? then p.firstOnlineAt else Some(r.checkedAt);
      return Status(r.resourceHash, r.category, Listed, r.url, r.checkedAt, r.checkedAt + 7 * DAY,
                    first, Some(r.checkedAt), Some(r.category), Some(r.url), 0);
    }
    if r.failure.DnssecValidationFailed? {
      return Status(r.resourceHash, r.category, Unlisted, r.url, r.checkedAt, r.checkedAt + 7 * DAY,
                    p.firstOnlineAt, p.lastOnlineAt, p.lastGood, p.lastGoodUrl, failures + 1);
    }
    failures := failures + 1;
    var degraded := p.lastGood.Some? && failures < 2;
    s := Status(r.resourceHash, r.category, if degraded then Degraded else Unlisted, r.url, r.checkedAt,
                r.checkedAt + BackoffDays(failures, degraded) * DAY,
                p.firstOnlineAt, p.lastOnlineAt, p.lastGood, p.lastGoodUrl, failures);
  }

  // In a table filled by probe results an unlisted row is an offline one.
  lemma {:induction false} OfflineIsUnlisted(results: seq<ProbeResult>, host: Host)
    requires host in StoredAll(results)
    ensures var s := StoredAll(results)[host];
      && DirectoryCategory(s).Some?
      && (s.listing.Unlisted? <==> DirectoryCategory(s) == Some(Offline))
  {
    RowsAreHistories(results, host);
    var history := HistoryOf(results, host);
    DirectoryByHistory(history);
    ListingByHistory(history);
  }

  lemma {:induction false} ThreeParts(all: set<Host>, a: set<Host>, b: set<Host>, c: set<Host>)
    requires all == a + b + c && a !! b && (a + b) !! c
    ensures |all| == |a| + |b| + |c|
  {}

  // In a table filled by probe results every row checked is counted in exactly
  // one published category, and the degraded rows are online ones.
  lemma {:induction false} SummaryPartitions(results: seq<ProbeResult>, hosts: set<Host>)
    requires hosts <= StoredAll(results).Keys
    ensures var rows := StoredAll(results);
      var https, httpOnly := InCategory(rows, hosts, Https), InCategory(rows, hosts, HttpOnly);
      && |hosts| == |https| + |httpOnly| + |InState(rows, hosts, Unlisted)|
      && InState(rows, hosts, Degraded) <= https + httpOnly
      && |InState(rows, hosts, Degraded)| <= |https| + |httpOnly|
  {
    var rows := StoredAll(results);
    var https, httpOnly := InCategory(rows, hosts, Https), InCategory(rows, hosts, HttpOnly);
    var unlisted := InState(rows, hosts, Unlisted);
    forall h | h in hosts
      ensures if rows[h].listing.Unlisted? then h in unlisted && h !in https && h !in httpOnly
              else h in https || h in httpOnly
    {
      OfflineIsUnlisted(results, h);
      match DirectoryCategory(rows[h]).value
      case Https => assert h in https;
      case HttpOnly => assert h in httpOnly;
      case Offline => assert h in unlisted;
    }
    assert hosts == https + httpOnly + unlisted;
    ThreeParts(hosts, https, httpOnly, unlisted);
    SubsetSize(InState(rows, hosts, Degraded), https + httpOnly);
  }
}
