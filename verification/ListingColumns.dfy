// A host's row after any history of results, column by column.
module ListingColumns {
  import opened Text
  import opened LiveModels
  import opened Listing

  // The last `n` results are offline and the one before them is not.
  ghost predicate OfflineFor(history: History, n: nat) {
    && n <= |history| && (forall i :: |history| - n <= i < |history| ==> history[i].category.Offline?)
    && (n < |history| ==> !history[|history| - 1 - n].category.Offline?)
  }

  lemma {:induction false} FailuresAre(history: History, n: nat)
    requires history != [] && OfflineFor(history, n)
    ensures StatusOf(history).value.failures == n
    ensures StatusOf(history).value.lastGood.Some? <==> n < |history|
    decreases n
  {
    RowRemembers(history);
    if n < |history| {
      assert LatestOnline(history, |history| - 1 - n);
    } else {
      forall i: nat ensures !OnlineAt(history, i) {}
    }
  }

  // The days to the next check: a week while online or where DNSSEC failed; a
  // day at the first failure of a host that was online; else a week, doubling
  // from the third failure in a row, up to ninety days.
  predicate DaysAre(last: ProbeResult, failures: nat, everOnline: bool, days: int) {
    if !last.category.Offline? || last.failure.DnssecValidationFailed? then days == 7
    else if failures == 1 && everOnline then days == 1
    else if failures <= 2 then days == 7
    else if failures == 3 then days == 14
    else if failures == 4 then days == 28
    else if failures == 5 then days == 56
    else days == 90
  }

  // The row copies the last result and waits by the failures at the end of the
  // history; it is listed while online, degraded at the first ordinary failure
  // of a host that was online, and else unlisted.
  lemma {:induction false} RowColumns(history: History, n: nat)
    requires history != [] && OfflineFor(history, n)
    ensures var last, s := history[|history| - 1], StatusOf(history).value;
      && s.resourceHash == last.resourceHash && s.category == last.category && s.url == last.url
      && s.checkedAt == last.checkedAt
      && (exists days :: DaysAre(last, n, n < |history|, days) && s.nextCheckAt == last.checkedAt + days * 86400)
      && s.listing == if n == 0 then Listed
                      else if n == 1 && n < |history| && !last.failure.DnssecValidationFailed? then Degraded
                      else Unlisted
  {
    var before := history[..|history| - 1];
    FailuresAre(history, n);
    ListingByHistory(history);
    WaitByHistory(history);
    if n > 1 { assert history[|history| - 2].category.Offline?; }
    BackoffIs(n);
    assert DaysAre(history[|history| - 1], n, n < |history|, WaitDays(history));
  }

  lemma {:induction false} BackoffIs(n: nat)
    ensures BackoffDays(n, false) == if n <= 2 then 7 else if n == 3 then 14 else if n == 4 then 28
                                     else if n == 5 then 56 else 90
  {
    assert Pow2(1) == 2;
    assert Pow2(2) == 4;
    assert Pow2(3) == 8;
    if n >= 6 { PowerAtLeast(n - 2); }
  }

  lemma {:induction false} PowerAtLeast(n: nat)
    requires n >= 4
    ensures Pow2(n) >= 16
  {
    if n == 4 { assert Pow2(3) == 8; } else { PowerAtLeast(n - 1); }
  }
}
