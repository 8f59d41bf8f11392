// The due queue on the columns of candidates and their status rows.
module DueColumns {
  import opened Text
  import opened LiveModels
  import opened DueQueue

  // ------------------------------------------------------------- who is queued

  // Probed with another topology resource.
  predicate Changed(c: Queued) { c.status.Some? && c.status.value.resourceHash != c.resourceHash }

  predicate Asks(c: Queued, now: int) {
    c.active && !c.suppressed && (c.status.None? || Changed(c) || now >= c.status.value.nextCheckAt)
  }

  // Only candidates that ask for a probe are picked, all of them without a limit
  // and else as many as it allows.
  lemma {:induction false} PickedColumns(rows: set<Queued>, syncedAt: int, now: int, limit: Option<int>,
        picked: seq<Queued>)
    requires QueuePrefix(DueSet(rows, now), syncedAt, limit, picked)
    ensures forall c :: c in picked ==> c in rows && Asks(c, now)
    ensures limit.None? ==> forall c :: c in rows && Asks(c, now) ==> c in picked
    ensures limit.Some? && limit.value <= |set c | c in rows && Asks(c, now)| ==>
      |picked| == if limit.value > 0 then limit.value else 0
    ensures limit.Some? && limit.value > |set c | c in rows && Asks(c, now)| ==>
      |picked| == |set c | c in rows && Asks(c, now)|
  {
    assert DueSet(rows, now) == set c | c in rows && Asks(c, now);
  }

  // ------------------------------------------------------------------ classes

  // First come changed candidates and those first seen since the last sync.
  predicate Fresh(c: Queued, syncedAt: int) { Changed(c) || (c.status.None? && c.firstSeenAt >= syncedAt) }

  // Then those that were once online, by https or by http.
  predicate OnceOnline(c: Queued) {
    && c.status.Some? && !Changed(c)
    && (c.status.value.lastGood == Some(Https) || c.status.value.lastGood == Some(HttpOnly))
  }

  // Then those never probed; the others were probed and never online.
  predicate NeverProbed(c: Queued, syncedAt: int) { c.status.None? && c.firstSeenAt < syncedAt }

  predicate SameClass(a: Queued, b: Queued, syncedAt: int) {
    && (Fresh(a, syncedAt) <==> Fresh(b, syncedAt)) && (OnceOnline(a) <==> OnceOnline(b))
    && (NeverProbed(a, syncedAt) <==> NeverProbed(b, syncedAt))
  }

  lemma {:induction false} ClassIs(a: Queued, b: Queued, syncedAt: int)
    ensures QueueTier(a, syncedAt) ==
      if Fresh(a, syncedAt) then 0 else if OnceOnline(a) then 1 else if NeverProbed(a, syncedAt) then 2 else 3
    ensures SameClass(a, b, syncedAt) <==> QueueTier(a, syncedAt) == QueueTier(b, syncedAt)
  {}

  // A candidate that is not picked before another is in no earlier class.
  lemma {:induction false} ClassesInOrder(due: set<Queued>, syncedAt: int, limit: Option<int>, picked: seq<Queued>,
        i: nat, d: Queued)
    requires QueuePrefix(due, syncedAt, limit, picked) && i < |picked| && d in due && d !in picked[..i]
    ensures var c := picked[i];
      && (Fresh(d, syncedAt) ==> Fresh(c, syncedAt))
      && (OnceOnline(d) ==> Fresh(c, syncedAt) || OnceOnline(c))
      && (NeverProbed(d, syncedAt) ==> Fresh(c, syncedAt) || OnceOnline(c) || NeverProbed(c, syncedAt))
  {
    ClassIs(d, picked[i], syncedAt);
    ClassIs(picked[i], d, syncedAt);
    if QueueTier(d, syncedAt) < QueueTier(picked[i], syncedAt) {
      LowerTiersFirst(due, syncedAt, limit, picked, i, d);
    }
  }

  // -------------------------------------------------------- one provider's line

  // When a candidate was due: its next check, or its first sight.
  predicate DueBefore(a: Queued, b: Queued) {
    var ta := match a.status case Some(s) => s.nextCheckAt case None => a.firstSeenAt;
    var tb := match b.status case Some(s) => s.nextCheckAt case None => b.firstSeenAt;
    ta < tb
  }

  predicate DueTogether(a: Queued, b: Queued) { !DueBefore(a, b) && !DueBefore(b, a) }

  predicate HostBefore(a: Queued, b: Queued) { Less(a.host, b.host) || (a.host == b.host && Less(a.root, b.root)) }

  // Longest due first, then the higher priority, then by host.
  predicate LineBefore(a: Queued, b: Queued) {
    || DueBefore(a, b)
    || (DueTogether(a, b) && a.priority > b.priority)
    || (DueTogether(a, b) && a.priority == b.priority && HostBefore(a, b))
  }

  // The higher priority first, then the longest due, then by host.
  predicate TurnBefore(a: Queued, b: Queued) {
    || a.priority > b.priority
    || (a.priority == b.priority && DueBefore(a, b))
    || (a.priority == b.priority && DueTogether(a, b) && HostBefore(a, b))
  }

  lemma {:induction false} LineInOrder(due: set<Queued>, syncedAt: int, limit: Option<int>, picked: seq<Queued>,
        i: nat, d: Queued)
    requires QueuePrefix(due, syncedAt, limit, picked) && KeyedByHost(due) && i < |picked| && d in due
    requires d.provider == picked[i].provider && SameClass(d, picked[i], syncedAt) && d !in picked[..i]
    ensures !LineBefore(d, picked[i])
  {
    ClassIs(d, picked[i], syncedAt);
    if RankedBefore(d, picked[i]) { LinesKeepOrder(due, syncedAt, limit, picked, i, d); }
  }

  // ------------------------------------------------------------ turns are taken

  // The picks before the `i`th of its provider and class.
  function EarlierPicks(picked: seq<Queued>, i: nat, syncedAt: int): set<Queued>
    requires i < |picked|
  {
    set d | d in picked[..i] && d.provider == picked[i].provider && SameClass(d, picked[i], syncedAt)
  }

  lemma {:induction false} AheadIsEarlier(due: set<Queued>, syncedAt: int, limit: Option<int>, picked: seq<Queued>,
        i: nat)
    requires QueuePrefix(due, syncedAt, limit, picked) && KeyedByHost(due) && i < |picked|
    ensures Ahead(due, picked[i], syncedAt) == EarlierPicks(picked, i, syncedAt)
  {
    var c := picked[i];
    assert c in picked && c in due;
    forall d ensures d in Ahead(due, c, syncedAt) <==> d in EarlierPicks(picked, i, syncedAt) {
      ClassIs(d, c, syncedAt);
      if d in Ahead(due, c, syncedAt) { LinesKeepOrder(due, syncedAt, limit, picked, i, d); }
      if d in EarlierPicks(picked, i, syncedAt) {
        var k :| 0 <= k < i && picked[k] == d;
        EarlierIsAhead(due, syncedAt, limit, picked, k, i);
      }
    }
  }

  lemma {:induction false} EarlierIsAhead(due: set<Queued>, syncedAt: int, limit: Option<int>, picked: seq<Queued>,
        k: nat, i: nat)
    requires QueuePrefix(due, syncedAt, limit, picked) && KeyedByHost(due) && k < i < |picked|
    requires SameLine(picked[k], picked[i], syncedAt)
    ensures picked[k] in due && RankedBefore(picked[k], picked[i])
  {
    var d, c := picked[k], picked[i];
    assert d in picked && c in picked;
    Ordered(due, syncedAt, picked, k, i);
    QueueOrder(due, syncedAt);
    RankedOrder(d, c, d);
    if !RankedBefore(d, c) {
      if d == c {
        ByNameOrder(d, d, d);
      } else {
        ByNameOrder(c, c, c);
        LinesKeepOrder(due, syncedAt, limit, picked, k, c);
      }
    }
  }

  // Within a class the providers' first picks come first, then their second
  // picks and so on; in each round the higher priority, then the longest due.
  lemma {:induction false} RoundsInOrder(due: set<Queued>, syncedAt: int, limit: Option<int>, picked: seq<Queued>,
        i: nat, j: nat)
    requires QueuePrefix(due, syncedAt, limit, picked) && KeyedByHost(due) && i < j < |picked|
    requires SameClass(picked[i], picked[j], syncedAt)
    ensures var a, b := |EarlierPicks(picked, i, syncedAt)|, |EarlierPicks(picked, j, syncedAt)|;
      a < b || (a == b && TurnBefore(picked[i], picked[j]))
  {
    AheadIsEarlier(due, syncedAt, limit, picked, i);
    AheadIsEarlier(due, syncedAt, limit, picked, j);
    ClassIs(picked[i], picked[j], syncedAt);
    Ordered(due, syncedAt, picked, i, j);
  }
}
