// The due queue of host probes: tiers first, then round robin over providers.
module DueQueue {
  import opened Text
  import opened LiveModels

  // A candidate joined with its root and, if it has been probed, its status.
  datatype Checked = Checked(resourceHash: string, lastGood: Option<Category>, nextCheckAt: int)

  datatype Queued = Queued(
    root: string, host: string, provider: string, priority: int, resourceHash: string,
    firstSeenAt: int, active: bool, suppressed: bool, status: Option<Checked>)

  predicate IsDue(c: Queued, now: int) {
    c.active && !c.suppressed
    && (c.status.None? || c.status.value.resourceHash != c.resourceHash || c.status.value.nextCheckAt <= now)
  }

  function QueueTier(c: Queued, syncedAt: int): nat {
    if c.status.Some? && c.status.value.resourceHash != c.resourceHash then 0
    else if c.status.None? && c.firstSeenAt >= syncedAt then 0
    else if c.status.Some? && c.status.value.lastGood.Some? && Online(c.status.value.lastGood.value) then 1
    else if c.status.None? then 2
    else 3
  }

  function DueAt(c: Queued): int { if c.status.Some? then c.status.value.nextCheckAt else c.firstSeenAt }

  // The primary key of the candidates table.
  ghost predicate KeyedByHost(rows: set<Queued>) {
    forall a, b :: a in rows && b in rows && a.root == b.root && a.host == b.host ==> a == b
  }

  // ---------------------------------------------------------------- the orders

  predicate ByName(a: Queued, b: Queued) { Less(a.host, b.host) || (a.host == b.host && Less(a.root, b.root)) }

  // ORDER BY due_at, priority DESC, host.
  predicate RankedBefore(a: Queued, b: Queued) {
    DueAt(a) < DueAt(b) || (DueAt(a) == DueAt(b)
      && (a.priority > b.priority || (a.priority == b.priority && ByName(a, b))))
  }

  // ORDER BY priority DESC, due_at, host.
  predicate PreferredTo(a: Queued, b: Queued) {
    a.priority > b.priority
      || (a.priority == b.priority && (DueAt(a) < DueAt(b) || (DueAt(a) == DueAt(b) && ByName(a, b))))
  }

  ghost predicate SameLine(a: Queued, b: Queued, syncedAt: int) {
    a.provider == b.provider && QueueTier(a, syncedAt) == QueueTier(b, syncedAt)
  }

  function Line(due: set<Queued>, provider: string, tier: nat, syncedAt: int): set<Queued> {
    set c | c in due && c.provider == provider && QueueTier(c, syncedAt) == tier
  }

  // row_number() in the candidate's provider and tier.
  function Ahead(due: set<Queued>, c: Queued, syncedAt: int): set<Queued> {
    set d | d in Line(due, c.provider, QueueTier(c, syncedAt), syncedAt) && RankedBefore(d, c)
  }

  function Rank(due: set<Queued>, c: Queued, syncedAt: int): nat { |Ahead(due, c, syncedAt)| + 1 }

  predicate Precedes(due: set<Queued>, syncedAt: int, a: Queued, b: Queued) {
    var ta, tb := QueueTier(a, syncedAt), QueueTier(b, syncedAt);
    ta < tb || (ta == tb && (Rank(due, a, syncedAt) < Rank(due, b, syncedAt)
                             || (Rank(due, a, syncedAt) == Rank(due, b, syncedAt) && PreferredTo(a, b))))
  }

  lemma {:induction false} ByNameOrder(a: Queued, b: Queued, c: Queued)
    ensures ByName(a, b) && ByName(b, c) ==> ByName(a, c)
    ensures !ByName(a, a)
    ensures ByName(a, b) || ByName(b, a) || (a.host == b.host && a.root == b.root)
  {
    LessIrreflexive(a.host);
    LessIrreflexive(a.root);
    LessTotal(a.host, b.host);
    LessTotal(a.root, b.root);
    if Less(a.host, b.host) && Less(b.host, c.host) { LessTransitive(a.host, b.host, c.host); }
    if Less(a.root, b.root) && Less(b.root, c.root) { LessTransitive(a.root, b.root, c.root); }
  }

  lemma {:induction false} RankedOrder(a: Queued, b: Queued, c: Queued)
    ensures RankedBefore(a, b) && RankedBefore(b, c) ==> RankedBefore(a, c)
    ensures !RankedBefore(a, a)
    ensures RankedBefore(a, b) || RankedBefore(b, a) || (a.host == b.host && a.root == b.root)
  {
    ByNameOrder(a, b, c);
  }

  lemma {:induction false} QueueOrder(due: set<Queued>, syncedAt: int)
    requires KeyedByHost(due)
    ensures StrictTotal(due, (a, b) => Precedes(due, syncedAt, a, b))
  {
    forall a, b | a in due && b in due && a != b
      ensures Precedes(due, syncedAt, a, b) || Precedes(due, syncedAt, b, a)
    {
      ByNameOrder(a, b, b);
    }
    forall a, b, c | Precedes(due, syncedAt, a, b) && Precedes(due, syncedAt, b, c)
      ensures Precedes(due, syncedAt, a, c)
    {
      ByNameOrder(a, b, c);
    }
  }

  // ----------------------------------------------------------------- the query

  function DueSet(rows: set<Queued>, now: int): set<Queued> { set c | c in rows && IsDue(c, now) }

  ghost predicate QueueOrdered(due: set<Queued>, syncedAt: int, r: seq<Queued>) {
    forall i, j :: 0 <= i < j < |r| ==> Precedes(due, syncedAt, r[i], r[j])
  }

  // `picked` is a prefix of the ordered queue of the length asked for.
  ghost predicate QueuePrefix(due: set<Queued>, syncedAt: int, limit: Option<int>, picked: seq<Queued>) {
    && (forall c :: c in picked ==> c in due)
    && QueueOrdered(due, syncedAt, picked)
    && (forall c, d :: c in picked && d in due && d !in picked ==> Precedes(due, syncedAt, c, d))
    && (limit.None? ==> forall d :: d in due ==> d in picked)
    && (limit.Some? ==> |picked| == Least(|due|, if limit.value > 0 then limit.value else 0))
  }

  lemma {:induction false} Ordered(due: set<Queued>, syncedAt: int, picked: seq<Queued>, i: nat, j: nat)
    requires QueueOrdered(due, syncedAt, picked) && i < |picked| && j < |picked|
    ensures i < j ==> Precedes(due, syncedAt, picked[i], picked[j])
  {}

  lemma {:induction false} PrefixFirst(due: set<Queued>, syncedAt: int, limit: Option<int>, picked: seq<Queued>,
        c: Queued, d: Queued)
    requires QueuePrefix(due, syncedAt, limit, picked) && c in picked && d in due
    ensures d in picked || Precedes(due, syncedAt, c, d)
  {}

  lemma {:induction false} PrefixKeeps(queue: seq<Queued>, n: nat, j: nat)
    requires n <= |queue| && j < |queue| && queue[j] !in queue[..n]
    ensures n <= j
  {}

  method SelectDueCandidates(rows: set<Queued>, syncedAt: int, now: int, limit: Option<int>)
      returns (picked: seq<Queued>)
    requires KeyedByHost(rows)
    ensures QueuePrefix(DueSet(rows, now), syncedAt, limit, picked)
  {
    var due := DueSet(rows, now);
    QueueOrder(due, syncedAt);
    var queue := SortSet(due, (a, b) => Precedes(due, syncedAt, a, b));
    assert QueueOrdered(due, syncedAt, queue);
    var maximum := if limit.None? then |queue| else if limit.value > 0 then limit.value else 0;
    picked := if |queue| <= maximum then queue else queue[..maximum];
    forall c, d | c in picked && d in due && d !in picked ensures Precedes(due, syncedAt, c, d) {
      var i :| 0 <= i < |picked| && picked[i] == c;
      var j :| 0 <= j < |queue| && queue[j] == d;
      assert queue[i] == c && picked == queue[..|picked|];
      PrefixKeeps(queue, |picked|, j);
    }
  }

  // ------------------------------------------------------------------ fairness

  function Picks(picked: seq<Queued>, due: set<Queued>, provider: string, tier: nat, syncedAt: int): set<Queued> {
    set c | c in Line(due, provider, tier, syncedAt) && c in picked
  }

  // The first and the last of a nonempty set in rank order.
  lemma {:induction false} FirstRanked(s: set<Queued>) returns (m: Queued)
    requires s != {} && KeyedByHost(s)
    ensures m in s && forall c :: c in s && c != m ==> RankedBefore(m, c)
  {
    m :| m in s;
    if exists c :: c in s && c != m && RankedBefore(c, m) {
      var lower := set c | c in s && RankedBefore(c, m);
      RankedOrder(m, m, m);
      assert m !in lower && lower < s;
      var c :| c in s && c != m && RankedBefore(c, m);
      assert c in lower;
      var n := FirstRanked(lower);
      forall c | c in s && c != n ensures RankedBefore(n, c) {
        if c !in lower { RankedOrder(m, c, n); RankedOrder(n, m, c); }
      }
      m := n;
    } else {
      forall c | c in s && c != m ensures RankedBefore(m, c) { RankedOrder(m, c, m); }
    }
  }

  lemma {:induction false} LastRanked(s: set<Queued>) returns (m: Queued)
    requires s != {} && KeyedByHost(s)
    ensures m in s && forall c :: c in s && c != m ==> RankedBefore(c, m)
  {
    m :| m in s;
    if exists c :: c in s && c != m && RankedBefore(m, c) {
      var upper := set c | c in s && RankedBefore(m, c);
      RankedOrder(m, m, m);
      assert m !in upper && upper < s;
      var c :| c in s && c != m && RankedBefore(m, c);
      assert c in upper;
      var n := LastRanked(upper);
      forall c | c in s && c != n ensures RankedBefore(c, n) {
        if c !in upper { RankedOrder(m, c, n); RankedOrder(c, m, n); }
      }
      m := n;
    } else {
      forall c | c in s && c != m ensures RankedBefore(c, m) { RankedOrder(m, c, m); }
    }
  }

  // The first candidate a line still waits with stands right behind its picks.
  lemma {:induction false} FirstWaiting(due: set<Queued>, picked: seq<Queued>, provider: string, tier: nat,
        syncedAt: int) returns (e: Queued)
    requires KeyedByHost(due) && !(forall c :: c in Line(due, provider, tier, syncedAt) ==> c in picked)
    ensures e in Line(due, provider, tier, syncedAt) && e !in picked
    ensures Rank(due, e, syncedAt) <= |Picks(picked, due, provider, tier, syncedAt)| + 1
  {
    var waiting := set c | c in Line(due, provider, tier, syncedAt) && c !in picked;
    assert waiting != {} by {
      var c :| c in Line(due, provider, tier, syncedAt) && c !in picked;
      assert c in waiting;
    }
    e := FirstRanked(waiting);
    var picks := Picks(picked, due, provider, tier, syncedAt);
    forall c | c in Ahead(due, e, syncedAt) ensures c in picks {
      RankedOrder(c, e, c);
      RankedOrder(c, c, c);
      assert c in Line(due, provider, tier, syncedAt);
    }
    SubsetSize(Ahead(due, e, syncedAt), picks);
  }

  // The last pick of a line has all its other picks ahead of it.
  lemma {:induction false} LastPick(due: set<Queued>, picked: seq<Queued>, provider: string, tier: nat,
        syncedAt: int) returns (m: Queued)
    requires KeyedByHost(due) && Picks(picked, due, provider, tier, syncedAt) != {}
    ensures m in Picks(picked, due, provider, tier, syncedAt)
    ensures Rank(due, m, syncedAt) >= |Picks(picked, due, provider, tier, syncedAt)|
  {
    var picks := Picks(picked, due, provider, tier, syncedAt);
    m := LastRanked(picks);
    forall c | c in picks - {m} ensures c in Ahead(due, m, syncedAt) {}
    SubsetSize(picks - {m}, Ahead(due, m, syncedAt));
  }

  // Within a tier, a provider with candidates left over is at most one pick
  // behind any other provider; so two such providers differ by at most one.
  lemma {:induction false} ProvidersTakeTurns(due: set<Queued>, syncedAt: int, limit: Option<int>,
        picked: seq<Queued>, tier: nat, p: string, q: string)
    requires KeyedByHost(due) && QueuePrefix(due, syncedAt, limit, picked)
    requires !(forall c :: c in Line(due, p, tier, syncedAt) ==> c in picked)
    ensures |Picks(picked, due, q, tier, syncedAt)| <= |Picks(picked, due, p, tier, syncedAt)| + 1
  {
    var e := FirstWaiting(due, picked, p, tier, syncedAt);
    if Picks(picked, due, q, tier, syncedAt) != {} {
      var m := LastPick(due, picked, q, tier, syncedAt);
      PrefixFirst(due, syncedAt, limit, picked, m, e);
    }
  }

  // No pick of a higher tier number is made while one of a lower waits, and
  // picks come in tier order.
  lemma {:induction false} LowerTiersFirst(due: set<Queued>, syncedAt: int, limit: Option<int>, picked: seq<Queued>,
        i: nat, d: Queued)
    requires QueuePrefix(due, syncedAt, limit, picked) && i < |picked| && d in due
    requires QueueTier(d, syncedAt) < QueueTier(picked[i], syncedAt)
    ensures exists j :: 0 <= j < i && picked[j] == d
  {
    PrefixFirst(due, syncedAt, limit, picked, picked[i], d);
    var j :| 0 <= j < |picked| && picked[j] == d;
    Ordered(due, syncedAt, picked, i, j);
  }

  // Within one line the earlier-ranked candidate is picked first.
  lemma {:induction false} LinesKeepOrder(due: set<Queued>, syncedAt: int, limit: Option<int>, picked: seq<Queued>,
        i: nat, d: Queued)
    requires QueuePrefix(due, syncedAt, limit, picked) && i < |picked| && d in due && KeyedByHost(due)
    requires SameLine(d, picked[i], syncedAt) && RankedBefore(d, picked[i])
    ensures exists j :: 0 <= j < i && picked[j] == d
  {
    var c := picked[i];
    assert c in picked && c in due;
    RankedOrder(d, c, d);
    assert d in Ahead(due, c, syncedAt) && d !in Ahead(due, d, syncedAt) by { RankedOrder(d, d, d); }
    forall x | x in Ahead(due, d, syncedAt) ensures x in Ahead(due, c, syncedAt) - {d} { RankedOrder(x, d, c); }
    SubsetSize(Ahead(due, d, syncedAt), Ahead(due, c, syncedAt) - {d});
    assert Precedes(due, syncedAt, d, c) && !Precedes(due, syncedAt, c, d);
    PrefixFirst(due, syncedAt, limit, picked, c, d);
    var j :| 0 <= j < |picked| && picked[j] == d;
    Ordered(due, syncedAt, picked, i, j);
  }
}
