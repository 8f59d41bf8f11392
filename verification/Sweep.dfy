// The broad sweep's data: topology rows by tier, coverage rows, authority
// health, cursors; and the pure tests selection makes on them.
module Sweep {
  import opened Text

  const UNKNOWN_AUTHORITY_SAMPLES: nat := 3

  datatype Tier = DsBootstrap | Bootstrap | DsDelegated | Delegated

  // A topology row; `eligible` is the part of the WHERE clause all tiers share
  // (not expired, provider type actionable), `bootstrap` its actionable
  // bootstrap addresses.
  datatype Root = Root(
    name: string, resourceHash: string, eligible: bool,
    hasDs: bool, hasNs: bool, hasGlue: bool, hasSynth: bool,
    bootstrap: seq<string>, nsNames: seq<string>, provider: string)

  predicate InTier(tier: Tier, r: Root) {
    r.eligible && match tier
    case DsBootstrap => r.hasDs && (r.hasSynth || r.hasGlue)
    case Bootstrap => !r.hasDs && (r.hasSynth || r.hasGlue)
    case DsDelegated => r.hasDs && r.hasNs && !r.hasSynth && !r.hasGlue
    case Delegated => !r.hasDs && r.hasNs && !r.hasSynth && !r.hasGlue
  }

  ghost predicate SortedTopology(rows: seq<Root>) {
    forall i, j {:trigger Less(rows[i].name, rows[j].name)} :: 0 <= i < j < |rows| ==> Less(rows[i].name, rows[j].name)
  }

  // ------------------------------------------------------------ stored rows

  datatype Coverage = Coverage(
    resourceHash: string, signalTier: Tier, outcome: string, category: string,
    checkedAt: int, nextCheckAt: int, failureReason: string)

  datatype HealthState = Healthy | Unreachable | Unresolved | Transient

  datatype Health = Health(state: HealthState, failures: nat, checkedAt: int, nextProbeAt: int)

  // `notBefore` holds a tier's gate; a missing entry is the empty string, which
  // never gates.
  datatype Live = Live(
    coverage: map<string, Coverage>, health: map<string, Health>,
    cursors: map<Tier, string>, notBefore: map<Tier, int>)

  function Cursor(s: Live, tier: Tier): string { if tier in s.cursors then s.cursors[tier] else "" }

  predicate Gated(s: Live, tier: Tier, now: int) { tier in s.notBefore && s.notBefore[tier] > now }

  // ---------------------------------------------------------------- one row

  predicate Skipped(tier: Tier, r: Root) { (tier.DsBootstrap? || tier.Bootstrap?) && r.bootstrap == [] }

  predicate CoverageDue(coverage: map<string, Coverage>, r: Root, now: int) {
    r.name !in coverage || coverage[r.name].resourceHash != r.resourceHash || coverage[r.name].nextCheckAt <= now
  }

  function Prefixed(prefix: string, values: seq<string>): seq<string> {
    if values == [] then []
    else (if values[0] != "" then [prefix + values[0]] else []) + Prefixed(prefix, values[1..])
  }

  function PlainAll(values: seq<string>): seq<string> {
    if values == [] then [] else [PlainName(values[0])] + PlainAll(values[1..])
  }

  // Bootstrap addresses, else nameservers, else the provider.
  function AuthorityKeys(r: Root): seq<string> {
    if Prefixed("ip:", r.bootstrap) != [] then Prefixed("ip:", r.bootstrap)
    else if Prefixed("ns:", PlainAll(r.nsNames)) != [] then Prefixed("ns:", PlainAll(r.nsNames))
    else ["provider:" + (if r.provider == "" then "unknown" else r.provider)]
  }

  function Occurrences(keys: seq<string>, key: string): nat {
    if keys == [] then 0 else (if keys[0] == key then 1 else 0) + Occurrences(keys[1..], key)
  }

  // How often a page's probed rows name an authority.
  function PageCount(tier: Tier, page: seq<Root>, key: string): nat {
    if page == [] then 0
    else
      (if Skipped(tier, page[0]) then 0 else Occurrences(AuthorityKeys(page[0]), key))
      + PageCount(tier, page[1..], key)
  }

  function Shared(tier: Tier, page: seq<Root>, keys: seq<string>): seq<string> {
    if keys == [] then []
    else (if PageCount(tier, page, keys[0]) > 1 then [keys[0]] else []) + Shared(tier, page, keys[1..])
  }

  // authority_health_keys: a row's keys that its page names more than once.
  function HealthKeys(tier: Tier, page: seq<Root>, r: Root): seq<string> { Shared(tier, page, AuthorityKeys(r)) }

  // ------------------------------------------------------------- authorities

  datatype Authority = Ready | KnownHealthy | Unknown | Suppressed

  predicate NeedsProbe(health: map<string, Health>, key: string, now: int) {
    key !in health || health[key].nextProbeAt <= now
  }

  predicate AnyHealthy(keys: seq<string>, health: map<string, Health>) {
    keys != [] && ((keys[0] in health && health[keys[0]].state == Healthy) || AnyHealthy(keys[1..], health))
  }

  function AuthorityState(keys: seq<string>, health: map<string, Health>, now: int): Authority {
    if keys == [] then Ready
    else if AnyHealthy(keys, health) then KnownHealthy
    else if FirstNeeding(keys, health, now).Some? then Unknown
    else Suppressed
  }

  function FirstNeeding(keys: seq<string>, health: map<string, Health>, now: int): Option<string> {
    if keys == [] then None
    else if NeedsProbe(health, keys[0], now) then Some(keys[0])
    else FirstNeeding(keys[1..], health, now)
  }

  // The key an unknown candidate is sampled under.
  function SampleKey(keys: seq<string>, health: map<string, Health>, now: int): string {
    var first := FirstNeeding(keys, health, now);
    if first.Some? then first.value else if keys != [] then keys[0] else "unknown"
  }

  // ------------------------------------------------------------------ pages

  // The rows of a tier after a cursor, in name order; a page is a prefix.
  function RowsAfter(rows: seq<Root>, tier: Tier, after: string): seq<Root> {
    if rows == [] then []
    else
      (if InTier(tier, rows[0]) && Less(after, rows[0].name) then [rows[0]] else [])
      + RowsAfter(rows[1..], tier, after)
  }

  function FirstPage(rows: seq<Root>, size: nat): seq<Root> { if |rows| <= size then rows else rows[..size] }

  lemma {:induction false} RowsAfterHas(rows: seq<Root>, tier: Tier, after: string)
    requires SortedTopology(rows)
    ensures var r := RowsAfter(rows, tier, after);
      && SortedTopology(r)
      && forall x :: x in r <==> x in rows && InTier(tier, x) && Less(after, x.name)
  {
    if rows != [] {
      RowsAfterHas(rows[1..], tier, after);
      var rest := RowsAfter(rows[1..], tier, after);
      assert rows == [rows[0]] + rows[1..];
      forall x | x in rest ensures Less(rows[0].name, x.name) {
        var i :| 0 <= i < |rows[1..]| && rows[1..][i] == x;
        assert x == rows[i + 1];
      }
    }
  }

  lemma {:induction false} SameRows(a: seq<Root>, b: seq<Root>)
    requires SortedTopology(a) && SortedTopology(b) && forall x :: x in a <==> x in b
    ensures a == b
    decreases |a|
  {
    HeadIn(a);
    HeadIn(b);
    if a != [] {
      assert a[0] in b && b != [];
      if a[0] != b[0] {
        var i :| 0 < i < |b| && b[i] == a[0];
        var j :| 0 < j < |a| && a[j] == b[0];
        LessTransitive(a[0].name, b[0].name, a[0].name);
        LessIrreflexive(a[0].name);
      }
      forall x ensures x in a[1..] <==> x in b[1..] {
        DistinctTail(a, x);
        DistinctTail(b, x);
      }
      SameRows(a[1..], b[1..]);
      assert a == [a[0]] + a[1..] && b == [b[0]] + b[1..];
    }
  }

  lemma {:induction false} HeadIn(a: seq<Root>)
    ensures a != [] ==> a[0] in a
  {}

  // Where two rows stand says how their names compare.
  lemma {:induction false} TopologyOrder(topology: seq<Root>, i: nat, j: nat)
    requires SortedTopology(topology) && i < |topology| && j < |topology|
    ensures i < j ==> Less(topology[i].name, topology[j].name)
    ensures j < i ==> Less(topology[j].name, topology[i].name)
    ensures topology[i].name == topology[j].name ==> i == j
  {
    LessIrreflexive(topology[i].name);
  }

  lemma {:induction false} DistinctTail(a: seq<Root>, x: Root)
    requires SortedTopology(a) && |a| > 0
    ensures x in a[1..] <==> x in a && x != a[0]
  {
    if x in a[1..] {
      var i :| 0 <= i < |a| - 1 && a[1..][i] == x;
      assert a[i + 1] == x;
      LessIrreflexive(x.name);
    }
  }

  // Moving the cursor to a row leaves exactly the rows behind it.
  lemma {:induction false} RowsAfterRow(topology: seq<Root>, tier: Tier, after: string, j: nat)
    requires SortedTopology(topology) && j < |RowsAfter(topology, tier, after)|
    ensures var rows := RowsAfter(topology, tier, after);
      RowsAfter(topology, tier, rows[j].name) == rows[j + 1..]
  {
    var rows := RowsAfter(topology, tier, after);
    RowsAfterHas(topology, tier, after);
    RowsAfterHas(topology, tier, rows[j].name);
    var rest := RowsAfter(topology, tier, rows[j].name);
    assert rows[j] in rows;
    forall x ensures x in rest <==> x in rows[j + 1..] {
      if x in rows[j + 1..] {
        var i :| 0 <= i < |rows| - (j + 1) && rows[j + 1..][i] == x;
        assert x == rows[j + 1 + i] && x in rows;
      }
      if x in rest {
        LessTransitive(after, rows[j].name, x.name);
        assert x in rows;
        var i :| 0 <= i < |rows| && rows[i] == x;
        if i <= j {
          if i < j { LessTransitive(x.name, rows[j].name, x.name); }
          LessIrreflexive(x.name);
        }
        assert rows[j + 1..][i - (j + 1)] == x;
      }
    }
    SameRows(rest, rows[j + 1..]);
  }

  // No row is in two generic tiers.
  lemma {:induction false} TiersDisjoint(r: Root, a: Tier, b: Tier)
    requires InTier(a, r) && InTier(b, r)
    ensures a == b
  {}
}
