// The thread-shared limiter of the sweep: reserved start times and adaptive
// per-authority delays, over any interleaving of its two locked sections.
module Limiter {
  import opened Text

  // ------------------------------------------------------- the abstract state

  datatype Limits = Limits(
    globalDelay: real, base: real, maximum: real,
    globalNext: real, next: map<string, real>, delays: map<string, real>)

  function AtLeast(a: real, b: real): real { if a >= b then a else b }
  function AtMost(a: real, b: real): real { if a <= b then a else b }

  function Entry(table: map<string, real>, key: string, missing: real): real {
    if key in table then table[key] else missing
  }

  function Next(l: Limits, key: string): real { Entry(l.next, key, 0.0) }

  function Delay(l: Limits, key: string): real { Entry(l.delays, key, l.base) }

  predicate Overloads(status: Option<int>) { status == Some(429) || status == Some(503) }

  function Keys(authorities: set<string>): set<string> { if authorities == {} then {"unknown"} else authorities }

  // The greatest of a floor and the keys' reservations.
  ghost predicate IsLatest(floor: real, next: map<string, real>, keys: set<string>, at: real) {
    && floor <= at && (forall k :: k in keys ==> Entry(next, k, 0.0) <= at)
    && (at == floor || exists k :: k in keys && at == Entry(next, k, 0.0))
  }

  // The start time: the least that respects the clock and every reservation.
  ghost predicate IsStart(l: Limits, keys: set<string>, now: real, at: real) {
    IsLatest(AtLeast(now, l.globalNext), l.next, keys, at)
  }

  function Reservations(next: map<string, real>, delays: map<string, real>, base: real, keys: set<string>,
        at: real): map<string, real> {
    next + map k | k in keys :: at + Entry(delays, k, base)
  }

  function Reserve(l: Limits, keys: set<string>, at: real): Limits {
    l.(globalNext := at + l.globalDelay, next := Reservations(l.next, l.delays, l.base, keys, at))
  }

  function Adapt(base: real, maximum: real, delay: real, overloaded: bool): real {
    if overloaded then AtMost(maximum, AtLeast(base, delay * 2.0))
    else if delay > base then AtLeast(base, delay * 0.75)
    else delay
  }

  function Noted(base: real, maximum: real, delays: map<string, real>, keys: set<string>,
        overloaded: bool): map<string, real> {
    delays + map k | k in keys && (overloaded || Entry(delays, k, base) > base) ::
      Adapt(base, maximum, Entry(delays, k, base), overloaded)
  }

  function Note(l: Limits, keys: set<string>, overloaded: bool): Limits {
    l.(delays := Noted(l.base, l.maximum, l.delays, keys, overloaded))
  }

  // ---------------------------------------------------------------- the class

  class AdaptiveAuthorityLimiter {
    const globalDelay: real
    const base: real
    const maximum: real
    var globalNext: real
    var next: map<string, real>
    var delays: map<string, real>

    function Model(): Limits
      reads this
    {
      Limits(globalDelay, base, maximum, globalNext, next, delays)
    }

    constructor (minDelayMs: int, authorityDelayMs: int, maxAuthorityDelayMs: int)
      ensures Fresh(Model())
      ensures globalDelay == AtLeast(0.0, minDelayMs as real / 1000.0)
      ensures base == AtLeast(0.0, authorityDelayMs as real / 1000.0)
      ensures maximum == AtLeast(base, maxAuthorityDelayMs as real / 1000.0)
    {
      globalDelay := (if minDelayMs > 0 then minDelayMs else 0) as real / 1000.0;
      var least := (if authorityDelayMs > 0 then authorityDelayMs else 0) as real / 1000.0;
      base, maximum := least, AtLeast(least, maxAuthorityDelayMs as real / 1000.0);
      globalNext, next, delays := 0.0, map[], map[];
    }

    // The locked part of wait; the caller then sleeps until `at`.
    method Wait(authorities: set<string>, now: real) returns (at: real)
      modifies this`globalNext, this`next
      ensures var keys := if authorities == {} then {"unknown"} else authorities;
        IsStart(old(Model()), keys, now, at) && Model() == Reserve(old(Model()), keys, at)
    {
      var keys := Keys(authorities);
      at := Latest(AtLeast(now, globalNext), next, keys);
      globalNext := at + globalDelay;
      next := Reservations(next, delays, base, keys, at);
    }

    // A result is overloaded if one of its two status codes says so.
    method Record(authorities: set<string>, httpStatus: Option<int>, httpsStatus: Option<int>)
      modifies this`delays
      ensures var keys := if authorities == {} then {"unknown"} else authorities;
        var overloaded := {Some(429), Some(503)} * {httpStatus, httpsStatus} != {};
        Model() == Note(old(Model()), keys, overloaded)
    {
      var overloaded := Overloads(httpStatus) || Overloads(httpsStatus);
      assert overloaded <==> {Some(429), Some(503)} * {httpStatus, httpsStatus} != {} by {
        var both := {Some(429), Some(503)} * {httpStatus, httpsStatus};
        assert overloaded ==> (if Overloads(httpStatus) then httpStatus else httpsStatus) in both;
      }
      delays := AdaptAll(base, maximum, delays, Keys(authorities), overloaded);
    }
  }

  // The loop of record under the lock.
  method AdaptAll(base: real, maximum: real, delays: map<string, real>, keys: set<string>, overloaded: bool)
      returns (next: map<string, real>)
    ensures next == Noted(base, maximum, delays, keys, overloaded)
  {
    var rest := keys;
    next := delays;
    assert next == Noted(base, maximum, delays, {}, overloaded);
    while rest != {}
      invariant rest <= keys && next == Noted(base, maximum, delays, keys - rest, overloaded)
      decreases rest
    {
      var k :| k in rest;
      RecordOneMore(base, maximum, delays, next, keys - rest, k, overloaded);
      assert keys - (rest - {k}) == keys - rest + {k};
      next := AdaptOne(base, maximum, next, k, overloaded);
      rest := rest - {k};
    }
    assert keys - rest == keys;
  }

  method AdaptOne(base: real, maximum: real, delays: map<string, real>, k: string,
        overloaded: bool) returns (next: map<string, real>)
    ensures next == AdaptedAt(base, maximum, delays, k, overloaded)
  {
    next := delays;
    var current := Entry(delays, k, base);
    if overloaded {
      next := next[k := AtMost(maximum, AtLeast(base, current * 2.0))];
    } else if current > base {
      next := next[k := AtLeast(base, current * 0.75)];
    }
  }

  function AdaptedAt(base: real, maximum: real, delays: map<string, real>, k: string,
        overloaded: bool): map<string, real> {
    if overloaded || Entry(delays, k, base) > base then
      delays[k := Adapt(base, maximum, Entry(delays, k, base), overloaded)]
    else
      delays
  }

  // The generator inside wait's max().
  method Latest(floor: real, next: map<string, real>, keys: set<string>) returns (at: real)
    ensures IsLatest(floor, next, keys, at)
  {
    var rest := keys;
    at := floor;
    while rest != {}
      invariant rest <= keys && floor <= at
      invariant forall k :: k in keys - rest ==> Entry(next, k, 0.0) <= at
      invariant at == floor || exists k :: k in keys && at == Entry(next, k, 0.0)
      decreases rest
    {
      var k :| k in rest;
      at := AtLeast(at, Entry(next, k, 0.0));
      rest := rest - {k};
    }
  }

  lemma {:induction false} RecordOneMore(base: real, maximum: real, before: map<string, real>,
        delays: map<string, real>, seen: set<string>,
        k: string, overloaded: bool)
    requires delays == Noted(base, maximum, before, seen, overloaded) && k !in seen
    ensures Noted(base, maximum, before, seen + {k}, overloaded) == AdaptedAt(base, maximum, delays, k, overloaded)
  {}

  // --------------------------------------------------------------------- runs

  // The locked sections in the order they run: a wait that got the start time
  // `at`, or a recorded outcome.
  datatype Event = Start(keys: set<string>, now: real, at: real) | Outcome(keys: set<string>, overloaded: bool)

  function After(l: Limits, e: Event): Limits {
    match e
    case Start(keys, _, at) => Reserve(l, keys, at)
    case Outcome(keys, overloaded) => Note(l, keys, overloaded)
  }

  function Run(l: Limits, events: seq<Event>): Limits {
    if events == [] then l else After(Run(l, events[..|events| - 1]), events[|events| - 1])
  }

  ghost predicate Legal(l: Limits, events: seq<Event>) {
    forall i :: 0 <= i < |events| ==> LegalAt(l, events, i)
  }

  ghost predicate LegalAt(l: Limits, events: seq<Event>, i: nat)
    requires i < |events|
  {
    events[i].Start? ==> IsStart(Run(l, events[..i]), events[i].keys, events[i].now, events[i].at)
  }

  ghost predicate Fresh(l: Limits) {
    0.0 <= l.globalDelay && 0.0 <= l.base <= l.maximum && l.globalNext == 0.0 && l.next == map[] && l.delays == map[]
  }

  // Settings never change and every delay lies between base and maximum.
  ghost predicate Bounded(l: Limits, init: Limits) {
    && l.globalDelay == init.globalDelay && l.base == init.base && l.maximum == init.maximum
    && forall k :: l.base <= Delay(l, k) <= l.maximum
  }

  lemma {:induction false} AdaptBounded(base: real, maximum: real, delay: real, overloaded: bool)
    requires 0.0 <= base <= delay <= maximum
    ensures base <= Adapt(base, maximum, delay, overloaded) <= maximum
  {}

  lemma {:induction false} AfterDelay(l: Limits, e: Event, key: string)
    ensures Delay(After(l, e), key)
         == if e.Outcome? && key in e.keys then Adapt(l.base, l.maximum, Delay(l, key), e.overloaded) else Delay(l, key)
  {}

  lemma {:induction false} DelaysStayBounded(init: Limits, events: seq<Event>)
    requires Fresh(init)
    ensures Bounded(Run(init, events), init)
    decreases |events|
  {
    if events != [] {
      var before, last := Run(init, events[..|events| - 1]), events[|events| - 1];
      DelaysStayBounded(init, events[..|events| - 1]);
      forall k: string ensures init.base <= Delay(After(before, last), k) <= init.maximum {
        AfterDelay(before, last, k);
        AdaptBounded(before.base, before.maximum, Delay(before, k), last.Outcome? && last.overloaded);
      }
    }
  }

  // ------------------------------------------------------------------ spacing

  // A start reserves the global delay and each of its authorities' delays.
  ghost predicate Reserved(l: Limits, keys: set<string>, at: real, global: real, delays: map<string, real>) {
    l.globalNext >= at + global && forall k :: k in keys && k in delays ==> Next(l, k) >= at + delays[k]
  }

  function DelaysOf(l: Limits, keys: set<string>): map<string, real> { map k | k in keys :: Delay(l, k) }

  lemma {:induction false} ReservationKept(l: Limits, init: Limits, e: Event, keys: set<string>, at: real,
        delays: map<string, real>)
    requires Bounded(l, init) && 0.0 <= init.globalDelay && 0.0 <= init.base
    requires Reserved(l, keys, at, init.globalDelay, delays)
    requires e.Start? ==> IsStart(l, e.keys, e.now, e.at)
    ensures Reserved(After(l, e), keys, at, init.globalDelay, delays)
  {
    if e.Start? {
      forall k | k in keys && k in delays ensures Next(After(l, e), k) >= at + delays[k] {
        assert l.base <= Delay(l, k);
        if k in e.keys { assert Next(l, k) <= e.at; }
      }
    }
  }

  lemma {:induction false} ReservationHolds(init: Limits, events: seq<Event>, i: nat, n: nat)
    requires Fresh(init) && Legal(init, events) && i < n <= |events| && events[i].Start?
    ensures Reserved(Run(init, events[..n]), events[i].keys, events[i].at, init.globalDelay,
                     DelaysOf(Run(init, events[..i]), events[i].keys))
    decreases n
  {
    assert events[..n][..n - 1] == events[..n - 1];
    DelaysStayBounded(init, events[..n - 1]);
    if i < n - 1 {
      ReservationHolds(init, events, i, n - 1);
      assert LegalAt(init, events, n - 1);
      ReservationKept(Run(init, events[..n - 1]), init, events[n - 1], events[i].keys, events[i].at,
                      DelaysOf(Run(init, events[..i]), events[i].keys));
    }
  }

  // Over any interleaving and any clock, a start comes the global delay or more
  // after each earlier one, and after one that shares an authority the delay
  // that authority had then.
  lemma {:induction false} StartsAreSpaced(init: Limits, events: seq<Event>, i: nat, j: nat)
    requires Fresh(init) && Legal(init, events) && i < j < |events| && events[i].Start? && events[j].Start?
    ensures events[j].at >= events[i].at + init.globalDelay
    ensures forall k :: k in events[i].keys && k in events[j].keys ==>
      events[j].at >= events[i].at + Delay(Run(init, events[..i]), k)
  {
    ReservationHolds(init, events, i, j);
    assert LegalAt(init, events, j);
  }

  // No start is later than the clock and the reservations before it require.
  lemma {:induction false} StartIsLeast(l: Limits, keys: set<string>, now: real, at: real, other: real)
    requires IsStart(l, keys, now, at)
    requires now <= other && l.globalNext <= other && forall k :: k in keys ==> Next(l, k) <= other
    ensures at <= other
  {}

  // -------------------------------------------------------- delays by history

  function OutcomesOf(events: seq<Event>, key: string): seq<bool> {
    if events == [] then []
    else
      var last := events[|events| - 1];
      OutcomesOf(events[..|events| - 1], key) + (if last.Outcome? && key in last.keys then [last.overloaded] else [])
  }

  function Adapted(l: Limits, delay: real, outcomes: seq<bool>): real {
    if outcomes == [] then delay
    else Adapt(l.base, l.maximum, Adapted(l, delay, outcomes[..|outcomes| - 1]), outcomes[|outcomes| - 1])
  }

  // An authority's delay depends on its own outcomes and on nothing else.
  lemma {:induction false} DelayIsItsHistory(init: Limits, events: seq<Event>, key: string)
    requires Fresh(init)
    ensures Delay(Run(init, events), key) == Adapted(init, init.base, OutcomesOf(events, key))
    decreases |events|
  {
    if events != [] {
      var before, last := events[..|events| - 1], events[|events| - 1];
      DelayIsItsHistory(init, before, key);
      DelaysStayBounded(init, before);
      var past := OutcomesOf(before, key);
      AfterDelay(Run(init, before), last, key);
      if last.Outcome? && key in last.keys {
        assert (past + [last.overloaded])[..|past|] == past;
      } else {
        assert past + [] == past;
      }
    }
  }

  // x times the n-th power of a factor.
  function Scaled(x: real, factor: real, n: nat): real {
    if n == 0 then x else factor * Scaled(x, factor, n - 1)
  }

  function Repeat(b: bool, n: nat): seq<bool> { if n == 0 then [] else Repeat(b, n - 1) + [b] }

  lemma {:induction false} AdaptLast(l: Limits, delay: real, overloaded: bool, n: nat)
    requires n > 0
    ensures Adapted(l, delay, Repeat(overloaded, n))
         == Adapt(l.base, l.maximum, Adapted(l, delay, Repeat(overloaded, n - 1)), overloaded)
  {}

  // `n` overloads in a row from base double the delay `n` times, up to maximum.
  lemma {:induction false} OverloadsDouble(l: Limits, n: nat)
    requires 0.0 <= l.base <= l.maximum
    ensures Adapted(l, l.base, Repeat(true, n)) == AtMost(l.maximum, Scaled(l.base, 2.0, n))
    ensures Scaled(l.base, 2.0, n) >= l.base
  {
    if n > 0 {
      OverloadsDouble(l, n - 1);
      AdaptLast(l, l.base, true, n);
      DoubleOnce(l.base, l.maximum, Scaled(l.base, 2.0, n - 1));
    }
  }

  lemma {:induction false} DoubleOnce(base: real, maximum: real, p: real)
    requires 0.0 <= base <= maximum && base <= p
    ensures Adapt(base, maximum, AtMost(maximum, p), true) == AtMost(maximum, 2.0 * p)
  {}

  // `n` quiet outcomes in a row take a quarter off each time, down to base.
  lemma {:induction false} QuietRecovers(l: Limits, delay: real, n: nat)
    requires 0.0 <= l.base <= delay
    ensures Adapted(l, delay, Repeat(false, n)) == AtLeast(l.base, Scaled(delay, 0.75, n))
    ensures Scaled(delay, 0.75, n) >= 0.0
  {
    if n > 0 {
      QuietRecovers(l, delay, n - 1);
      AdaptLast(l, delay, false, n);
      QuietOnce(l.base, l.maximum, Scaled(delay, 0.75, n - 1));
    }
  }

  lemma {:induction false} QuietOnce(base: real, maximum: real, p: real)
    requires 0.0 <= base && 0.0 <= p
    ensures Adapt(base, maximum, AtLeast(base, p), false) == AtLeast(base, 0.75 * p)
  {}

  // Overloads slow an authority down exactly if its base delay is not zero and
  // is below the maximum: a base delay of zero never backs off.
  lemma {:induction false} BacksOffIff(l: Limits, n: nat)
    requires 0.0 <= l.base <= l.maximum && n > 0
    ensures Adapted(l, l.base, Repeat(true, n)) > l.base <==> 0.0 < l.base < l.maximum
  {
    OverloadsDouble(l, n - 1);
    OverloadsDouble(l, n);
    if l.base == 0.0 { ScaledZero(n); }
  }

  lemma {:induction false} ScaledZero(n: nat)
    ensures Scaled(0.0, 2.0, n) == 0.0
  {
    if n > 0 { ScaledZero(n - 1); }
  }
}
