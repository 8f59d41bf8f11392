// Text, ordering and small collection helpers shared by the other modules.
// Strings are compared as SQLite and Python compare them, by code point.
module Text {

  datatype Option<+T> = None | Some(value: T)

  datatype Result<+T, +E> = Ok(value: T) | Err(error: E)

  // ---------------------------------------------------------------- ordering

  predicate Less(a: string, b: string) {
    b != [] && (a == [] || a[0] < b[0] || (a[0] == b[0] && Less(a[1..], b[1..])))
  }

  lemma {:induction false} LessIrreflexive(a: string)
    ensures !Less(a, a)
  {
    if a != [] { LessIrreflexive(a[1..]); }
  }

  lemma {:induction false} LessTransitive(a: string, b: string, c: string)
    requires Less(a, b) && Less(b, c)
    ensures Less(a, c)
  {
    if a != [] && a[0] == b[0] && b[0] == c[0] { LessTransitive(a[1..], b[1..], c[1..]); }
  }

  lemma {:induction false} LessTotal(a: string, b: string)
    ensures Less(a, b) || a == b || Less(b, a)
  {
    if a != [] && b != [] && a[0] == b[0] {
      LessTotal(a[1..], b[1..]);
      assert a == [a[0]] + a[1..] && b == [b[0]] + b[1..];
    }
  }

  ghost predicate StrictlySorted(names: seq<string>) {
    forall i, j :: 0 <= i < j < |names| ==> Less(names[i], names[j])
  }

  lemma {:induction false} StrictlySortedDistinct(names: seq<string>, i: nat, j: nat)
    requires StrictlySorted(names) && i < |names| && j < |names| && names[i] == names[j]
    ensures i == j
  {
    LessIrreflexive(names[i]);
  }

  // Python's sorted(set(...)) on strings.
  function InsertName(x: string, names: seq<string>): (r: seq<string>)
    requires StrictlySorted(names)
    ensures StrictlySorted(r)
    ensures forall y :: y in r <==> y == x || y in names
  {
    if names == [] then [x]
    else if x == names[0] then names
    else if Less(x, names[0]) then
      assert forall j :: 0 < j < |names| ==> Less(x, names[j]) by {
        forall j | 0 < j < |names| ensures Less(x, names[j]) { LessTransitive(x, names[0], names[j]); }
      }
      [x] + names
    else
      var rest := InsertName(x, names[1..]);
      assert forall y :: y in rest ==> Less(names[0], y) by { LessTotal(x, names[0]); }
      assert forall y :: y in names <==> y == names[0] || y in names[1..] by {
        assert names == [names[0]] + names[1..];
      }
      [names[0]] + rest
  }

  function SortUnique(xs: seq<string>): (r: seq<string>)
    ensures StrictlySorted(r)
    ensures forall y :: y in r <==> y in xs
  {
    if xs == [] then [] else
      assert xs == [xs[0]] + xs[1..];
      InsertName(xs[0], SortUnique(xs[1..]))
  }

  // ------------------------------------------------------- ORDER BY on a set

  ghost predicate StrictTotal<T(!new)>(s: set<T>, before: (T, T) -> bool) {
    && (forall x, y :: x in s && y in s && x != y ==> before(x, y) || before(y, x))
    && (forall x, y, z :: x in s && y in s && z in s && before(x, y) && before(y, z) ==> before(x, z))
  }

  predicate OrderedBy<T>(r: seq<T>, before: (T, T) -> bool) {
    forall i, j :: 0 <= i < j < |r| ==> before(r[i], r[j])
  }

  // Putting `x` where the order wants it.
  lemma {:induction false} Placed<T(!new)>(s: set<T>, before: (T, T) -> bool, r: seq<T>, i: nat, x: T)
    requires StrictTotal(s, before) && OrderedBy(r, before) && i <= |r| && x in s && x !in r
    requires (forall y :: y in r ==> y in s) && (forall k :: 0 <= k < i ==> before(r[k], x))
    requires i < |r| ==> !before(r[i], x)
    ensures OrderedBy(r[..i] + [x] + r[i..], before)
    ensures forall y :: y in r[..i] + [x] + r[i..] <==> y in r || y == x
  {}

  // The rows of a table in the order a query asks for.
  method SortSet<T(==, !new)>(s: set<T>, before: (T, T) -> bool) returns (r: seq<T>)
    requires StrictTotal(s, before)
    ensures OrderedBy(r, before)
    ensures forall x :: x in r <==> x in s
    ensures |r| == |s|
  {
    r := [];
    var rest := s;
    while rest != {}
      invariant rest <= s && OrderedBy(r, before) && |r| + |rest| == |s|
      invariant forall x :: x in r <==> x in s && x !in rest
      decreases rest
    {
      var x :| x in rest;
      var i := 0;
      while i < |r| && before(r[i], x)
        invariant 0 <= i <= |r|
        invariant forall k :: 0 <= k < i ==> before(r[k], x)
      {
        i := i + 1;
      }
      Placed(s, before, r, i, x);
      r := r[..i] + [x] + r[i..];
      rest := rest - {x};
    }
  }

  // -------------------------------------------------------- string clean-up

  // The ASCII part of str.strip(), str.lower(), str.strip(".") and
  // str.rstrip(".").
  datatype Trim = Spaces | Dots

  predicate Drops(trim: Trim, c: char) {
    match trim
    case Spaces => c == ' ' || '\t' <= c <= '\r' || '\U{1C}' <= c <= '\U{1F}'
    case Dots => c == '.'
  }

  function TrimLeft(s: string, trim: Trim): string {
    if s != [] && Drops(trim, s[0]) then TrimLeft(s[1..], trim) else s
  }

  function TrimRight(s: string, trim: Trim): string {
    if s != [] && Drops(trim, s[|s| - 1]) then TrimRight(s[..|s| - 1], trim) else s
  }

  lemma {:induction false} TrimmedEnd(s: string, trim: Trim)
    ensures var t := TrimRight(s, trim); t != "" ==> !Drops(trim, t[|t| - 1])
  {
    if s != "" && Drops(trim, s[|s| - 1]) { TrimmedEnd(s[..|s| - 1], trim); }
  }

  function Strip(s: string): string { TrimRight(TrimLeft(s, Spaces), Spaces) }

  function LowerChar(c: char): char {
    if 'A' <= c <= 'Z' then (c as int + 32) as char else c
  }

  function Lower(s: string): string
  {
    if s == [] then [] else [LowerChar(s[0])] + Lower(s[1..])
  }

  // str(value).strip().lower().rstrip(".")
  function PlainName(s: string): string { TrimRight(Lower(Strip(s)), Dots) }

  lemma {:induction false} TrimShortens(s: string, trim: Trim)
    ensures |TrimLeft(s, trim)| <= |s| && |TrimRight(s, trim)| <= |s|
    ensures |TrimLeft(s, trim)| == |s| ==> TrimLeft(s, trim) == s
    ensures |TrimRight(s, trim)| == |s| ==> TrimRight(s, trim) == s
  {
    if s != [] {
      TrimShortens(s[1..], trim);
      TrimShortens(s[..|s| - 1], trim);
    }
  }

  lemma {:induction false} LowerIs(s: string)
    ensures |Lower(s)| == |s| && forall i :: 0 <= i < |s| ==> Lower(s)[i] == LowerChar(s[i])
  {
    if s != [] { LowerIs(s[1..]); }
  }

  // What lowering does not change: which characters are trimmed.
  lemma {:induction false} LowerUntrimmed(s: string)
    requires TrimLeft(s, Spaces) == s && TrimRight(s, Spaces) == s && TrimRight(Lower(s), Dots) == Lower(s)
    ensures PlainName(Lower(s)) == Lower(s)
  {
    LowerIs(s);
    LowerIs(Lower(s));
    var l := Lower(s);
    assert Lower(l) == l;
    if s != [] {
      TrimShortens(s[1..], Spaces);
      TrimShortens(s[..|s| - 1], Spaces);
      assert !Drops(Spaces, s[0]) && !Drops(Spaces, s[|s| - 1]);
      assert !Drops(Spaces, l[0]) && !Drops(Spaces, l[|l| - 1]);
    }
    assert TrimLeft(l, Spaces) == l && TrimRight(l, Spaces) == l;
  }

  // A name whose plain form is not plain is longer than it.
  lemma {:induction false} PlainOrShorter(s: string)
    ensures |PlainName(s)| < |s| || PlainName(PlainName(s)) == PlainName(s)
  {
    var left := TrimLeft(s, Spaces);
    var lower := Lower(Strip(s));
    TrimShortens(s, Spaces);
    TrimShortens(left, Spaces);
    LowerIs(Strip(s));
    TrimShortens(lower, Dots);
    if |PlainName(s)| == |s| { LowerUntrimmed(s); }
  }

  // ------------------------------------------------------------- finite sets

  lemma {:induction false} SubsetSize<T>(a: set<T>, b: set<T>)
    requires a <= b
    ensures |a| <= |b|
  {
    if a != {} {
      var x :| x in a;
      SubsetSize(a - {x}, b - {x});
    }
  }

  lemma {:induction false} Inhabited(s: set<int>)
    requires |s| > 0
    ensures exists x :: x in s
  {
    assert (forall x :: x !in s) ==> s == {};
  }

  // The least and greatest element of a set of integers, as SELECT MIN(...)
  // and SELECT MAX(...) give them.
  ghost function Min(s: set<int>): (m: int)
    requires |s| > 0
    ensures m in s
    ensures forall x :: x in s ==> m <= x
  {
    Inhabited(s);
    var x :| x in s;
    var smaller := set y | y in s && y < x;
    if smaller == {} then
      assert forall z :: z in s && z !in smaller ==> x <= z;
      x
    else
      assert smaller < s by { assert x in s && x !in smaller; }
      assert forall z :: z in s && z !in smaller ==> x <= z;
      Min(smaller)
  }

  ghost function Max(s: set<int>): (m: int)
    requires |s| > 0
    ensures m in s
    ensures forall x :: x in s ==> x <= m
  {
    Inhabited(s);
    var x :| x in s;
    var larger := set y | y in s && x < y;
    if larger == {} then
      assert forall z :: z in s && z !in larger ==> z <= x;
      x
    else
      assert larger < s by { assert x in s && x !in larger; }
      assert forall z :: z in s && z !in larger ==> z <= x;
      Max(larger)
  }
}
