// What the nameserver search box looks up: the reader's normalisation of a
// query and the test it ends with.
module NameserverQuery {
  import opened Text
  import opened Fnv

  const LONGEST: nat := 253

  // String.prototype.trim (section 22.1.3.32 of ECMA-262): white space and line
  // terminators.
  predicate JsSpace(c: char) {
    || c == ' ' || '\t' <= c <= '\r' || c == '\U{A0}' || c == '\U{1680}' || '\U{2000}' <= c <= '\U{200A}'
    || c == '\U{2028}' || c == '\U{2029}' || c == '\U{202F}' || c == '\U{205F}' || c == '\U{3000}' || c == '\U{FEFF}'
  }

  function JsTrimLeft(s: string): string { if s != [] && JsSpace(s[0]) then JsTrimLeft(s[1..]) else s }

  function JsTrimRight(s: string): string {
    if s != [] && JsSpace(s[|s| - 1]) then JsTrimRight(s[..|s| - 1]) else s
  }

  // String.prototype.toLowerCase, where the result is ASCII: the capital
  // letters and the Kelvin sign. Any other character stays outside ASCII.
  function JsLowerChar(c: char): char { if c == '\U{212A}' then 'k' else LowerChar(c) }

  function JsLower(s: string): (r: string)
    ensures |r| == |s| && forall i :: 0 <= i < |s| ==> r[i] == JsLowerChar(s[i])
  {
    seq(|s|, i requires 0 <= i < |s| => JsLowerChar(s[i]))
  }

  // The first of the three prefixes that the value starts with goes.
  function WithoutScheme(s: string): string {
    if "hns://" <= s then s[|"hns://"|..]
    else if "https://" <= s then s[|"https://"|..]
    else if "http://" <= s then s[|"http://"|..]
    else s
  }

  // value.split("/", 1)[0]
  function BeforeSlash(s: string): string { if s == [] || s[0] == '/' then [] else [s[0]] + BeforeSlash(s[1..]) }

  predicate LabelChar(c: char) { 'a' <= c <= 'z' || '0' <= c <= '9' || c == '_' || c == '-' }

  // Nonempty labels of these characters between single dots, 253 in all.
  predicate Searchable(n: string) {
    && 0 < |n| <= LONGEST && n[0] != '.' && n[|n| - 1] != '.'
    && (forall i :: 0 <= i < |n| ==> LabelChar(n[i]) || n[i] == '.')
    && (forall i :: 0 < i < |n| ==> !(n[i - 1] == '.' && n[i] == '.'))
  }

  // normalizeNameserverQuery; a query that fails the test looks nothing up.
  function NormalizeNameserverQuery(query: string): Option<string> {
    var value := TrimRight(BeforeSlash(WithoutScheme(JsLower(JsTrimRight(JsTrimLeft(query))))), Dots);
    if Searchable(value) then Some(value) else None
  }

  lemma {:induction false} NoSlash(s: string)
    requires forall i :: 0 <= i < |s| ==> s[i] != '/'
    ensures BeforeSlash(s) == s
  {
    if s != [] { NoSlash(s[1..]); }
  }

  lemma {:induction false} NoScheme(n: string)
    requires Searchable(n)
    ensures WithoutScheme(n) == n
  {
    PrefixAt("hns://", n, 3);
    PrefixAt("https://", n, 5);
    PrefixAt("http://", n, 4);
  }

  lemma {:induction false} PrefixAt(prefix: string, n: string, i: nat)
    requires i < |prefix|
    ensures prefix <= n ==> i < |n| && n[i] == prefix[i]
  {}

  lemma {:induction false} NothingTrimmed(n: string)
    requires Searchable(n)
    ensures JsTrimRight(JsTrimLeft(n)) == n && TrimRight(n, Dots) == n
    ensures TrimLeft(n, Spaces) == n && TrimRight(n, Spaces) == n
  {
    assert LabelChar(n[0]) && LabelChar(n[|n| - 1]);
  }

  lemma {:induction false} NothingLowered(n: string)
    requires Searchable(n)
    ensures JsLower(n) == n
  {}

  // A name that passes the test is its own query.
  lemma {:induction false} SearchableIsQuery(n: string)
    requires Searchable(n)
    ensures NormalizeNameserverQuery(n) == Some(n)
  {
    NothingTrimmed(n);
    NothingLowered(n);
    NoScheme(n);
    NoSlash(n);
  }

  lemma {:induction false} LowerKeeps(s: string)
    requires forall i :: 0 <= i < |s| ==> LabelChar(s[i]) || s[i] == '.'
    ensures Lower(s) == s
  {
    if s != [] { LowerKeeps(s[1..]); }
  }

  // The exporter files such a name under itself, and it is ASCII.
  lemma {:induction false} SearchableIsPlain(n: string)
    requires Searchable(n)
    ensures PlainName(n) == n && Ascii(n)
  {
    NothingTrimmed(n);
    LowerKeeps(n);
  }

  // A nameserver can be looked up at all exactly if it passes the test.
  lemma {:induction false} ReachableIff(n: string)
    ensures (exists query :: NormalizeNameserverQuery(query) == Some(n)) <==> Searchable(n)
  {
    if Searchable(n) { SearchableIsQuery(n); }
  }

  // ---------------------------------------------------------- forms of a query

  lemma {:induction false} CutAtSlash(a: string, rest: string)
    requires (forall i :: 0 <= i < |a| ==> a[i] != '/') && (rest == "" || rest[0] == '/')
    ensures BeforeSlash(a + rest) == a
  {
    if a != [] {
      assert (a + rest)[1..] == a[1..] + rest;
      CutAtSlash(a[1..], rest);
    } else {
      assert a + rest == rest;
    }
  }

  lemma {:induction false} DotsGo(n: string, dots: string)
    requires Searchable(n) && forall i :: 0 <= i < |dots| ==> dots[i] == '.'
    ensures TrimRight(n + dots, Dots) == n
  {
    if dots == "" {
      assert n + dots == n;
      NothingTrimmed(n);
    } else {
      assert (n + dots)[..|n + dots| - 1] == n + dots[..|dots| - 1];
      DotsGo(n, dots[..|dots| - 1]);
    }
  }

  predicate IsScheme(s: string) { s == "" || s == "hns://" || s == "https://" || s == "http://" }

  // Dots, and then nothing or a path.
  predicate IsTail(dots: string, path: string) {
    (forall i :: 0 <= i < |dots| ==> dots[i] == '.') && (path == "" || path[0] == '/')
  }

  lemma {:induction false} SchemeGoes(scheme: string, n: string, tail: string)
    requires Searchable(n) && IsScheme(scheme) && (tail == "" || tail[0] == '.' || tail[0] == '/')
    ensures WithoutScheme(scheme + n + tail) == n + tail
  {
    assert scheme + n + tail == scheme + (n + tail);
    if scheme == "" {
      assert scheme + (n + tail) == n + tail;
      NotAScheme("hns://", n, tail, 3);
      NotAScheme("https://", n, tail, 5);
      NotAScheme("http://", n, tail, 4);
    } else {
      OneScheme(scheme, n + tail);
    }
  }

  lemma {:induction false} OneScheme(scheme: string, rest: string)
    requires IsScheme(scheme) && scheme != ""
    ensures WithoutScheme(scheme + rest) == rest
  {
    var s := scheme + rest;
    assert s[|scheme|..] == rest;
    PrefixAt("hns://", s, 1);
    PrefixAt("https://", s, 4);
    assert s[1] == scheme[1] && s[4] == scheme[4];
  }

  // A name is not taken for a scheme: it has no colon where one would stand.
  lemma {:induction false} NotAScheme(prefix: string, n: string, tail: string, colon: nat)
    requires Searchable(n) && (tail == "" || tail[0] == '.' || tail[0] == '/')
    requires colon < |prefix| && prefix[colon] == ':' && forall i :: 0 <= i < colon ==> LabelChar(prefix[i])
    ensures !(prefix <= n + tail)
  {
    var k := if |n| < colon then |n| else colon;
    PrefixAt(prefix, n + tail, k);
    assert k < |n + tail| ==> (n + tail)[k] == if k < |n| then n[k] else tail[0];
  }

  // A scheme, capital letters, dots at the end and a path change nothing: they
  // all look up the name.
  lemma {:induction false} QueryForms(query: string, scheme: string, n: string, dots: string, path: string)
    requires Searchable(n) && IsScheme(scheme) && IsTail(dots, path)
    requires JsLower(JsTrimRight(JsTrimLeft(query))) == scheme + n + (dots + path)
    ensures NormalizeNameserverQuery(query) == Some(n)
  {
    assert WithoutScheme(scheme + n + (dots + path)) == (n + dots) + path by {
      SchemeGoes(scheme, n, dots + path);
      assert n + (dots + path) == (n + dots) + path;
    }
    assert BeforeSlash((n + dots) + path) == n + dots by { CutAtSlash(n + dots, path); }
    DotsGo(n, dots);
  }

  // ------------------------------------------------------------- its pattern

  lemma {:induction false} SpacesAre(c: char)
    ensures JsSpace(c) <==> c as int in {9, 10, 11, 12, 13, 32, 160, 5760, 8192, 8193, 8194, 8195, 8196, 8197, 8198,
                                         8199, 8200, 8201, 8202, 8232, 8233, 8239, 8287, 12288, 65279}
  {}

  lemma {:induction false} LabelCharsAre(c: char)
    ensures LabelChar(c) <==> c in "abcdefghijklmnopqrstuvwxyz0123456789_-"
  {}

  predicate IsLabel(s: string) { |s| > 0 && forall i :: 0 <= i < |s| ==> LabelChar(s[i]) }

  function Joined(labels: seq<string>): string {
    if |labels| == 0 then "" else if |labels| == 1 then labels[0] else labels[0] + "." + Joined(labels[1..])
  }

  ghost predicate IsLabels(labels: seq<string>) {
    |labels| > 0 && forall i :: 0 <= i < |labels| ==> IsLabel(labels[i])
  }

  // Labels between single dots, without the limit on their length.
  predicate Dotted(n: string) {
    && |n| > 0 && n[0] != '.' && n[|n| - 1] != '.'
    && (forall i :: 0 <= i < |n| ==> LabelChar(n[i]) || n[i] == '.')
    && (forall i :: 0 < i < |n| ==> !(n[i - 1] == '.' && n[i] == '.'))
  }

  lemma {:induction false} JoinedIsDotted(labels: seq<string>)
    requires IsLabels(labels)
    ensures Dotted(Joined(labels))
  {
    assert IsLabel(labels[0]);
    if |labels| > 1 {
      assert IsLabels(labels[1..]) by {
        forall i | 0 <= i < |labels| - 1 ensures IsLabel(labels[1..][i]) { assert IsLabel(labels[i + 1]); }
      }
      JoinedIsDotted(labels[1..]);
      LabelThenDotted(labels[0], Joined(labels[1..]));
    }
  }

  lemma {:induction false} LabelThenDotted(first: string, rest: string)
    requires IsLabel(first) && Dotted(rest)
    ensures Dotted(first + "." + rest)
  {}

  function FirstDot(n: string): (k: nat)
    ensures k <= |n| && (forall i :: 0 <= i < k ==> n[i] != '.') && (k < |n| ==> n[k] == '.')
  {
    if n == "" || n[0] == '.' then 0 else FirstDot(n[1..]) + 1
  }

  lemma {:induction false} DottedSplits(n: string) returns (labels: seq<string>)
    requires Dotted(n)
    ensures IsLabels(labels) && Joined(labels) == n
    decreases |n|
  {
    var k := FirstDot(n);
    if k == |n| {
      labels := [n];
    } else {
      var first, rest := n[..k], n[k + 1..];
      TailIsDotted(n, k);
      var more := DottedSplits(rest);
      labels := [first] + more;
      assert labels[1..] == more && n == first + "." + rest;
      forall i | 0 <= i < |labels| ensures IsLabel(labels[i]) { if i > 0 { assert labels[i] == more[i - 1]; } }
    }
  }

  lemma {:induction false} TailIsDotted(n: string, k: nat)
    requires Dotted(n) && k < |n| && n[k] == '.' && forall i :: 0 <= i < k ==> n[i] != '.'
    ensures IsLabel(n[..k]) && Dotted(n[k + 1..])
  {
    var rest := n[k + 1..];
    assert k > 0 && k < |n| - 1;
    assert rest[0] == n[k + 1] && rest[|rest| - 1] == n[|n| - 1];
    forall i | 0 <= i < |rest| ensures LabelChar(rest[i]) || rest[i] == '.' { assert rest[i] == n[k + 1 + i]; }
    forall i | 0 < i < |rest| ensures !(rest[i - 1] == '.' && rest[i] == '.') {
      assert rest[i - 1] == n[k + i] && rest[i] == n[k + 1 + i];
      assert !(n[k + i] == '.' && n[k + 1 + i] == '.');
    }
  }

  // The test is the pattern: one label or more of these characters, joined by
  // dots, 253 characters at most.
  lemma {:induction false} SearchableIff(n: string)
    ensures Searchable(n) <==> |n| <= 253 && exists labels :: IsLabels(labels) && n == Joined(labels)
  {
    if Searchable(n) { var labels := DottedSplits(n); }
    if labels :| IsLabels(labels) && n == Joined(labels) { JoinedIsDotted(labels); }
  }
}
