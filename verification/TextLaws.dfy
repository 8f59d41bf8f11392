// What the text helpers mean, position by position.
module TextLaws {
  import opened Text

  // Code point order: the first difference decides, and a proper prefix is
  // less.
  ghost predicate DiffersAt(a: string, b: string, k: nat) {
    && k <= |a| && k < |b| && (forall i :: 0 <= i < k ==> a[i] == b[i])
    && (k == |a| || a[k] as int < b[k] as int)
  }

  lemma {:induction false} LessIff(a: string, b: string)
    ensures Less(a, b) <==> exists k: nat :: DiffersAt(a, b, k)
  {
    if a != [] && b != [] && a[0] == b[0] {
      LessIff(a[1..], b[1..]);
      if k: nat :| DiffersAt(a[1..], b[1..], k) { assert DiffersAt(a, b, k + 1); }
      if k: nat :| DiffersAt(a, b, k) {
        assert k > 0;
        assert DiffersAt(a[1..], b[1..], k - 1);
      }
    } else if Less(a, b) {
      assert DiffersAt(a, b, 0);
    }
  }

  predicate IsSpace(c: char) { c as int in {9, 10, 11, 12, 13, 28, 29, 30, 31, 32} }

  predicate IsDot(c: char) { c as int == 46 }

  // `s` without the spaces at its two ends: the part from `i` to `j`.
  ghost predicate StrippedTo(s: string, i: nat, j: nat) {
    && i <= j <= |s| && (forall k :: 0 <= k < i || j <= k < |s| ==> IsSpace(s[k]))
    && (i < j ==> !IsSpace(s[i]) && !IsSpace(s[j - 1]))
  }

  lemma {:induction false} StripIs(s: string) returns (i: nat, j: nat)
    ensures StrippedTo(s, i, j) && Strip(s) == s[i..j]
  {
    i := LeftIs(s, Spaces);
    var n := RightIs(s[i..], Spaces);
    j := i + n;
    forall k | j <= k < |s| ensures IsSpace(s[k]) { assert s[i..][k - i] == s[k]; }
    assert s[i..][..n] == s[i..j];
  }

  predicate IsOf(trim: Trim, c: char) { if trim.Spaces? then IsSpace(c) else IsDot(c) }

  lemma {:induction false} LeftIs(s: string, trim: Trim) returns (i: nat)
    ensures i <= |s| && TrimLeft(s, trim) == s[i..]
    ensures (forall k :: 0 <= k < i ==> IsOf(trim, s[k])) && (i < |s| ==> !IsOf(trim, s[i]))
  {
    if s != [] && Drops(trim, s[0]) {
      var n := LeftIs(s[1..], trim);
      i := n + 1;
    } else {
      i := 0;
      assert s[0..] == s;
    }
  }

  // What is left of a right trim is the shortest prefix with only such
  // characters behind it.
  lemma {:induction false} RightIs(s: string, trim: Trim) returns (n: nat)
    ensures n <= |s| && TrimRight(s, trim) == s[..n]
    ensures (forall k :: n <= k < |s| ==> IsOf(trim, s[k])) && (n > 0 ==> !IsOf(trim, s[n - 1]))
  {
    if s != [] && Drops(trim, s[|s| - 1]) {
      n := RightIs(s[..|s| - 1], trim);
    } else {
      n := |s|;
    }
  }

  // Lowering changes the capital letters and nothing else.
  lemma {:induction false} LowerLetters(s: string, i: nat)
    requires i < |s|
    ensures |Lower(s)| == |s|
    ensures var c, l := s[i] as int, Lower(s)[i] as int; l == if 65 <= c <= 90 then c + 32 else c
  {
    LowerIs(s);
  }
}
