// What the import accepts and stores of any group, on its columns.
module ImportColumns {
  import opened Text
  import opened Tables
  import opened Handoff
  import opened HandoffImport

  function Plain(s: string): string { TrimRight(Lower(Strip(s)), Dots) }

  // ------------------------------------------------------------ one member

  // A member with its name trimmed and lowered, its nameservers too, each once
  // and in order, without blank ones.
  ghost predicate CleanedFrom(m: Member, from: Member) {
    && m.name == Plain(from.name) && m.resourceHash == from.resourceHash && m.hasDs == from.hasDs
    && m.details == from.details && StrictlySorted(m.nsNames)
    && forall v :: v in m.nsNames <==> v != "" && exists w :: w in from.nsNames && Plain(w) == v
  }

  lemma {:induction false} PlainNamesAre(values: seq<string>, v: string)
    ensures v in PlainNames(values) <==> v != "" && exists w :: w in values && Plain(w) == v
  {
    if values != [] {
      assert values == [values[0]] + values[1..] && values[0] in values;
      PlainNamesAre(values[1..], v);
      if w :| w in values && Plain(w) == v && v != "" { assert w == values[0] || w in values[1..]; }
    }
  }

  lemma {:induction false} CleanMemberIs(m: Member)
    ensures CleanedFrom(CleanMember(m), m)
  {
    forall v ensures v in CleanMember(m).nsNames <==> v != "" && exists w :: w in m.nsNames && Plain(w) == v {
      PlainNamesAre(m.nsNames, v);
    }
  }

  // ---------------------------------------------------------------- the list

  function Named(members: seq<Member>): set<nat> { set i | 0 <= i < |members| && Plain(members[i].name) != "" }

  lemma {:induction false} NamedNext(before: seq<Member>, last: Member)
    ensures Named(before + [last]) == Named(before) + if Plain(last.name) != "" then {|before|} else {}
  {}

  // Members without a name are left out, the others cleaned.
  lemma {:induction false} CleanMembersAre(members: seq<Member>, m: Member)
    ensures m in CleanMembers(members) <==> exists i :: i in Named(members) && m == CleanMember(members[i])
  {
    if members != [] {
      var before, last := members[..|members| - 1], members[|members| - 1];
      assert members == before + [last];
      CleanMembersAre(before, m);
      NamedKept(before, last, m);
    }
  }

  lemma {:induction false} CountNamed(members: seq<Member>)
    ensures |CleanMembers(members)| == |Named(members)|
  {
    if members != [] {
      var before, last := members[..|members| - 1], members[|members| - 1];
      assert members == before + [last];
      CountNamed(before);
      NamedNext(before, last);
    }
  }

  lemma {:induction false} NamedKept(before: seq<Member>, last: Member, m: Member)
    ensures (exists i :: i in Named(before + [last]) && m == CleanMember((before + [last])[i])) <==>
      (exists i :: i in Named(before) && m == CleanMember(before[i]))
      || (Plain(last.name) != "" && m == CleanMember(last))
  {
    var all := before + [last];
    NamedNext(before, last);
    if i :| i in Named(before) && m == CleanMember(before[i]) { assert i in Named(all) && all[i] == before[i]; }
    if Plain(last.name) != "" && m == CleanMember(last) { assert |before| in Named(all) && all[|before|] == last; }
  }

  ghost predicate NotDescending(members: seq<Member>) {
    forall i, j :: 0 <= i < j < |members| ==> !Less(members[j].name, members[i].name)
  }

  lemma {:induction false} InsertedSame(members: seq<Member>, m: Member)
    ensures multiset(InsertLast(members, m)) == multiset(members) + multiset{m}
  {
    if members != [] && Less(m.name, members[|members| - 1].name) {
      var before, last := members[..|members| - 1], members[|members| - 1];
      assert members == before + [last];
      InsertedSame(before, m);
    }
  }

  lemma {:induction false} Inserted(members: seq<Member>, m: Member)
    requires NotDescending(members)
    ensures NotDescending(InsertLast(members, m))
  {
    if members != [] {
      var before, last := members[..|members| - 1], members[|members| - 1];
      assert members == before + [last];
      if Less(m.name, last.name) {
        Inserted(before, m);
        InsertedSame(before, m);
        var r := InsertLast(before, m);
        forall i | 0 <= i < |r| ensures !Less(last.name, r[i].name) {
          assert r[i] in multiset(r);
          InsertedBelow(before, last, m, r[i]);
        }
      } else {
        forall i | 0 <= i < |members| ensures !Less(m.name, members[i].name) { NotAbove(members, m, members[i]); }
      }
    }
  }

  lemma {:induction false} InsertedBelow(before: seq<Member>, last: Member, m: Member, x: Member)
    requires NotDescending(before + [last]) && Less(m.name, last.name) && NotDescending(before)
    requires x in multiset(before) + multiset{m}
    ensures !Less(last.name, x.name)
  {
    if Less(last.name, m.name) { LessTransitive(last.name, m.name, last.name); }
    LessIrreflexive(last.name);
    if x in before {
      var i :| 0 <= i < |before| && before[i] == x;
      assert (before + [last])[i] == x && (before + [last])[|before|] == last;
    }
  }

  lemma {:induction false} NotAbove(members: seq<Member>, m: Member, x: Member)
    requires members != [] && NotDescending(members) && !Less(m.name, members[|members| - 1].name) && x in members
    ensures !Less(m.name, x.name)
  {
    var last := members[|members| - 1];
    var i :| 0 <= i < |members| && members[i] == x;
    LessTotal(x.name, last.name);
    if Less(m.name, x.name) && x.name != last.name { LessTransitive(m.name, x.name, last.name); }
  }

  // The sort is one: by name, and nothing added or lost.
  lemma {:induction false} SortIs(members: seq<Member>)
    ensures NotDescending(SortByName(members)) && multiset(SortByName(members)) == multiset(members)
  {
    if members != [] {
      var before, last := members[..|members| - 1], members[|members| - 1];
      assert members == before + [last];
      SortIs(before);
      Inserted(SortByName(before), last);
      InsertedSame(SortByName(before), last);
    }
  }

  // --------------------------------------------------------------- the group

  // A group is accepted exactly if nameserver, root and address are not blank,
  // it counts its members with a name right and within the bounds, and, for the
  // lists of DS members, each of these has DS records.
  ghost predicate Acceptable(g: Group, minimum: nat, maximum: Option<nat>, priority: nat) {
    && Plain(g.route.nameserver) != "" && Plain(g.route.root) != "" && Plain(g.route.ip) != ""
    && minimum <= g.memberCount && (maximum.Some? ==> g.memberCount <= maximum.value)
    && g.memberCount == |Named(g.members)|
    && (priority > 0 ==> forall i :: i in Named(g.members) ==> g.members[i].hasDs)
  }

  // What is stored: the route in plain form and the cleaned members by name.
  ghost predicate StoredFrom(r: ImportedGroup, g: Group, priority: nat) {
    && r.priority == priority && r.route.field == g.route.field
    && r.route.nameserver == Plain(g.route.nameserver) && r.route.root == Plain(g.route.root)
    && r.route.ip == Plain(g.route.ip)
    && Imports(r.members, g.members)
  }

  lemma {:induction false} MembersAre(members: seq<Member>, m: Member)
    ensures m in ImportMembers(members) <==> exists i :: i in Named(members) && m == CleanMember(members[i])
  {
    CleanMembersAre(members, m);
    SortIs(CleanMembers(members));
    SameMultiset(ImportMembers(members), CleanMembers(members), m);
  }

  lemma {:induction false} SameMultiset(a: seq<Member>, b: seq<Member>, m: Member)
    requires multiset(a) == multiset(b)
    ensures |a| == |b| && (m in a <==> m in b)
  {
    assert |a| == |multiset(a)| && |b| == |multiset(b)|;
    assert (m in a <==> m in multiset(a)) && (m in b <==> m in multiset(b));
  }

  // The members that are imported, whatever their order.
  ghost predicate Imports(r: seq<Member>, members: seq<Member>) {
    && |r| == |Named(members)| && NotDescending(r)
    && forall m :: m in r <==> exists i :: i in Named(members) && m == CleanMember(members[i])
  }

  lemma {:induction false} ImportsAll(members: seq<Member>)
    ensures Imports(ImportMembers(members), members)
  {
    var r := ImportMembers(members);
    CountNamed(members);
    SortIs(CleanMembers(members));
    SameMultiset(r, CleanMembers(members), Member("", "", false, [], ""));
    forall m ensures m in r <==> exists i :: i in Named(members) && m == CleanMember(members[i]) {
      MembersAre(members, m);
    }
  }

  lemma {:induction false} DsIff(r: seq<Member>, members: seq<Member>)
    requires Imports(r, members)
    ensures AllDs(r) <==> forall i :: i in Named(members) ==> members[i].hasDs
  {
    if AllDs(r) {
      forall i | i in Named(members) ensures members[i].hasDs { assert CleanMember(members[i]) in r; }
    }
    forall k | 0 <= k < |r| ensures exists i :: i in Named(members) && r[k] == CleanMember(members[i]) {
      assert r[k] in r;
    }
  }

  lemma {:induction false} ImportIff(g: Group, minimum: nat, maximum: Option<nat>, priority: nat)
    ensures var r := ImportGroup(g, minimum, maximum, priority);
      && (r.Some? <==> Acceptable(g, minimum, maximum, priority))
      && (r.Some? ==> StoredFrom(r.value, g, priority))
  {
    ImportsAll(g.members);
    DsIff(ImportMembers(g.members), g.members);
  }
}
