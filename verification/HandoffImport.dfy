// Importing the handoff export: what the live database accepts of it, and that
// with the default bounds it accepts everything.
module HandoffImport {
  import opened Text
  import opened Tables
  import opened Handoff

  datatype ImportedGroup = ImportedGroup(route: Route, priority: nat, members: seq<Member>)

  datatype PreflightRow = PreflightRow(route: Route, member: Member)

  datatype Imported = Imported(groups: seq<ImportedGroup>, preflight: map<string, PreflightRow>)

  // ----------------------------------------------------------------- one group

  function PlainNames(values: seq<string>): seq<string> {
    if values == [] then []
    else (if PlainName(values[0]) != "" then [PlainName(values[0])] else []) + PlainNames(values[1..])
  }

  // _names
  function CleanNames(values: seq<string>): seq<string> { SortUnique(PlainNames(values)) }

  // One member as _members stores it.
  function CleanMember(m: Member): Member { m.(name := PlainName(m.name), nsNames := CleanNames(m.nsNames)) }

  function CleanMembers(members: seq<Member>): seq<Member> {
    if members == [] then []
    else
      var last := members[|members| - 1];
      CleanMembers(members[..|members| - 1]) + (if PlainName(last.name) != "" then [CleanMember(last)] else [])
  }

  // Python's stable sort by name, built from the left.
  function InsertLast(members: seq<Member>, m: Member): seq<Member> {
    if members == [] then [m]
    else if Less(m.name, members[|members| - 1].name) then
      InsertLast(members[..|members| - 1], m) + [members[|members| - 1]]
    else members + [m]
  }

  function SortByName(members: seq<Member>): seq<Member> {
    if members == [] then [] else InsertLast(SortByName(members[..|members| - 1]), members[|members| - 1])
  }

  // _members
  function ImportMembers(members: seq<Member>): seq<Member> { SortByName(CleanMembers(members)) }

  predicate AllDs(members: seq<Member>) { forall i :: 0 <= i < |members| ==> members[i].hasDs }

  // _import_group
  function ImportGroup(g: Group, minimum: nat, maximum: Option<nat>, priority: nat): Option<ImportedGroup> {
    var route := Route(PlainName(g.route.nameserver), PlainName(g.route.root), PlainName(g.route.ip), g.route.field);
    var members := ImportMembers(g.members);
    if route.nameserver == "" || route.root == "" || route.ip == "" || g.memberCount < minimum
       || (maximum.Some? && g.memberCount > maximum.value) || |members| != g.memberCount then None
    else if priority > 0 && !AllDs(members) then None
    else Some(ImportedGroup(route, priority, members))
  }

  // The items of a list, in order, without those that are refused.
  function Kept(items: seq<Option<ImportedGroup>>): seq<ImportedGroup> {
    if items == [] then []
    else Kept(items[..|items| - 1]) + (if items[|items| - 1].Some? then [items[|items| - 1].value] else [])
  }

  function Items(groups: seq<Group>, minimum: nat, maximum: Option<nat>, priority: nat): seq<Option<ImportedGroup>> {
    seq(|groups|, i requires 0 <= i < |groups| => ImportGroup(groups[i], minimum, maximum, priority))
  }

  function ImportGroups(groups: seq<Group>, minimum: nat, maximum: Option<nat>, priority: nat): seq<ImportedGroup> {
    Kept(Items(groups, minimum, maximum, priority))
  }

  // setdefault over the DS members of a route: the first row of a name stays.
  function AddMembers(rows: map<string, PreflightRow>, route: Route, members: seq<Member>): map<string, PreflightRow> {
    if members == [] then rows
    else
      var before, m := AddMembers(rows, route, members[..|members| - 1]), members[|members| - 1];
      if m.hasDs && m.name !in before then before[m.name := PreflightRow(route, m)] else before
  }

  function AddPreflight(groups: seq<Group>): map<string, PreflightRow> {
    if groups == [] then map[]
    else
      var before, g := AddPreflight(groups[..|groups| - 1]), ImportGroup(groups[|groups| - 1], 1, None, 0);
      if g.Some? then AddMembers(before, g.value.route, ImportMembers(g.value.members)) else before
  }

  function AtLeastOne(n: int): nat { if n > 1 then n else 1 }

  // ------------------------------------------------------------- the loops

  method ImportLoop(groups: seq<Group>, minimum: nat, maximum: Option<nat>,
        priority: nat) returns (imported: seq<ImportedGroup>)
    ensures imported == ImportGroups(groups, minimum, maximum, priority)
  {
    imported := [];
    ghost var items := Items(groups, minimum, maximum, priority);
    for i := 0 to |groups|
      invariant imported == Kept(items[..i])
    {
      assert items[..i + 1][..i] == items[..i];
      var item := ImportGroup(groups[i], minimum, maximum, priority);
      assert item == items[i];
      if item.Some? { imported := imported + [item.value]; }
    }
    assert items[..|items|] == items;
  }

  method PreflightLoop(groups: seq<Group>) returns (rows: map<string, PreflightRow>)
    ensures rows == AddPreflight(groups)
  {
    rows := map[];
    for i := 0 to |groups|
      invariant rows == AddPreflight(groups[..i])
    {
      assert groups[..i + 1][..i] == groups[..i];
      var g := ImportGroup(groups[i], 1, None, 0);
      if g.Some? {
        ghost var before := rows;
        var route, members := g.value.route, ImportMembers(g.value.members);
        for k := 0 to |members|
          invariant rows == AddMembers(before, route, members[..k])
        {
          assert members[..k + 1][..k] == members[..k];
          var m := members[k];
          if m.hasDs && m.name !in rows { rows := rows[m.name := PreflightRow(route, m)]; }
        }
        assert members[..|members|] == members;
      }
    }
    assert groups[..|groups|] == groups;
  }

  // What the import stores, for given bounds on the cohorts.
  function TablesOf(x: Export, minimum: nat, maximum: nat): Imported {
    Imported(ImportGroups(x.groups, minimum, Some(maximum), 0) + ImportGroups(x.priority, 1, Some(1), 2)
               + ImportGroups(x.canaries, 1, Some(CANARY_MEMBERS), 1),
             AddPreflight(x.preflight))
  }

  // refresh_hns_handoff_groups
  method RefreshHandoffGroups(x: Export, minMembers: int, maxMembers: int) returns (t: Imported)
    ensures var minimum := AtLeastOne(minMembers);
      t == TablesOf(x, minimum, if maxMembers > minimum then maxMembers else minimum)
  {
    var minimum := AtLeastOne(minMembers);
    var maximum: nat := if maxMembers > minimum then maxMembers else minimum;
    var cohorts := ImportLoop(x.groups, minimum, Some(maximum), 0);
    var preflight := PreflightLoop(x.preflight);
    var priority := ImportLoop(x.priority, 1, Some(1), 2);
    var canaries := ImportLoop(x.canaries, 1, Some(CANARY_MEMBERS), 1);
    t := Imported(cohorts + priority + canaries, preflight);
  }

  // ------------------------------------------- members come back as they were

  ghost predicate Ascending(members: seq<Member>) {
    forall i, j {:trigger Less(members[i].name, members[j].name)} :: 0 <= i < j < |members| ==>
      Less(members[i].name, members[j].name)
  }

  predicate PlainText(s: string) { s != "" && PlainName(s) == s }

  predicate PlainMembers(members: seq<Member>) { forall i :: 0 <= i < |members| ==> PlainText(members[i].name) }

  // All members with their nameservers cleaned.
  function Cleaned(members: seq<Member>): (r: seq<Member>)
    ensures |r| == |members|
    ensures forall i :: 0 <= i < |members| ==> r[i] == CleanMember(members[i])
  {
    seq(|members|, i requires 0 <= i < |members| => CleanMember(members[i]))
  }

  lemma {:induction false} CleanIsCleaned(members: seq<Member>)
    requires PlainMembers(members)
    ensures CleanMembers(members) == Cleaned(members)
  {
    if members != [] {
      var before, last := members[..|members| - 1], members[|members| - 1];
      CleanIsCleaned(before);
      assert PlainText(last.name);
      assert Cleaned(members) == Cleaned(before) + [CleanMember(last)];
    }
  }

  lemma {:induction false} CleanedStaysPlain(members: seq<Member>)
    requires PlainMembers(members)
    ensures PlainMembers(Cleaned(members)) && (Ascending(members) ==> Ascending(Cleaned(members)))
    ensures AllDs(members) ==> AllDs(Cleaned(members))
  {
    forall i | 0 <= i < |members|
      ensures Cleaned(members)[i].name == members[i].name
    {
      assert PlainText(members[i].name);
    }
    if Ascending(members) {
      forall i, j | 0 <= i < j < |members| ensures Less(Cleaned(members)[i].name, Cleaned(members)[j].name) {
        assert Less(members[i].name, members[j].name);
      }
    }
  }

  lemma {:induction false} SortIsIdentity(members: seq<Member>)
    requires Ascending(members)
    ensures SortByName(members) == members
  {
    if members != [] {
      var before, m := members[..|members| - 1], members[|members| - 1];
      assert Ascending(before) by {
        forall i, j | 0 <= i < j < |before|
          ensures Less(before[i].name, before[j].name)
        {
          assert Less(members[i].name, members[j].name);
        }
      }
      SortIsIdentity(before);
      if before != [] {
        var last := before[|before| - 1];
        assert Less(members[|before| - 1].name, members[|before|].name);
        if Less(m.name, last.name) { LessTransitive(m.name, last.name, m.name); LessIrreflexive(m.name); }
      }
      assert members == before + [m];
    }
  }

  lemma {:induction false} MembersComeBack(members: seq<Member>)
    requires Ascending(members) && PlainMembers(members)
    ensures ImportMembers(members) == Cleaned(members)
  {
    CleanIsCleaned(members);
    CleanedStaysPlain(members);
    SortIsIdentity(Cleaned(members));
  }

  // A member of plain name comes back as it was exactly if its nameservers are
  // plain, sorted and listed once each.
  lemma {:induction false} UnchangedIff(m: Member)
    requires PlainText(m.name)
    ensures CleanMember(m) == m <==> StrictlySorted(m.nsNames) && forall v :: v in m.nsNames ==> PlainText(v)
  {
    var names := m.nsNames;
    if StrictlySorted(names) && forall v :: v in names ==> PlainText(v) {
      PlainNamesIdentity(names);
      SortUniqueIdentity(names);
    }
    if CleanNames(names) == names {
      forall v | v in names ensures PlainText(v) { CleanIsPlain(names, v, set w | w in names); }
    }
  }

  lemma {:induction false} PlainNamesHave(values: seq<string>, v: string)
    requires v in PlainNames(values)
    ensures v != "" && exists w :: w in values && PlainName(w) == v
  {
    assert values == [values[0]] + values[1..];
    if v in PlainNames(values[1..]) { PlainNamesHave(values[1..], v); }
  }

  // A name in a list that cleaning leaves alone is plain or comes from a longer
  // one that is not.
  lemma {:induction false} SourceOf(values: seq<string>, v: string) returns (w: string)
    requires v in PlainNames(values)
    ensures w in values && (PlainText(v) || (|w| > |v| && !PlainText(w)))
  {
    PlainNamesHave(values, v);
    w :| w in values && PlainName(w) == v;
    PlainOrShorter(w);
  }

  lemma {:induction false} CleanIsPlain(values: seq<string>, v: string, longer: set<string>)
    requires CleanNames(values) == values && v in values && forall w :: w in values && |w| > |v| ==> w in longer
    ensures PlainText(v)
    decreases |longer|
  {
    var w := SourceOf(values, v);
    if !PlainText(v) {
      assert w in longer;
      var rest := set x | x in longer && |x| > |w|;
      assert rest <= longer - {w};
      SubsetSize(rest, longer - {w});
      CleanIsPlain(values, w, rest);
    }
  }

  lemma {:induction false} PlainNamesIdentity(values: seq<string>)
    requires forall v :: v in values ==> PlainText(v)
    ensures PlainNames(values) == values
  {
    if values != [] {
      assert PlainText(values[0]);
      PlainNamesIdentity(values[1..]);
    }
  }

  lemma {:induction false} SortUniqueIdentity(values: seq<string>)
    requires StrictlySorted(values)
    ensures SortUnique(values) == values
  {
    if values != [] {
      assert StrictlySorted(values[1..]) by {
        forall i, j | 0 <= i < j < |values| - 1 ensures Less(values[1..][i], values[1..][j]) {
          assert Less(values[i + 1], values[j + 1]);
        }
      }
      SortUniqueIdentity(values[1..]);
      assert |values| > 1 ==> Less(values[0], values[1]);
      LessIrreflexive(values[0]);
    }
  }

  // ---------------------------------------------------- what the export holds

  // Routes and names as the index keeps them: plain and not empty.
  ghost predicate PlainRows(rows: seq<RouteRow>) {
    forall i :: 0 <= i < |rows| ==>
      PlainText(rows[i].route.nameserver) && PlainText(rows[i].route.root) && PlainText(rows[i].route.ip)
      && PlainText(rows[i].member.name)
  }

  lemma {:induction false} EarlierMembersBefore(rows: seq<RouteRow>, m: Member)
    requires SortedRows(rows) && rows != [] && m in MembersOf(rows[..|rows| - 1], rows[|rows| - 1].route)
    ensures Less(m.name, rows[|rows| - 1].member.name)
  {
    var before, route := rows[..|rows| - 1], rows[|rows| - 1].route;
    MembersHave(before, route, m);
    var i :| 0 <= i < |before| && before[i] == RouteRow(route, m);
    assert RowBefore(rows[i], rows[|rows| - 1]);
    RouteOrder(route, route, route);
  }

  lemma {:induction false} RouteMembersAscend(rows: seq<RouteRow>, route: Route)
    requires SortedRows(rows) && PlainRows(rows)
    ensures Ascending(MembersOf(rows, route)) && PlainMembers(MembersOf(rows, route))
  {
    if rows != [] {
      var before, last := rows[..|rows| - 1], rows[|rows| - 1];
      PrefixSorted(rows, |rows| - 1);
      RouteMembersAscend(before, route);
      if last.route == route {
        forall m | m in MembersOf(before, route)
          ensures Less(m.name, last.member.name)
        {
          EarlierMembersBefore(rows, m);
        }
        AscendingPush(MembersOf(before, route), last.member);
      }
    }
  }

  lemma {:induction false} AscendingPush(members: seq<Member>, last: Member)
    requires Ascending(members) && forall m :: m in members ==> Less(m.name, last.name)
    ensures Ascending(members + [last])
  {}

  lemma {:induction false} DsMembersAscend(members: seq<Member>)
    requires Ascending(members) && PlainMembers(members)
    ensures Ascending(DsMembers(members)) && PlainMembers(DsMembers(members)) && AllDs(DsMembers(members))
    ensures forall i :: 0 <= i < |DsMembers(members)| ==> DsMembers(members)[i] in members
  {
    if members != [] {
      var before, m := members[..|members| - 1], members[|members| - 1];
      assert Ascending(before) by {
        forall i, j | 0 <= i < j < |before|
          ensures Less(before[i].name, before[j].name)
        {
          assert Less(members[i].name, members[j].name);
        }
      }
      DsMembersAscend(before);
      var ds := DsMembers(before);
      forall i | 0 <= i < |ds| ensures Less(ds[i].name, m.name) {
        var k :| 0 <= k < |before| && before[k] == ds[i];
        assert Less(members[k].name, members[|members| - 1].name);
      }
    }
  }

  lemma {:induction false} CanariesAscend(members: seq<Member>)
    requires Ascending(members) && PlainMembers(members) && AllDs(members)
    ensures Ascending(Canaries(members)) && PlainMembers(Canaries(members)) && AllDs(Canaries(members))
    ensures members != [] ==> Canaries(members) != []
  {
    if |members| > CANARY_MEMBERS {
      CanariesSpread(members);
      var last := |members| - 1;
      var mid: nat :| Middle(mid, last) && Canaries(members) == [members[0], members[mid], members[last]];
      assert Less(members[0].name, members[mid].name) && Less(members[mid].name, members[last].name)
             && Less(members[0].name, members[last].name);
    }
  }

  // The bounds refresh_hns_handoff_groups applies to each list.
  function LeastOf(list: List): nat { if list == Groups then MIN_MEMBERS else 1 }
  function MostOf(list: List): Option<nat> {
    match list
    case Groups => Some(MAX_MEMBERS)
    case Priority => Some(1)
    case CanaryGroups => Some(CANARY_MEMBERS)
    case Preflight => None
  }
  function PriorityOf(list: List): nat { match list case Priority => 2 case CanaryGroups => 1 case _ => 0 }

  // The import takes a group over, its members' nameservers cleaned.
  ghost predicate Accepts(g: Group, minimum: nat, maximum: Option<nat>, priority: nat) {
    ImportGroup(g, minimum, maximum, priority) == Some(ImportedGroup(g.route, priority, Cleaned(g.members)))
  }

  predicate PlainRoute(r: Route) { PlainText(r.nameserver) && PlainText(r.root) && PlainText(r.ip) }

  lemma {:induction false} GroupAccepted(g: Group, minimum: nat, maximum: Option<nat>, priority: nat)
    requires PlainRoute(g.route) && Ascending(g.members) && PlainMembers(g.members) && g.memberCount == |g.members|
    requires minimum <= |g.members| && (maximum.Some? ==> |g.members| <= maximum.value)
    requires priority > 0 ==> AllDs(g.members)
    ensures Accepts(g, minimum, maximum, priority)
  {
    MembersComeBack(g.members);
    CleanedStaysPlain(g.members);
  }

  // Whatever a route contributes to a list is accepted.
  lemma {:induction false} ContributionAccepted(rows: seq<RouteRow>, list: List, g: Group)
    requires SortedRows(rows) && PlainRows(rows)
    requires exists i :: 0 <= i < |rows| && rows[i].route == g.route
    requires Contributes(list, g.route, MembersOf(rows, g.route)) == Some(g)
    ensures Accepts(g, LeastOf(list), MostOf(list), PriorityOf(list)) && Ascending(g.members) && PlainMembers(g.members)
    ensures list == Preflight ==> AllDs(g.members)
  {
    var members := MembersOf(rows, g.route);
    RouteMembersAscend(rows, g.route);
    ContributionShape(list, g, members);
    GroupAccepted(g, LeastOf(list), MostOf(list), PriorityOf(list));
  }

  lemma {:induction false} ContributionShape(list: List, g: Group, members: seq<Member>)
    requires Ascending(members) && PlainMembers(members) && Contributes(list, g.route, members) == Some(g)
    ensures Ascending(g.members) && PlainMembers(g.members) && g.memberCount == |g.members|
    ensures LeastOf(list) <= |g.members| && (MostOf(list).Some? ==> |g.members| <= MostOf(list).value)
    ensures list != Groups ==> AllDs(g.members)
  {
    DsMembersAscend(members);
    CanariesAscend(DsMembers(members));
    if list == Priority { SingletonDs(members); }
  }

  function AsExported(groups: seq<Group>, priority: nat): seq<ImportedGroup> {
    seq(|groups|, i requires 0 <= i < |groups| => ImportedGroup(groups[i].route, priority, Cleaned(groups[i].members)))
  }

  lemma {:induction false} KeepsEvery(items: seq<Option<ImportedGroup>>, all: seq<ImportedGroup>)
    requires |items| == |all| && forall i :: 0 <= i < |items| ==> items[i] == Some(all[i])
    ensures Kept(items) == all
  {
    if items != [] {
      KeepsEvery(items[..|items| - 1], all[..|all| - 1]);
      assert all == all[..|all| - 1] + [all[|all| - 1]];
    }
  }

  lemma {:induction false} ImportsEvery(groups: seq<Group>, minimum: nat, maximum: Option<nat>, priority: nat)
    requires forall i :: 0 <= i < |groups| ==> Accepts(groups[i], minimum, maximum, priority)
    ensures ImportGroups(groups, minimum, maximum, priority) == AsExported(groups, priority)
  {
    var items, all := Items(groups, minimum, maximum, priority), AsExported(groups, priority);
    forall i | 0 <= i < |items|
      ensures items[i] == Some(all[i])
    {
      assert Accepts(groups[i], minimum, maximum, priority);
    }
    KeepsEvery(items, all);
  }

  // With the default bounds no group of an export is lost: routes, order,
  // members, hashes and DS flags stay, and the nameserver lists are cleaned.
  lemma {:induction false} ImportKeepsGroups(rows: seq<RouteRow>, list: List)
    requires SortedRows(rows) && PlainRows(rows)
    ensures var groups := ListOf(Grouped(rows, Routes(rows)), list);
      ImportGroups(groups, LeastOf(list), MostOf(list), PriorityOf(list)) == AsExported(groups, PriorityOf(list))
  {
    var groups := ListOf(Grouped(rows, Routes(rows)), list);
    ExportByRoute(rows, Routes(rows), list);
    RoutesAscend(rows);
    forall i | 0 <= i < |groups| ensures Accepts(groups[i], LeastOf(list), MostOf(list), PriorityOf(list)) {
      assert groups[i] in groups;
      ContributionAccepted(rows, list, groups[i]);
    }
    ImportsEvery(groups, LeastOf(list), MostOf(list), PriorityOf(list));
  }

  // ------------------------------------------------------------------ preflight

  // A member of a preflight group is cleaned on import and again when its row is
  // made.
  function Twice(m: Member): Member { CleanMember(CleanMember(m)) }

  ghost predicate HasRow(groups: seq<Group>, n: string, r: PreflightRow) {
    exists i, m :: 0 <= i < |groups| && groups[i].route == r.route && m in groups[i].members
                   && r.member == Twice(m) && r.member.name == n
  }

  lemma {:induction false} AddMembersHas(rows: map<string, PreflightRow>, route: Route, members: seq<Member>, n: string)
    requires AllDs(members)
    ensures n in AddMembers(rows, route, members) <==>
      n in rows || exists i :: 0 <= i < |members| && members[i].name == n
    ensures n in rows ==> n in AddMembers(rows, route, members) && AddMembers(rows, route, members)[n] == rows[n]
    ensures n in AddMembers(rows, route, members) && n !in rows ==>
      var r := AddMembers(rows, route, members)[n];
      r.route == route && r.member in members && r.member.name == n
  {
    if members != [] {
      AddMembersHas(rows, route, members[..|members| - 1], n);
      assert members == members[..|members| - 1] + [members[|members| - 1]];
    }
  }

  // A preflight group as it is imported: taken over, all members DS-backed, and
  // cleaned once more.
  ghost predicate PreflightGroup(g: Group) {
    && AllDs(g.members) && Accepts(g, 1, None, 0) && PlainMembers(g.members)
    && ImportMembers(Cleaned(g.members)) == Cleaned(Cleaned(g.members))
  }

  lemma {:induction false} LastGroup(groups: seq<Group>)
    requires groups != [] && PreflightGroup(groups[|groups| - 1])
    ensures var g := groups[|groups| - 1];
      AddPreflight(groups) == AddMembers(AddPreflight(groups[..|groups| - 1]), g.route, Cleaned(Cleaned(g.members)))
  {}

  lemma {:induction false} AddPreflightHas(groups: seq<Group>, n: string)
    requires forall i :: 0 <= i < |groups| ==> PreflightGroup(groups[i])
    ensures n in AddPreflight(groups) ==> HasRow(groups, n, AddPreflight(groups)[n])
    ensures (exists r :: HasRow(groups, n, r)) ==> n in AddPreflight(groups)
  {
    if groups != [] {
      var m := |groups| - 1;
      var shorter, g := groups[..m], groups[m];
      AddPreflightHas(shorter, n);
      LastGroup(groups);
      CleanedStaysPlain(g.members);
      CleanedStaysPlain(Cleaned(g.members));
      AddMembersHas(AddPreflight(shorter), g.route, Cleaned(Cleaned(g.members)), n);
      if n in AddPreflight(groups) && n !in AddPreflight(shorter) {
        CleanedTwice(g.members, AddPreflight(groups)[n].member);
      }
      if n in AddPreflight(shorter) { HasRowLonger(groups, n, AddPreflight(shorter)[n]); }
      if r :| HasRow(groups, n, r) { HasRowLast(groups, n, r); }
    }
  }

  lemma {:induction false} HasRowLonger(groups: seq<Group>, n: string, r: PreflightRow)
    requires groups != [] && HasRow(groups[..|groups| - 1], n, r)
    ensures HasRow(groups, n, r)
  {}

  lemma {:induction false} HasRowLast(groups: seq<Group>, n: string, r: PreflightRow)
    requires groups != [] && HasRow(groups, n, r)
    ensures var members := groups[|groups| - 1].members;
      HasRow(groups[..|groups| - 1], n, r) || exists k :: 0 <= k < |members| && Cleaned(Cleaned(members))[k].name == n
  {
    var i, m :| 0 <= i < |groups| && groups[i].route == r.route && m in groups[i].members
                && r.member == Twice(m) && r.member.name == n;
    if i == |groups| - 1 {
      var k :| 0 <= k < |groups[i].members| && groups[i].members[k] == m;
      assert Cleaned(Cleaned(groups[i].members))[k] == Twice(m);
    } else {
      assert groups[..|groups| - 1][i] == groups[i];
    }
  }

  // The members cleaned twice, one by one.
  lemma {:induction false} CleanedTwice(members: seq<Member>, x: Member)
    requires x in Cleaned(Cleaned(members))
    ensures exists m :: m in members && x == Twice(m)
  {
    var twice := Cleaned(Cleaned(members));
    var k :| 0 <= k < |twice| && twice[k] == x;
    assert members[k] in members && twice[k] == Twice(members[k]);
  }

  lemma {:induction false} PreflightAccepted(rows: seq<RouteRow>, g: Group)
    requires SortedRows(rows) && PlainRows(rows)
    requires exists i :: 0 <= i < |rows| && rows[i].route == g.route
    requires Contributes(Preflight, g.route, MembersOf(rows, g.route)) == Some(g)
    ensures PreflightGroup(g)
  {
    ContributionAccepted(rows, Preflight, g);
    CleanedStaysPlain(g.members);
    MembersComeBack(Cleaned(g.members));
  }

  lemma {:induction false} PreflightGroups(rows: seq<RouteRow>, groups: seq<Group>, i: nat)
    requires SortedRows(rows) && PlainRows(rows) && groups == ListOf(Grouped(rows, Routes(rows)), Preflight)
    requires i < |groups|
    ensures PreflightGroup(groups[i])
  {
    ExportByRoute(rows, Routes(rows), Preflight);
    RoutesAscend(rows);
    var g := groups[i];
    assert g in groups;
    PreflightAccepted(rows, g);
  }

  ghost predicate RowsHold(rows: seq<RouteRow>, g: Group) {
    forall m :: m in g.members ==> m.hasDs && exists i :: 0 <= i < |rows| && rows[i] == RouteRow(g.route, m)
  }

  lemma {:induction false} GroupRowsHold(rows: seq<RouteRow>, g: Group)
    requires g in Grouped(rows, Routes(rows)).preflight
    ensures RowsHold(rows, g)
  {
    forall m | m in g.members ensures m.hasDs && exists i :: 0 <= i < |rows| && rows[i] == RouteRow(g.route, m) {
      PreflightHas(rows, g, m);
    }
  }

  // The row of the stream a preflight row was made of.
  predicate MadeOf(rows: seq<RouteRow>, r: PreflightRow, i: nat) {
    i < |rows| && rows[i].route == r.route && r.member == Twice(rows[i].member)
  }

  lemma {:induction false} PreflightRowOf(rows: seq<RouteRow>, groups: seq<Group>, n: string, r: PreflightRow)
      returns (i: nat)
    requires HasRow(groups, n, r) && forall i :: 0 <= i < |groups| ==> RowsHold(rows, groups[i])
    requires PlainRows(rows)
    ensures MadeOf(rows, r, i) && IsDsRow(rows, n, i)
  {
    var k, m :| 0 <= k < |groups| && groups[k].route == r.route && m in groups[k].members
                && r.member == Twice(m) && r.member.name == n;
    assert RowsHold(rows, groups[k]);
    i :| i < |rows| && rows[i] == RouteRow(groups[k].route, m);
    PlainTwice(rows, i);
  }

  lemma {:induction false} PlainTwice(rows: seq<RouteRow>, i: nat)
    requires PlainRows(rows) && i < |rows|
    ensures Twice(rows[i].member).name == rows[i].member.name
  {}

  lemma {:induction false} AllPreflightGroups(rows: seq<RouteRow>, groups: seq<Group>)
    requires SortedRows(rows) && PlainRows(rows) && groups == ListOf(Grouped(rows, Routes(rows)), Preflight)
    ensures forall i :: 0 <= i < |groups| ==> PreflightGroup(groups[i])
  {
    forall i | 0 <= i < |groups| ensures PreflightGroup(groups[i]) { PreflightGroups(rows, groups, i); }
  }

  lemma {:induction false} AllRowsHold(rows: seq<RouteRow>, groups: seq<Group>)
    requires groups == Grouped(rows, Routes(rows)).preflight
    ensures forall i :: 0 <= i < |groups| ==> RowsHold(rows, groups[i])
  {
    forall i | 0 <= i < |groups| ensures RowsHold(rows, groups[i]) { GroupRowsHold(rows, groups[i]); }
  }

  lemma {:induction false} PreflightRowImported(rows: seq<RouteRow>, groups: seq<Group>, i: nat)
    requires SortedRows(rows) && PlainRows(rows) && groups == Grouped(rows, Routes(rows)).preflight
    requires i < |rows| && rows[i].member.hasDs
    ensures exists r :: HasRow(groups, rows[i].member.name, r)
  {
    var g := PreflightOfRow(rows, i);
    PlainTwice(rows, i);
    HasRowOf(groups, g, rows[i].member, rows[i].member.name);
  }

  lemma {:induction false} HasRowOf(groups: seq<Group>, g: Group, m: Member, n: string)
    requires g in groups && m in g.members && Twice(m).name == n
    ensures HasRow(groups, n, PreflightRow(g.route, Twice(m)))
  {
    var i :| 0 <= i < |groups| && groups[i] == g;
  }

  predicate IsDsRow(rows: seq<RouteRow>, n: string, i: nat) {
    i < |rows| && rows[i].member.name == n && rows[i].member.hasDs
  }

  // The preflight table holds exactly the DS-backed routed names, each with its
  // own route and row, the nameservers cleaned twice.
  lemma {:induction false} PreflightImported(rows: seq<RouteRow>, groups: seq<Group>, n: string)
    requires SortedRows(rows) && PlainRows(rows) && groups == Grouped(rows, Routes(rows)).preflight
    ensures n in AddPreflight(groups) <==> exists i: nat :: IsDsRow(rows, n, i)
    ensures n in AddPreflight(groups) ==>
      exists i: nat :: IsDsRow(rows, n, i) && MadeOf(rows, AddPreflight(groups)[n], i)
  {
    AllPreflightGroups(rows, groups);
    AllRowsHold(rows, groups);
    AddPreflightHas(groups, n);
    if n in AddPreflight(groups) {
      var i := PreflightRowOf(rows, groups, n, AddPreflight(groups)[n]);
    }
    if i: nat :| IsDsRow(rows, n, i) { PreflightRowImported(rows, groups, i); }
  }

  // ------------------------------------------------------------- primary keys

  ghost predicate GroupsAscend(groups: seq<Group>) {
    forall i, j {:trigger RouteBefore(groups[i].route, groups[j].route)} ::
      0 <= i < j < |groups| ==> RouteBefore(groups[i].route, groups[j].route)
  }

  lemma {:induction false} ListAscends(rows: seq<RouteRow>, routes: seq<Route>, list: List)
    requires forall i, j {:trigger RouteBefore(routes[i], routes[j])} :: 0 <= i < j < |routes| ==>
      RouteBefore(routes[i], routes[j])
    ensures GroupsAscend(ListOf(Grouped(rows, routes), list))
  {
    if routes != [] {
      var before, last := routes[..|routes| - 1], routes[|routes| - 1];
      forall i, j | 0 <= i < j < |before|
        ensures RouteBefore(before[i], before[j])
      {
        assert RouteBefore(routes[i], routes[j]);
      }
      ListAscends(rows, before, list);
      FinishedAppends(Grouped(rows, before), list, last, MembersOf(rows, last));
      ExportByRoute(rows, before, list);
      var groups := ListOf(Grouped(rows, before), list);
      forall i | 0 <= i < |groups| ensures RouteBefore(groups[i].route, last) {
        assert groups[i] in groups;
        var k :| 0 <= k < |before| && before[k] == groups[i].route;
        assert RouteBefore(routes[k], routes[|routes| - 1]);
      }
      AscendOneMore(groups, Contributes(list, last, MembersOf(rows, last)), last);
    } else {
      assert ListOf(Grouped(rows, routes), list) == [];
    }
  }

  lemma {:induction false} AscendOneMore(groups: seq<Group>, more: Option<Group>, last: Route)
    requires GroupsAscend(groups) && (more.Some? ==> more.value.route == last)
    requires forall i :: 0 <= i < |groups| ==> RouteBefore(groups[i].route, last)
    ensures GroupsAscend(groups + (if more.Some? then [more.value] else []))
  {}

  // No route is imported twice, so the insert meets no key twice.
  lemma {:induction false} ImportedRoutesDistinct(rows: seq<RouteRow>, a: List, b: List, i: nat, j: nat)
    requires SortedRows(rows) && a != Preflight && b != Preflight
    requires i < |ListOf(Grouped(rows, Routes(rows)), a)| && j < |ListOf(Grouped(rows, Routes(rows)), b)|
    requires ListOf(Grouped(rows, Routes(rows)), a)[i].route == ListOf(Grouped(rows, Routes(rows)), b)[j].route
    ensures a == b && i == j
  {
    var x := Grouped(rows, Routes(rows));
    ExportByRoute(rows, Routes(rows), a);
    ExportByRoute(rows, Routes(rows), b);
    var g, h := ListOf(x, a)[i], ListOf(x, b)[j];
    assert g in ListOf(x, a) && h in ListOf(x, b);
    OneFate(g.route, MembersOf(rows, g.route));
    RoutesAscend(rows);
    ListAscends(rows, Routes(rows), a);
    AscendingIndex(ListOf(x, a), i, if a == b then j else i);
  }

  lemma {:induction false} AscendingIndex(groups: seq<Group>, i: nat, j: nat)
    requires GroupsAscend(groups) && i < |groups| && j < |groups| && groups[i].route == groups[j].route
    ensures i == j
  {
    RouteOrder(groups[i].route, groups[i].route, groups[i].route);
  }

  // Export and import together, with the default bounds.
  method ExportAndImport(rows: seq<RouteRow>) returns (x: Export, t: Imported)
    requires SortedRows(rows) && PlainRows(rows)
    ensures x == Grouped(rows, Routes(rows))
    ensures |t.groups| == |x.groups| + |x.priority| + |x.canaries|
    ensures forall list, g :: list != Preflight && g in ListOf(x, list) ==>
      ImportedGroup(g.route, PriorityOf(list), Cleaned(g.members)) in t.groups
  {
    x := WriteHandoffGroups(rows);
    t := RefreshHandoffGroups(x, MIN_MEMBERS, MAX_MEMBERS);
    ImportKeepsGroups(rows, Groups);
    ImportKeepsGroups(rows, Priority);
    ImportKeepsGroups(rows, CanaryGroups);
    forall list, g | list != Preflight && g in ListOf(x, list)
      ensures ImportedGroup(g.route, PriorityOf(list), Cleaned(g.members)) in t.groups
    {
      Accepted(x, t, list, g);
    }
  }

  lemma {:induction false} Accepted(x: Export, t: Imported, list: List, g: Group)
    requires t.groups == ImportGroups(x.groups, MIN_MEMBERS, Some(MAX_MEMBERS), 0)
      + ImportGroups(x.priority, 1, Some(1), 2)
                         + ImportGroups(x.canaries, 1, Some(CANARY_MEMBERS), 1)
    requires list != Preflight && g in ListOf(x, list)
    requires var groups := ListOf(x, list);
      ImportGroups(groups, LeastOf(list), MostOf(list), PriorityOf(list)) == AsExported(groups, PriorityOf(list))
    ensures ImportedGroup(g.route, PriorityOf(list), Cleaned(g.members)) in t.groups
  {
    var groups := ListOf(x, list);
    var k :| 0 <= k < |groups| && groups[k] == g;
    assert AsExported(groups, PriorityOf(list))[k] == ImportedGroup(g.route, PriorityOf(list), Cleaned(g.members));
  }
}
