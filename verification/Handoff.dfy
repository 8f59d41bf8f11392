// Nameserver handoff routes: grouped from a sorted stream, bounded by policy,
// exported, and imported again into the live database.
module Handoff {
  import opened Text
  import opened Tables

  const MIN_MEMBERS: nat := 2
  const MAX_MEMBERS: nat := 250
  const CANARY_MEMBERS: nat := 3

  // A route: nameserver, its HNS root, and the root's bootstrap address.
  datatype Route = Route(nameserver: string, root: string, ip: string, field: Field)

  // A routed name; `details` are the columns that are only carried along.
  datatype Member = Member(name: string, resourceHash: string, hasDs: bool, nsNames: seq<string>, details: string)

  datatype RouteRow = RouteRow(route: Route, member: Member)

  datatype Group = Group(route: Route, memberCount: nat, members: seq<Member>)

  datatype Export = Export(groups: seq<Group>, priority: seq<Group>, canaries: seq<Group>, preflight: seq<Group>)

  // ------------------------------------------------------------ stream order

  function FieldRank(f: Field): nat { match f case GLUE4 => 0 case GLUE6 => 1 case SYNTH4 => 2 case SYNTH6 => 3 }

  predicate RouteBefore(a: Route, b: Route) {
    Less(a.nameserver, b.nameserver) || (a.nameserver == b.nameserver
      && (Less(a.root, b.root) || (a.root == b.root
        && (Less(a.ip, b.ip) || (a.ip == b.ip && FieldRank(a.field) < FieldRank(b.field))))))
  }

  lemma {:induction false} RouteOrder(a: Route, b: Route, c: Route)
    ensures !RouteBefore(a, a)
    ensures RouteBefore(a, b) && RouteBefore(b, c) ==> RouteBefore(a, c)
  {
    LessIrreflexive(a.nameserver);
    LessIrreflexive(a.root);
    LessIrreflexive(a.ip);
    if Less(a.nameserver, b.nameserver) && Less(b.nameserver, c.nameserver) {
      LessTransitive(a.nameserver, b.nameserver, c.nameserver);
    }
    if Less(a.root, b.root) && Less(b.root, c.root) { LessTransitive(a.root, b.root, c.root); }
    if Less(a.ip, b.ip) && Less(b.ip, c.ip) { LessTransitive(a.ip, b.ip, c.ip); }
  }

  // ORDER BY route, name.
  predicate RowBefore(a: RouteRow, b: RouteRow) {
    RouteBefore(a.route, b.route) || (a.route == b.route && Less(a.member.name, b.member.name))
  }

  ghost predicate SortedRows(rows: seq<RouteRow>) {
    forall i, j {:trigger RowBefore(rows[i], rows[j])} :: 0 <= i < j < |rows| ==> RowBefore(rows[i], rows[j])
  }

  // The primary key of the route table: one route a name.
  ghost predicate OneRouteEach(rows: seq<RouteRow>) {
    forall i, j :: 0 <= i < j < |rows| ==> rows[i].member.name != rows[j].member.name
  }

  // ------------------------------------------------------------------- policy

  function DsMembers(members: seq<Member>): seq<Member> {
    if members == [] then []
    else DsMembers(members[..|members| - 1]) + (if members[|members| - 1].hasDs then [members[|members| - 1]] else [])
  }

  // round(x / 2), halves to even.
  function RoundHalf(x: nat): nat {
    var down := x / 2;
    if x % 2 == 0 || down % 2 == 0 then down else down + 1
  }

  // _handoff_canaries: all of at most three, else the first, the middle, the last.
  function Canaries(members: seq<Member>): (r: seq<Member>)
    ensures |members| <= CANARY_MEMBERS ==> r == members
    ensures |r| <= CANARY_MEMBERS
  {
    if |members| <= CANARY_MEMBERS then members
    else
      var last := |members| - 1;
      [members[0], members[RoundHalf(last)], members[last]]
  }

  // Halfway between the first and the last, of two middles the even one.
  predicate Middle(mid: nat, last: nat) {
    0 < mid < last && if last % 2 == 0 then mid + mid == last else -1 <= mid + mid - last <= 1 && mid % 2 == 0
  }

  // Above three members the canaries are three different ones in their order:
  // the first, the last and one in the middle.
  lemma {:induction false} CanariesSpread(members: seq<Member>)
    requires |members| > CANARY_MEMBERS
    ensures exists mid: nat ::
      Middle(mid, |members| - 1) && Canaries(members) == [members[0], members[mid], members[|members| - 1]]
  {
    var last := |members| - 1;
    var mid := RoundHalf(last);
    assert Middle(mid, last);
    assert Canaries(members) == [members[0], members[mid], members[last]];
  }

  function Cohort(route: Route, members: seq<Member>): Group { Group(route, |members|, members) }

  // Which of the lists finish_group appends to.
  datatype Fate = IsCohort | IsSingleton | IsCanaries | IsDropped

  function FateOf(members: seq<Member>): Fate {
    if MIN_MEMBERS <= |members| <= MAX_MEMBERS then IsCohort
    else if |members| == 1 && DsMembers(members) != [] then IsSingleton
    else if |members| > MAX_MEMBERS && DsMembers(members) != [] then IsCanaries
    else IsDropped
  }

  // finish_group
  function Finished(x: Export, route: Route, members: seq<Member>): Export {
    var ds := DsMembers(members);
    var y := if ds == [] then x else x.(preflight := x.preflight + [Cohort(route, ds)]);
    match FateOf(members)
    case IsCohort => y.(groups := y.groups + [Cohort(route, members)])
    case IsSingleton => y.(priority := y.priority + [Cohort(route, ds)])
    case IsCanaries => y.(canaries := y.canaries + [Cohort(route, Canaries(ds))])
    case IsDropped => y
  }

  // ---------------------------------------------------------------- streaming

  // The routes of a sorted stream in order, once each.
  function Routes(rows: seq<RouteRow>): seq<Route> {
    if rows == [] then []
    else
      var before, route := Routes(rows[..|rows| - 1]), rows[|rows| - 1].route;
      if before != [] && before[|before| - 1] == route then before else before + [route]
  }

  // Grouping by key: the members of one route.
  function MembersOf(rows: seq<RouteRow>, route: Route): seq<Member> {
    if rows == [] then []
    else
      var last := rows[|rows| - 1];
      MembersOf(rows[..|rows| - 1], route) + (if last.route == route then [last.member] else [])
  }

  // All groups of some routes, each finished with its members.
  function Grouped(rows: seq<RouteRow>, routes: seq<Route>): Export {
    if routes == [] then Export([], [], [], [])
    else
      var last := routes[|routes| - 1];
      Finished(Grouped(rows, routes[..|routes| - 1]), last, MembersOf(rows, last))
  }

  ghost predicate Ascend(routes: seq<Route>) {
    forall i, j {:trigger RouteBefore(routes[i], routes[j])} :: 0 <= i < j < |routes| ==>
      RouteBefore(routes[i], routes[j])
  }

  lemma {:induction false} RoutesHave(rows: seq<RouteRow>)
    ensures var routes := Routes(rows);
      && (rows != [] ==> routes != [] && routes[|routes| - 1] == rows[|rows| - 1].route)
      && (forall r :: r in routes <==> exists i :: 0 <= i < |rows| && rows[i].route == r)
  {
    if rows != [] {
      var before := rows[..|rows| - 1];
      RoutesHave(before);
      assert rows[|rows| - 1].route in Routes(rows);
      forall i | 0 <= i < |before| ensures rows[i].route in Routes(rows) { assert before[i].route in Routes(before); }
    }
  }

  lemma {:induction false} RouteAfterAll(routes: seq<Route>, next: Route)
    requires Ascend(routes) && (routes != [] ==> RouteBefore(routes[|routes| - 1], next))
    ensures Ascend(routes + [next])
  {
    forall i | 0 <= i < |routes| ensures RouteBefore(routes[i], next) {
      RouteOrder(routes[i], routes[|routes| - 1], next);
    }
  }

  // The routes of a sorted stream ascend, so none comes back.
  lemma {:induction false} RoutesAscend(rows: seq<RouteRow>)
    requires SortedRows(rows)
    ensures Ascend(Routes(rows))
    ensures rows != [] ==> Routes(rows) != [] && Routes(rows)[|Routes(rows)| - 1] == rows[|rows| - 1].route
    ensures forall r :: r in Routes(rows) <==> exists i :: 0 <= i < |rows| && rows[i].route == r
  {
    RoutesHave(rows);
    if rows != [] {
      var before, last := rows[..|rows| - 1], rows[|rows| - 1];
      PrefixSorted(rows, |rows| - 1);
      RoutesAscend(before);
      if before != [] { assert RowBefore(rows[|rows| - 2], rows[|rows| - 1]); }
      if Routes(rows) != Routes(before) { RouteAfterAll(Routes(before), last.route); }
    }
  }

  lemma {:induction false} MembersNext(rows: seq<RouteRow>, row: RouteRow, route: Route)
    ensures MembersOf(rows + [row], route) == MembersOf(rows, route) + (if row.route == route then [row.member] else [])
  {}

  lemma {:induction false} RoutesNext(rows: seq<RouteRow>, row: RouteRow)
    ensures var before := Routes(rows);
      Routes(rows + [row]) == if before != [] && before[|before| - 1] == row.route then before else before + [row.route]
  {}

  // The groups of routes the next row does not have are complete.
  lemma {:induction false} GroupedKept(rows: seq<RouteRow>, row: RouteRow, routes: seq<Route>)
    requires row.route !in routes
    ensures Grouped(rows + [row], routes) == Grouped(rows, routes)
  {
    if routes != [] {
      var last := |routes| - 1;
      GroupedKept(rows, row, routes[..last]);
      MembersNext(rows, row, routes[last]);
      assert MembersOf(rows + [row], routes[last]) == MembersOf(rows, routes[last]);
    }
  }

  lemma {:induction false} PrefixSorted(rows: seq<RouteRow>, i: nat)
    requires SortedRows(rows) && i <= |rows|
    ensures SortedRows(rows[..i])
  {}

  // The loop after some rows: all routes but the current one are finished.
  ghost predicate Streaming(rows: seq<RouteRow>, current: Option<Route>, members: seq<Member>, x: Export) {
    var routes := Routes(rows);
    if routes == [] then current.None? && x == Export([], [], [], [])
    else current == Some(routes[|routes| - 1]) && members == MembersOf(rows, routes[|routes| - 1])
         && x == Grouped(rows, routes[..|routes| - 1])
  }

  // The export once the current group is finished.
  function Closed(x: Export, current: Option<Route>, members: seq<Member>): Export {
    if current.None? then x else Finished(x, current.value, members)
  }

  lemma {:induction false} ClosedIsGrouped(rows: seq<RouteRow>, current: Option<Route>, members: seq<Member>, x: Export)
    requires Streaming(rows, current, members, x)
    ensures Closed(x, current, members) == Grouped(rows, Routes(rows))
    ensures Routes(rows) != [] ==> current == Some(Routes(rows)[|Routes(rows)| - 1])
  {}

  lemma {:induction false} SameRoute(rows: seq<RouteRow>, row: RouteRow, members: seq<Member>, x: Export)
    requires SortedRows(rows) && Streaming(rows, Some(row.route), members, x)
    ensures Streaming(rows + [row], Some(row.route), members + [row.member], x)
  {
    var routes := Routes(rows);
    RoutesAscend(rows);
    RoutesNext(rows, row);
    MembersNext(rows, row, row.route);
    assert routes == routes[..|routes| - 1] + [row.route];
    AscendDistinct(routes[..|routes| - 1], row.route);
    GroupedKept(rows, row, routes[..|routes| - 1]);
  }

  lemma {:induction false} AscendDistinct(routes: seq<Route>, last: Route)
    requires Ascend(routes + [last])
    ensures last !in routes
  {
    forall k | 0 <= k < |routes| ensures routes[k] != last {
      assert RouteBefore((routes + [last])[k], (routes + [last])[|routes|]);
      RouteOrder(last, last, last);
    }
  }

  // A row of another route than the last one starts a route not met before.
  lemma {:induction false} NewRoute(rows: seq<RouteRow>, row: RouteRow)
    requires SortedRows(rows) && SortedRows(rows + [row])
    requires Routes(rows) == [] || Routes(rows)[|Routes(rows)| - 1] != row.route
    ensures Routes(rows + [row]) == Routes(rows) + [row.route]
    ensures row.route !in Routes(rows) && MembersOf(rows + [row], row.route) == [row.member]
  {
    RoutesNext(rows, row);
    RoutesAscend(rows + [row]);
    AscendDistinct(Routes(rows), row.route);
    NoMembersYet(rows, row.route);
    MembersNext(rows, row, row.route);
  }

  // After a closed group a row of another route starts the next one.
  lemma {:induction false} NextRoute(rows: seq<RouteRow>, row: RouteRow, x: Export)
    requires SortedRows(rows) && SortedRows(rows + [row]) && x == Grouped(rows, Routes(rows))
    requires Routes(rows) == [] || Routes(rows)[|Routes(rows)| - 1] != row.route
    ensures Streaming(rows + [row], Some(row.route), [row.member], x)
  {
    NewRoute(rows, row);
    GroupedKept(rows, row, Routes(rows));
    StartRoute(rows + [row], row, Routes(rows), x);
  }

  lemma {:induction false} StartRoute(rows: seq<RouteRow>, row: RouteRow, routes: seq<Route>, x: Export)
    requires Routes(rows) == routes + [row.route] && MembersOf(rows, row.route) == [row.member]
    requires x == Grouped(rows, routes)
    ensures Streaming(rows, Some(row.route), [row.member], x)
  {}

  lemma {:induction false} NoMembersYet(rows: seq<RouteRow>, route: Route)
    requires SortedRows(rows) && route !in Routes(rows)
    ensures MembersOf(rows, route) == []
  {
    RoutesAscend(rows);
    NoRows(rows, route);
  }

  lemma {:induction false} NoRows(rows: seq<RouteRow>, route: Route)
    requires forall i :: 0 <= i < |rows| ==> rows[i].route != route
    ensures MembersOf(rows, route) == []
  {
    if rows != [] { NoRows(rows[..|rows| - 1], route); }
  }

  // write_hns_handoff_groups: streaming a sorted query groups it by route.
  method WriteHandoffGroups(rows: seq<RouteRow>) returns (x: Export)
    requires SortedRows(rows)
    ensures x == Grouped(rows, Routes(rows))
  {
    x := Export([], [], [], []);
    var current: Option<Route>, members: seq<Member> := None, [];
    for i := 0 to |rows|
      invariant Streaming(rows[..i], current, members, x)
    {
      assert rows[..i + 1] == rows[..i] + [rows[i]];
      PrefixSorted(rows, i);
      PrefixSorted(rows, i + 1);
      if current != Some(rows[i].route) {
        ClosedIsGrouped(rows[..i], current, members, x);
        NextRoute(rows[..i], rows[i], Closed(x, current, members));
        if current.Some? { x := Finished(x, current.value, members); }
        current, members := Some(rows[i].route), [];
        members := members + [rows[i].member];
      } else {
        SameRoute(rows[..i], rows[i], members, x);
        members := members + [rows[i].member];
      }
    }
    assert rows[..|rows|] == rows;
    ClosedIsGrouped(rows, current, members, x);
    if current.Some? { x := Finished(x, current.value, members); }
  }

  // ----------------------------------------------------- what is in the export

  datatype List = Groups | Priority | CanaryGroups | Preflight

  function ListOf(x: Export, list: List): seq<Group> {
    match list
    case Groups => x.groups
    case Priority => x.priority
    case CanaryGroups => x.canaries
    case Preflight => x.preflight
  }

  // What a route with some members contributes to a list.
  function Contributes(list: List, route: Route, members: seq<Member>): Option<Group> {
    var ds, fate := DsMembers(members), FateOf(members);
    match list
    case Groups => if fate.IsCohort? then Some(Cohort(route, members)) else None
    case Priority => if fate.IsSingleton? then Some(Cohort(route, members)) else None
    case CanaryGroups => if fate.IsCanaries? then Some(Cohort(route, Canaries(ds))) else None
    case Preflight => if ds != [] then Some(Cohort(route, ds)) else None
  }

  ghost predicate Lists(groups: seq<Group>, list: List, rows: seq<RouteRow>, routes: seq<Route>) {
    forall g :: g in groups <==> g.route in routes && Contributes(list, g.route, MembersOf(rows, g.route)) == Some(g)
  }

  lemma {:induction false} SingletonDs(members: seq<Member>)
    requires FateOf(members).IsSingleton?
    ensures DsMembers(members) == members
  {}

  lemma {:induction false} FinishedAppends(x: Export, list: List, route: Route, members: seq<Member>)
    ensures var more := Contributes(list, route, members);
      ListOf(Finished(x, route, members), list) == ListOf(x, list) + (if more.Some? then [more.value] else [])
  {
    if FateOf(members).IsSingleton? { SingletonDs(members); }
  }

  // Each list holds exactly what its routes contribute: a route is a cohort, a
  // DS singleton, DS canaries or dropped, and its DS members are one preflight
  // group.
  lemma {:induction false} ExportByRoute(rows: seq<RouteRow>, routes: seq<Route>, list: List)
    ensures Lists(ListOf(Grouped(rows, routes), list), list, rows, routes)
  {
    if routes != [] {
      var before, last := routes[..|routes| - 1], routes[|routes| - 1];
      assert routes == before + [last];
      ExportByRoute(rows, before, list);
      FinishedAppends(Grouped(rows, before), list, last, MembersOf(rows, last));
    }
  }

  // No route is in two of the bounded lists, and a route is in none of them
  // only if it has one member without DS or too many members without any.
  lemma {:induction false} OneFate(route: Route, members: seq<Member>)
    ensures Contributes(Groups, route, members).Some? ==>
      Contributes(Priority, route, members).None? && Contributes(CanaryGroups, route, members).None?
    ensures Contributes(Priority, route, members).Some? ==> Contributes(CanaryGroups, route, members).None?
    ensures (forall list: List :: list != Preflight ==> Contributes(list, route, members).None?) <==>
      members == [] || (DsMembers(members) == [] && (|members| == 1 || |members| > MAX_MEMBERS))
  {
    if forall list: List :: list != Preflight ==> Contributes(list, route, members).None? {
      assert Contributes(Groups, route, members).None? && Contributes(Priority, route, members).None?
             && Contributes(CanaryGroups, route, members).None?;
    }
  }

  lemma {:induction false} MembersHave(rows: seq<RouteRow>, route: Route, m: Member)
    ensures m in MembersOf(rows, route) <==> exists i :: 0 <= i < |rows| && rows[i] == RouteRow(route, m)
  {
    if rows != [] {
      MembersHave(rows[..|rows| - 1], route, m);
    }
  }

  lemma {:induction false} DsMembersHave(members: seq<Member>, m: Member)
    ensures m in DsMembers(members) <==> m in members && m.hasDs
  {
    if members != [] {
      DsMembersHave(members[..|members| - 1], m);
      assert members == members[..|members| - 1] + [members[|members| - 1]];
    }
  }

  // A preflight group holds exactly the DS-backed names of its route; every
  // such name is in the group of its own route and in no other.
  lemma {:induction false} PreflightHas(rows: seq<RouteRow>, g: Group, m: Member)
    requires g in Grouped(rows, Routes(rows)).preflight
    ensures m in g.members <==> m.hasDs && exists i :: 0 <= i < |rows| && rows[i] == RouteRow(g.route, m)
  {
    ExportByRoute(rows, Routes(rows), Preflight);
    assert g in ListOf(Grouped(rows, Routes(rows)), Preflight);
    DsMembersHave(MembersOf(rows, g.route), m);
    MembersHave(rows, g.route, m);
  }

  lemma {:induction false} PreflightOfRow(rows: seq<RouteRow>, i: nat) returns (g: Group)
    requires SortedRows(rows) && i < |rows| && rows[i].member.hasDs
    ensures g in Grouped(rows, Routes(rows)).preflight && g.route == rows[i].route && rows[i].member in g.members
  {
    var route, m := rows[i].route, rows[i].member;
    RoutesAscend(rows);
    ExportByRoute(rows, Routes(rows), Preflight);
    MembersHave(rows, route, m);
    DsMembersHave(MembersOf(rows, route), m);
    g := Cohort(route, DsMembers(MembersOf(rows, route)));
    assert Contributes(Preflight, route, MembersOf(rows, route)) == Some(g);
    assert g in ListOf(Grouped(rows, Routes(rows)), Preflight);
  }

  lemma {:induction false} PreflightRow(rows: seq<RouteRow>, g: Group, m: Member) returns (i: nat)
    requires g in Grouped(rows, Routes(rows)).preflight && m in g.members
    ensures i < |rows| && rows[i] == RouteRow(g.route, m)
    ensures Contributes(Preflight, g.route, MembersOf(rows, g.route)) == Some(g)
  {
    PreflightHas(rows, g, m);
    ExportByRoute(rows, Routes(rows), Preflight);
    assert g in ListOf(Grouped(rows, Routes(rows)), Preflight);
    i :| 0 <= i < |rows| && rows[i] == RouteRow(g.route, m);
  }

  lemma {:induction false} OneRow(rows: seq<RouteRow>, i: nat, j: nat)
    requires OneRouteEach(rows) && i < |rows| && j < |rows| && rows[i].member.name == rows[j].member.name
    ensures i == j
  {}

  lemma {:induction false} PreflightOnce(rows: seq<RouteRow>, g: Group, h: Group, m: Member, n: Member)
    requires SortedRows(rows) && OneRouteEach(rows)
    requires g in Grouped(rows, Routes(rows)).preflight && h in Grouped(rows, Routes(rows)).preflight
    requires m in g.members && n in h.members && m.name == n.name
    ensures g == h && m == n
  {
    var i := PreflightRow(rows, g, m);
    var j := PreflightRow(rows, h, n);
    OneRow(rows, i, j);
  }
}
