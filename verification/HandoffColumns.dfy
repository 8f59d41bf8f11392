// Where the names of a route go, by how many they are and how many have DS
// records.
module HandoffColumns {
  import opened Text
  import opened Tables
  import opened Handoff

  // The rows of a route, and those of them with DS records.
  function RowsOf(rows: seq<RouteRow>, route: Route): set<RouteRow> { set r | r in rows && r.route == route }

  function DsRowsOf(rows: seq<RouteRow>, route: Route): set<RouteRow> {
    set r | r in rows && r.route == route && r.member.hasDs
  }

  ghost predicate InList(groups: seq<Group>, route: Route) { exists g :: g in groups && g.route == route }

  lemma {:induction false} OneMoreRow(before: seq<RouteRow>, last: RouteRow, route: Route)
    requires last !in before
    ensures |RowsOf(before + [last], route)| == |RowsOf(before, route)| + if last.route == route then 1 else 0
  {
    assert RowsOf(before + [last], route) == RowsOf(before, route) + (if last.route == route then {last} else {});
  }

  lemma {:induction false} OneMoreDsRow(before: seq<RouteRow>, last: RouteRow, route: Route)
    requires last !in before
    ensures |DsRowsOf(before + [last], route)|
         == |DsRowsOf(before, route)| + if last.route == route && last.member.hasDs then 1 else 0
  {
    assert DsRowsOf(before + [last], route)
        == DsRowsOf(before, route) + (if last.route == route && last.member.hasDs then {last} else {});
  }

  lemma {:induction false} OneMoreMember(before: seq<RouteRow>, last: RouteRow, route: Route)
    ensures var members := MembersOf(before, route);
      MembersOf(before + [last], route) == if last.route == route then members + [last.member] else members
  {
    assert (before + [last])[..|before|] == before;
  }

  lemma {:induction false} OneMoreDs(members: seq<Member>, m: Member)
    ensures |DsMembers(members + [m])| == |DsMembers(members)| + if m.hasDs then 1 else 0
  {
    assert (members + [m])[..|members|] == members;
  }

  lemma {:induction false} LastIsNew(before: seq<RouteRow>, last: RouteRow)
    requires OneRouteEach(before + [last])
    ensures OneRouteEach(before) && last !in before
  {
    var rows := before + [last];
    forall i, j | 0 <= i < j < |before| ensures before[i].member.name != before[j].member.name {
      assert rows[i].member.name != rows[j].member.name;
    }
    forall i | 0 <= i < |before| ensures before[i] != last {
      assert rows[i].member.name != rows[|before|].member.name;
    }
  }

  lemma {:induction false} CountMembers(rows: seq<RouteRow>, route: Route)
    requires OneRouteEach(rows)
    ensures |MembersOf(rows, route)| == |RowsOf(rows, route)|
    ensures |DsMembers(MembersOf(rows, route))| == |DsRowsOf(rows, route)|
  {
    if rows != [] {
      var before, last := rows[..|rows| - 1], rows[|rows| - 1];
      assert rows == before + [last];
      LastIsNew(before, last);
      CountMembers(before, route);
      OneMoreRow(before, last, route);
      OneMoreDsRow(before, last, route);
      OneMoreMember(before, last, route);
      if last.route == route { OneMoreDs(MembersOf(before, route), last.member); }
    }
  }

  // A route with two to 250 names is a cohort; one with a single name and DS
  // records a singleton; one with more is its canaries, if any have DS records;
  // and whatever its number is, it is a preflight group if any have.
  lemma {:induction false} ListsByNumber(rows: seq<RouteRow>, route: Route)
    requires OneRouteEach(rows)
    ensures var x, all, ds := Grouped(rows, Routes(rows)), |RowsOf(rows, route)|, |DsRowsOf(rows, route)|;
      && (InList(x.groups, route) <==> 2 <= all <= 250)
      && (InList(x.priority, route) <==> all == 1 && ds == 1)
      && (InList(x.canaries, route) <==> all > 250 && ds > 0)
      && (InList(x.preflight, route) <==> ds > 0)
  {
    CountMembers(rows, route);
    ListHolds(rows, route, Groups);
    ListHolds(rows, route, Priority);
    ListHolds(rows, route, CanaryGroups);
    ListHolds(rows, route, Preflight);
  }

  lemma {:induction false} ListHolds(rows: seq<RouteRow>, route: Route, list: List)
    requires OneRouteEach(rows)
    ensures InList(ListOf(Grouped(rows, Routes(rows)), list), route) <==>
      Contributes(list, route, MembersOf(rows, route)).Some?
  {
    var members := MembersOf(rows, route);
    ExportByRoute(rows, Routes(rows), list);
    var c := Contributes(list, route, members);
    if c.Some? {
      assert c.value.route == route;
      RouteIsListed(rows, route);
      assert c.value in ListOf(Grouped(rows, Routes(rows)), list);
    }
  }

  lemma {:induction false} RouteIsListed(rows: seq<RouteRow>, route: Route)
    requires MembersOf(rows, route) != []
    ensures route in Routes(rows)
  {
    RoutesHave(rows);
    var m := MembersOf(rows, route)[0];
    MembersHave(rows, route, m);
  }

  lemma {:induction false} GroupIs(rows: seq<RouteRow>, g: Group, list: List)
    requires g in ListOf(Grouped(rows, Routes(rows)), list)
    ensures Contributes(list, g.route, MembersOf(rows, g.route)) == Some(g)
  {
    ExportByRoute(rows, Routes(rows), list);
  }

  // The members of a group that its list takes from those of the route.
  ghost predicate Holds(list: List, g: Group, members: seq<Member>, m: Member) {
    && g.memberCount == |g.members|
    && match list
       case Preflight => m in g.members <==> m in members && m.hasDs
       case CanaryGroups => |g.members| <= 3 && (m in g.members ==> m in members && m.hasDs)
       case _ => m in g.members <==> m in members
  }

  lemma {:induction false} ContributesHolds(list: List, g: Group, members: seq<Member>, m: Member)
    requires Contributes(list, g.route, members) == Some(g)
    ensures Holds(list, g, members, m)
  {
    DsMembersHave(members, m);
    CanariesAmong(DsMembers(members));
  }

  // A group holds the names of its route; a preflight group those with DS
  // records; canaries up to three of these. It counts them.
  lemma {:induction false} GroupHas(rows: seq<RouteRow>, g: Group, list: List, m: Member)
    requires g in ListOf(Grouped(rows, Routes(rows)), list)
    ensures g.memberCount == |g.members|
    ensures list == Groups || list == Priority ==> (m in g.members <==> RouteRow(g.route, m) in rows)
    ensures list == Preflight ==> (m in g.members <==> RouteRow(g.route, m) in rows && m.hasDs)
    ensures list == CanaryGroups ==> |g.members| <= 3 && (m in g.members ==> RouteRow(g.route, m) in rows && m.hasDs)
  {
    GroupIs(rows, g, list);
    ContributesHolds(list, g, MembersOf(rows, g.route), m);
    MembersHave(rows, g.route, m);
  }

  lemma {:induction false} CanariesAmong(members: seq<Member>)
    ensures forall m :: m in Canaries(members) ==> m in members
  {}
}
