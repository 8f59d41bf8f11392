// A name's route on the columns of its nameservers' roots.
module RouteColumns {
  import opened Text
  import opened Tables
  import opened Handoff
  import opened NsHandoff

  // The root of this nameserver is live and has addresses of its own.
  predicate Hosted(hosts: map<string, Host>, nameserver: string) {
    var root := HnsRoot(nameserver);
    root != "" && root in hosts && !hosts[root].expired && (hosts[root].hasGlue || hosts[root].hasSynth)
  }

  predicate Starts(addresses: seq<string>, ip: string) { |addresses| > 0 && addresses[0] == ip && ip != "" }

  predicate Blank(addresses: seq<string>) { |addresses| > 0 ==> addresses[0] == "" }

  // The first synthetic IPv4 address, else the first IPv4 glue, else the same of
  // IPv6.
  predicate Reaches(h: Host, ip: string, field: Field) {
    match field
    case SYNTH4 => Starts(h.synth4, ip)
    case GLUE4 => Blank(h.synth4) && Starts(h.glue4, ip)
    case SYNTH6 => Blank(h.synth4) && Blank(h.glue4) && Starts(h.synth6, ip)
    case GLUE6 => Blank(h.synth4) && Blank(h.glue4) && Blank(h.synth6) && Starts(h.glue6, ip)
  }

  lemma {:induction false} BootstrapIs(h: Host, ip: string, field: Field)
    ensures Bootstrap(h) == Some((ip, field)) <==> Reaches(h, ip, field)
  {}

  lemma {:induction false} UsableIs(hosts: map<string, Host>, nameserver: string)
    ensures Usable(hosts, nameserver) <==> Hosted(hosts, nameserver)
  {
    HnsRootIs(nameserver);
  }

  // The `i`th nameserver is the first that is hosted, and the row is that of its
  // root.
  ghost predicate RoutedBy(hosts: map<string, Host>, s: Source, row: RouteRow, i: nat) {
    && i < |s.nsNames| && Hosted(hosts, s.nsNames[i]) && (forall j :: 0 <= j < i ==> !Hosted(hosts, s.nsNames[j]))
    && row.member == s.member
    && row.route.nameserver == TrimRight(Lower(Strip(s.nsNames[i])), Dots) && row.route.root == HnsRoot(s.nsNames[i])
    && Reaches(hosts[HnsRoot(s.nsNames[i])], row.route.ip, row.route.field)
  }

  lemma {:induction false} RouteIs(hosts: map<string, Host>, s: Source, row: RouteRow)
    ensures RouteOf(hosts, s) == Some(row) <==> exists i: nat :: RoutedBy(hosts, s, row, i)
  {
    FirstUsableIs(hosts, s.nsNames);
    forall n ensures Usable(hosts, n) <==> Hosted(hosts, n) { UsableIs(hosts, n); }
    forall h: Host
      ensures Bootstrap(h) == Some((row.route.ip, row.route.field)) <==> Reaches(h, row.route.ip, row.route.field)
    {
      BootstrapIs(h, row.route.ip, row.route.field);
    }
    if RouteOf(hosts, s) == Some(row) {
      var i: nat :| IsFirstUsable(hosts, s.nsNames, i) && FirstUsable(hosts, s.nsNames) == Some(s.nsNames[i]);
      assert Bootstrap(hosts[HnsRoot(s.nsNames[i])]) == Some((row.route.ip, row.route.field));
      assert RoutedBy(hosts, s, row, i);
    }
    if i: nat :| RoutedBy(hosts, s, row, i) {
      assert IsFirstUsable(hosts, s.nsNames, i);
      var k: nat :| IsFirstUsable(hosts, s.nsNames, k) && FirstUsable(hosts, s.nsNames) == Some(s.nsNames[k]);
      OneFirst(hosts, s.nsNames, i, k);
      assert Bootstrap(hosts[HnsRoot(s.nsNames[i])]) == Some((row.route.ip, row.route.field));
    }
  }

  // The stream is in the order of nameserver, root, address and field, and in
  // one route by name.
  ghost predicate InOrder(a: RouteRow, b: RouteRow) {
    var r, q := a.route, b.route;
    && !Less(q.nameserver, r.nameserver)
    && (r.nameserver == q.nameserver ==> !Less(q.root, r.root))
    && (r.nameserver == q.nameserver && r.root == q.root ==> !Less(q.ip, r.ip))
    && (r.nameserver == q.nameserver && r.root == q.root && r.ip == q.ip ==>
          !(q.field.GLUE4? && !r.field.GLUE4?) && !(r.field.SYNTH6? && !q.field.SYNTH6?)
          && !(q.field.GLUE6? && r.field.SYNTH4?))
    && (r == q ==> Less(a.member.name, b.member.name))
  }

  lemma {:induction false} StreamOrder(rows: seq<RouteRow>, i: nat, j: nat)
    requires SortedRows(rows) && i < j < |rows|
    ensures InOrder(rows[i], rows[j])
  {
    var a, b := rows[i].route, rows[j].route;
    assert RowBefore(rows[i], rows[j]);
    NotBack(a.nameserver, b.nameserver);
    NotBack(a.root, b.root);
    NotBack(a.ip, b.ip);
    RouteOrder(a, a, a);
  }

  lemma {:induction false} NotBack(a: string, b: string)
    ensures Less(a, b) ==> a != b && !Less(b, a)
    ensures !Less(a, a)
  {
    LessIrreflexive(a);
    if Less(a, b) && Less(b, a) { LessTransitive(a, b, a); }
  }
}
