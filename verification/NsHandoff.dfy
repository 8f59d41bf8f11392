// Routes of names whose nameservers live under another Handshake name: the
// first nameserver whose root can be bootstrapped, and that root's address.
module NsHandoff {
  import opened Text
  import opened Tables
  import opened Handoff

  // A root that hosts nameservers, with its flags and its four address lists.
  datatype Host = Host(expired: bool, hasGlue: bool, hasSynth: bool,
                       glue4: seq<string>, glue6: seq<string>, synth4: seq<string>, synth6: seq<string>)

  // A name of the source query: delegated, without glue or synthetic records.
  datatype Source = Source(member: Member, nsNames: seq<string>)

  // nameserver_hns_root: the last label of a normalised name.
  function LastLabel(s: string): string {
    if s == "" || s[|s| - 1] == '.' then "" else LastLabel(s[..|s| - 1]) + [s[|s| - 1]]
  }

  function HnsRoot(nameserver: string): string { LastLabel(PlainName(nameserver)) }

  lemma {:induction false} LastLabelIs(s: string) returns (prefix: string)
    ensures s == prefix + LastLabel(s) && '.' !in LastLabel(s)
    ensures prefix == "" || prefix[|prefix| - 1] == '.'
    ensures s != "" && s[|s| - 1] != '.' ==> LastLabel(s) != ""
  {
    if s == "" || s[|s| - 1] == '.' {
      prefix := s;
      assert s == s + "";
    } else {
      var before := s[..|s| - 1];
      prefix := LastLabelIs(before);
      assert s == before + [s[|s| - 1]];
      assert s == prefix + (LastLabel(before) + [s[|s| - 1]]);
    }
  }

  // The root of a nameserver is the label behind its last dot, and empty only
  // for an empty nameserver.
  lemma {:induction false} HnsRootIs(nameserver: string)
    ensures var plain, root := PlainName(nameserver), HnsRoot(nameserver);
      && (root == "" <==> plain == "") && '.' !in root
      && (plain == root || exists prefix: string :: plain == prefix + "." + root)
  {
    var plain := PlainName(nameserver);
    TrimmedEnd(Lower(Strip(nameserver)), Dots);
    var before := LastLabelIs(plain);
    if before != "" {
      var prefix := before[..|before| - 1];
      assert before == prefix + ".";
      assert plain == prefix + "." + HnsRoot(nameserver);
    }
  }

  // ---------------------------------------------------------------- one name

  // The nameserver's root exists, is not expired and has glue or synth records.
  predicate Usable(hosts: map<string, Host>, nameserver: string) {
    var root := HnsRoot(nameserver);
    PlainName(nameserver) != "" && root != "" && root in hosts && !hosts[root].expired
      && (hosts[root].hasGlue || hosts[root].hasSynth)
  }

  // NULLIF(json_extract(list, '$[0]'), '')
  function Head(addresses: seq<string>): Option<string> {
    if addresses == [] || addresses[0] == "" then None else Some(addresses[0])
  }

  // COALESCE over synth4, glue4, synth6, glue6.
  function Bootstrap(h: Host): Option<(string, Field)> {
    if Head(h.synth4).Some? then Some((h.synth4[0], SYNTH4))
    else if Head(h.glue4).Some? then Some((h.glue4[0], GLUE4))
    else if Head(h.synth6).Some? then Some((h.synth6[0], SYNTH6))
    else if Head(h.glue6).Some? then Some((h.glue6[0], GLUE6))
    else None
  }

  // The candidate of rank one: the first usable nameserver.
  function FirstUsable(hosts: map<string, Host>, nsNames: seq<string>): Option<string> {
    if nsNames == [] then None
    else if Usable(hosts, nsNames[0]) then Some(nsNames[0])
    else FirstUsable(hosts, nsNames[1..])
  }

  // A name's row of the route table, if it has a bootstrap address.
  function RouteOf(hosts: map<string, Host>, s: Source): Option<RouteRow> {
    var ns := FirstUsable(hosts, s.nsNames);
    if ns.None? then None
    else
      var root := HnsRoot(ns.value);
      var address := if root in hosts then Bootstrap(hosts[root]) else None;
      if address.None? then None
      else Some(RouteRow(Route(PlainName(ns.value), root, address.value.0, address.value.1), s.member))
  }

  predicate IsFirstUsable(hosts: map<string, Host>, nsNames: seq<string>, i: nat) {
    i < |nsNames| && Usable(hosts, nsNames[i]) && forall j :: 0 <= j < i ==> !Usable(hosts, nsNames[j])
  }

  lemma {:induction false} FirstUsableIs(hosts: map<string, Host>, nsNames: seq<string>)
    ensures FirstUsable(hosts, nsNames).None? <==> forall i :: 0 <= i < |nsNames| ==> !Usable(hosts, nsNames[i])
    ensures FirstUsable(hosts, nsNames).Some? ==>
      exists i: nat :: IsFirstUsable(hosts, nsNames, i) && FirstUsable(hosts, nsNames) == Some(nsNames[i])
  {
    if nsNames != [] {
      if Usable(hosts, nsNames[0]) {
        assert IsFirstUsable(hosts, nsNames, 0);
      } else {
        FirstUsableIs(hosts, nsNames[1..]);
        if i: nat :|
          IsFirstUsable(hosts, nsNames[1..], i) && FirstUsable(hosts, nsNames[1..]) == Some(nsNames[1..][i])
        {
          assert nsNames[1..][i] == nsNames[i + 1];
          assert IsFirstUsable(hosts, nsNames, i + 1);
        }
        assert forall i :: 0 < i < |nsNames| ==> nsNames[i] == nsNames[1..][i - 1];
      }
    }
  }

  // A name has a route exactly if the first usable of its nameservers is hosted
  // by a root with an address; a later nameserver never stands in for it.
  lemma {:induction false} RoutedIff(hosts: map<string, Host>, s: Source)
    ensures RouteOf(hosts, s).Some? <==>
      exists i: nat :: IsFirstUsable(hosts, s.nsNames, i) && Bootstrap(hosts[HnsRoot(s.nsNames[i])]).Some?
    ensures RouteOf(hosts, s).Some? ==> RouteOf(hosts, s).value.member == s.member
  {
    FirstUsableIs(hosts, s.nsNames);
    if i: nat :| IsFirstUsable(hosts, s.nsNames, i) {
      var k: nat :| IsFirstUsable(hosts, s.nsNames, k) && FirstUsable(hosts, s.nsNames) == Some(s.nsNames[k]);
      OneFirst(hosts, s.nsNames, i, k);
    }
  }

  lemma {:induction false} OneFirst(hosts: map<string, Host>, nsNames: seq<string>, i: nat, k: nat)
    requires IsFirstUsable(hosts, nsNames, i) && IsFirstUsable(hosts, nsNames, k)
    ensures i == k
  {}

  // ------------------------------------------------------------- the whole table

  ghost predicate KeyedByName(sources: set<Source>) {
    forall a, b :: a in sources && b in sources && a.member.name == b.member.name ==> a == b
  }

  function RouteSet(sources: set<Source>, hosts: map<string, Host>): set<RouteRow> {
    set s | s in sources && RouteOf(hosts, s).Some? :: RouteOf(hosts, s).value
  }

  lemma {:induction false} RouteTotal(a: Route, b: Route)
    ensures RouteBefore(a, b) || RouteBefore(b, a) || a == b
  {
    LessTotal(a.nameserver, b.nameserver);
    LessTotal(a.root, b.root);
    LessTotal(a.ip, b.ip);
  }

  lemma {:induction false} RowOrder(a: RouteRow, b: RouteRow, c: RouteRow)
    ensures RowBefore(a, b) && RowBefore(b, c) ==> RowBefore(a, c)
    ensures RowBefore(a, b) || RowBefore(b, a) || (a.route == b.route && a.member.name == b.member.name)
  {
    RouteOrder(a.route, b.route, c.route);
    RouteTotal(a.route, b.route);
    LessTotal(a.member.name, b.member.name);
    if Less(a.member.name, b.member.name) && Less(b.member.name, c.member.name) {
      LessTransitive(a.member.name, b.member.name, c.member.name);
    }
  }

  lemma {:induction false} OneRouteAName(sources: set<Source>, hosts: map<string, Host>, a: RouteRow, b: RouteRow)
    requires KeyedByName(sources) && a in RouteSet(sources, hosts) && b in RouteSet(sources, hosts)
    requires a.member.name == b.member.name
    ensures a == b
  {
    var s :| s in sources && RouteOf(hosts, s) == Some(a);
    var t :| t in sources && RouteOf(hosts, t) == Some(b);
    RoutedIff(hosts, s);
    RoutedIff(hosts, t);
  }

  // prepare_temp_ns_handoff_table and the ordered query over it: at most one
  // route a name, in the order the groups are streamed in.
  method RouteRows(sources: set<Source>, hosts: map<string, Host>) returns (rows: seq<RouteRow>)
    requires KeyedByName(sources)
    ensures SortedRows(rows) && OneRouteEach(rows)
    ensures forall r :: r in rows <==> r in RouteSet(sources, hosts)
  {
    var routes := RouteSet(sources, hosts);
    RowsTotal(sources, hosts);
    rows := SortSet(routes, RowBefore);
    OneEach(sources, hosts, rows);
  }

  lemma {:induction false} RowsTotal(sources: set<Source>, hosts: map<string, Host>)
    requires KeyedByName(sources)
    ensures StrictTotal(RouteSet(sources, hosts), RowBefore)
  {
    var routes := RouteSet(sources, hosts);
    forall a, b | a in routes && b in routes && a != b ensures RowBefore(a, b) || RowBefore(b, a) {
      RowOrder(a, b, b);
      if a.member.name == b.member.name { OneRouteAName(sources, hosts, a, b); }
    }
    forall a, b, c | a in routes && b in routes && c in routes && RowBefore(a, b) && RowBefore(b, c)
      ensures RowBefore(a, c)
    {
      RowOrder(a, b, c);
    }
  }

  lemma {:induction false} OneEach(sources: set<Source>, hosts: map<string, Host>, rows: seq<RouteRow>)
    requires KeyedByName(sources) && OrderedBy(rows, RowBefore)
    requires forall r :: r in rows ==> r in RouteSet(sources, hosts)
    ensures SortedRows(rows) && OneRouteEach(rows)
  {
    forall i, j | 0 <= i < j < |rows|
      ensures RowBefore(rows[i], rows[j]) && rows[i].member.name != rows[j].member.name
    {
      assert rows[i] in rows && rows[j] in rows;
      RouteOrder(rows[i].route, rows[i].route, rows[i].route);
      LessIrreflexive(rows[i].member.name);
      assert rows[i] != rows[j];
      NamesDiffer(sources, hosts, rows[i], rows[j]);
    }
  }

  lemma {:induction false} NamesDiffer(sources: set<Source>, hosts: map<string, Host>, a: RouteRow, b: RouteRow)
    requires KeyedByName(sources) && a in RouteSet(sources, hosts) && b in RouteSet(sources, hosts) && a != b
    ensures a.member.name != b.member.name
  {
    if a.member.name == b.member.name { OneRouteAName(sources, hosts, a, b); }
  }

  // From the tables to the exported groups.
  method ExportGroups(sources: set<Source>, hosts: map<string, Host>) returns (rows: seq<RouteRow>, x: Export)
    requires KeyedByName(sources)
    ensures x == Grouped(rows, Routes(rows)) && SortedRows(rows) && OneRouteEach(rows)
    ensures forall r :: r in rows <==> r in RouteSet(sources, hosts)
  {
    rows := RouteRows(sources, hosts);
    x := WriteHandoffGroups(rows);
  }
}
