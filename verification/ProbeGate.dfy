// Probing a host: address resolution, authenticated HTTPS over several
// addresses, and the DNSSEC gate in front of publication.
module ProbeGate {
  import opened Text
  import opened LiveModels

  // ------------------------------------------------------- what the network says

  datatype Dnssec = NotChecked | Unsigned | Valid | Rejected | ResolverValidated | ResolverUnverified | Unknown

  // The trusted resolver: the AD flag of each address response, the addresses,
  // and the addresses whose certificate its secure TLSA records match.
  datatype Doh = Doh(configured: bool, adFlags: seq<bool>, addresses: seq<string>, danes: set<string>)

  // One round of authoritative DNS: the servers found, whether they answered,
  // the addresses, and whether the keys validate against the parent's DS records.
  datatype DnsWorld = DnsWorld(
    servers: seq<string>, answered: bool, addresses: seq<string>, validates: bool, danes: set<string>,
    doh: Doh, publicIps: set<string>)

  // HTTP answers by address; HTTPS answers by address, with WebPKI's verdict.
  datatype WebWorld = WebWorld(http: set<string>, https: map<string, bool>)

  datatype Probed = Probed(hasDs: bool, preflight: bool)

  // --------------------------------------------------------------------- results

  datatype Dns = Dns(status: DnsStatus, addresses: seq<string>, dnssec: Dnssec, danes: set<string>)

  datatype Web = WebNotChecked | WebFailed | Response(address: string, webpki: bool)

  // Python's xs[:n].
  function Take<T>(xs: seq<T>, n: int): seq<T> {
    if n >= |xs| then xs else if n >= 0 then xs[..n] else if |xs| + n > 0 then xs[..|xs| + n] else []
  }

  function Public(addresses: seq<string>, publicIps: set<string>): seq<string> {
    if addresses == [] then []
    else
      var before, last := Public(addresses[..|addresses| - 1], publicIps), addresses[|addresses| - 1];
      if last in publicIps && last !in before then before + [last] else before
  }

  predicate AllTrue(flags: seq<bool>) { forall i :: 0 <= i < |flags| ==> flags[i] }

  // _resolve_hns_doh
  function ResolveDoh(w: DnsWorld, maxAddresses: int, details: bool): Option<Dns> {
    var dnssec := if w.doh.adFlags != [] && AllTrue(w.doh.adFlags) then ResolverValidated else ResolverUnverified;
    var addresses := Public(w.doh.addresses, w.publicIps);
    if !w.doh.configured then None
    else if addresses != [] then
      Some(Dns(Resolved, Take(addresses, maxAddresses), dnssec, if details then w.doh.danes else {}))
    else if w.doh.adFlags != [] then Some(Dns(NoAddress, [], dnssec, {}))
    else None
  }

  // probe_dns
  function ProbeDns(c: Probed, w: DnsWorld, maxAddresses: int, details: bool): Dns {
    var doh := ResolveDoh(w, maxAddresses, details);
    if c.preflight || w.servers == [] then
      if doh.Some? then doh.value else Dns(NoBootstrap, [], Unknown, {})
    else
      var addresses := Public(w.addresses, w.publicIps);
      var dnssec :=
        if !details then NotChecked else if !c.hasDs then Unsigned else if w.validates then Valid else Rejected;
      if addresses == [] && doh.Some? then doh.value
      else
        Dns(if addresses != [] then Resolved else if w.answered then NoAddress else DnsUnreachable,
            Take(addresses, maxAddresses), dnssec, if details then w.danes else {})
  }

  // Addresses are reported only by a resolved probe.
  lemma {:induction false} AddressesOnlyResolved(c: Probed, w: DnsWorld, maxAddresses: int, details: bool)
    ensures ProbeDns(c, w, maxAddresses, details).addresses != [] ==>
      ProbeDns(c, w, maxAddresses, details).status.Resolved?
  {}

  // ------------------------------------------------------------------ the web

  function HttpsAt(web: WebWorld, address: string): Web {
    if address in web.https then Response(address, web.https[address]) else WebFailed
  }

  // _probe_web for a single address: the limit applies here too.
  function ProbeHttpsAt(web: WebWorld, address: string, maxAddresses: int): Web {
    if Take([address], maxAddresses) == [] then WebFailed else HttpsAt(web, address)
  }

  predicate DaneValid(d: Dns, r: Web) { r.Response? && r.address in d.danes }

  predicate Authenticated(d: Dns, r: Web) { r.Response? && (r.webpki || DaneValid(d, r)) }

  // _probe_web over http: the first address that answers.
  method ProbeHttp(addresses: seq<string>, web: WebWorld, maxAddresses: int) returns (r: Web)
    ensures r.Response? <==> exists a :: a in Take(addresses, maxAddresses) && a in web.http
    ensures addresses == [] ==> r == WebNotChecked
  {
    if addresses == [] { return WebNotChecked; }
    var tried := Take(addresses, maxAddresses);
    for i := 0 to |tried|
      invariant forall k :: 0 <= k < i ==> tried[k] !in web.http
    {
      if tried[i] in web.http { return Response(tried[i], false); }
    }
    r := WebFailed;
  }

  // The https answer of the `k`th address tried.
  function HttpsOf(d: Dns, web: WebWorld, maxAddresses: int, k: nat): Web
    requires k < |Take(d.addresses, maxAddresses)|
  {
    ProbeHttpsAt(web, Take(d.addresses, maxAddresses)[k], maxAddresses)
  }

  // The `k`th address tried is the first one whose answer authenticates.
  ghost predicate FirstAuthenticated(d: Dns, web: WebWorld, maxAddresses: int, k: nat) {
    && k < |Take(d.addresses, maxAddresses)| && Authenticated(d, HttpsOf(d, web, maxAddresses, k))
    && forall j :: 0 <= j < k ==> !Authenticated(d, HttpsOf(d, web, maxAddresses, j))
  }

  // The `k`th address tried is the first one that answers.
  ghost predicate FirstAnswer(d: Dns, web: WebWorld, maxAddresses: int, k: nat) {
    && k < |Take(d.addresses, maxAddresses)| && HttpsOf(d, web, maxAddresses, k).Response?
    && forall j :: 0 <= j < k ==> !HttpsOf(d, web, maxAddresses, j).Response?
  }

  ghost predicate NoneAuthenticated(d: Dns, web: WebWorld, maxAddresses: int) {
    forall k :: 0 <= k < |Take(d.addresses, maxAddresses)| ==> !Authenticated(d, HttpsOf(d, web, maxAddresses, k))
  }

  ghost predicate NoneAnswers(d: Dns, web: WebWorld, maxAddresses: int) {
    forall k :: 0 <= k < |Take(d.addresses, maxAddresses)| ==> !HttpsOf(d, web, maxAddresses, k).Response?
  }

  // What the HTTPS loop settles on: the first authenticated answer, else the
  // first answer, else a failure.
  ghost predicate HttpsChoice(d: Dns, web: WebWorld, maxAddresses: int, r: Web) {
    || (exists k: nat :: FirstAuthenticated(d, web, maxAddresses, k) && r == HttpsOf(d, web, maxAddresses, k))
    || (&& NoneAuthenticated(d, web, maxAddresses)
        && exists k: nat :: FirstAnswer(d, web, maxAddresses, k) && r == HttpsOf(d, web, maxAddresses, k))
    || (&& NoneAnswers(d, web, maxAddresses)
        && r == if Take(d.addresses, maxAddresses) == [] then WebNotChecked else WebFailed)
  }

  // _probe_authenticated_https
  method ProbeAuthenticatedHttps(d: Dns, web: WebWorld, maxAddresses: int) returns (r: Web)
    ensures HttpsChoice(d, web, maxAddresses, r)
  {
    var tried := Take(d.addresses, maxAddresses);
    if tried == [] { return WebNotChecked; }
    var first: Option<Web> := None;
    ghost var at := 0;
    for i := 0 to |tried|
      invariant forall k :: 0 <= k < i ==> !Authenticated(d, HttpsOf(d, web, maxAddresses, k))
      invariant first.None? ==> forall k :: 0 <= k < i ==> !HttpsOf(d, web, maxAddresses, k).Response?
      invariant first.Some? ==>
        FirstAnswer(d, web, maxAddresses, at) && first.value == HttpsOf(d, web, maxAddresses, at)
    {
      var answer := ProbeHttpsAt(web, tried[i], maxAddresses);
      assert answer == HttpsOf(d, web, maxAddresses, i);
      if answer.Response? {
        if answer.webpki || DaneValid(d, answer) {
          assert FirstAuthenticated(d, web, maxAddresses, i);
          return answer;
        }
        if first.None? { first, at := Some(answer), i; }
      }
    }
    r := if first.Some? then first.value else WebFailed;
  }

  // The choice authenticates exactly if some address tried does.
  lemma {:induction false} ChoiceAuthenticates(d: Dns, web: WebWorld, maxAddresses: int, r: Web)
    requires HttpsChoice(d, web, maxAddresses, r)
    ensures Authenticated(d, r) <==>
      exists a :: a in Take(d.addresses, maxAddresses) && Authenticated(d, ProbeHttpsAt(web, a, maxAddresses))
  {
    var tried := Take(d.addresses, maxAddresses);
    if a :| a in tried && Authenticated(d, ProbeHttpsAt(web, a, maxAddresses)) {
      var k: nat :| k < |tried| && tried[k] == a;
      assert Authenticated(d, HttpsOf(d, web, maxAddresses, k));
    }
  }

  // ------------------------------------------------------------------ the gate

  // _classify_web
  function ClassifyWeb(http: Web, https: Web, daneValid: bool): Category {
    if https.Response? && (https.webpki || daneValid) then Https
    else if http.Response? then HttpOnly
    else Offline
  }

  predicate Validated(d: Dns) { d.dnssec.Valid? || d.dnssec.ResolverValidated? }

  // Candidates for which validation is mandatory.
  predicate Gated(c: Probed) { c.hasDs || c.preflight }

  datatype HostResult = HostResult(category: Category, dns: Dns, http: Web, https: Web, blocked: bool, error: bool)

  function Publish(c: Probed, d: Dns, http: Web, https: Web): HostResult {
    if Gated(c) && d.status.Resolved? && !Validated(d) then HostResult(Offline, d, http, https, true, false)
    else HostResult(ClassifyWeb(http, https, DaneValid(d, https)), d, http, https, false, false)
  }

  // probe_host. `first` is what the network says at first, `second` when DNS is
  // probed again because a quick probe found a web server; `raises` is any
  // exception on the way.
  method ProbeHost(c: Probed, first: DnsWorld, second: DnsWorld, web: WebWorld, maxAddresses: int, details: bool,
        raises: bool)
      returns (r: HostResult)
    ensures raises ==> r == HostResult(Offline, Dns(DnsError, [], Unknown, {}), WebFailed, WebFailed, false, true)
    ensures !raises ==>
      r == Publish(c, r.dns, r.http, r.https) && HostFrom(c, first, second, web, maxAddresses, details, r)
  {
    if raises { return HostResult(Offline, Dns(DnsError, [], Unknown, {}), WebFailed, WebFailed, false, true); }
    var d := ProbeDns(c, first, maxAddresses, details);
    var http := ProbeHttp(d.addresses, web, maxAddresses);
    var https := ProbeAuthenticatedHttps(d, web, maxAddresses);
    if !details && (http.Response? || https.Response?) { d := ProbeDns(c, second, maxAddresses, true); }
    r := Publish(c, d, http, https);
  }

  // Where the parts of a result come from.
  ghost predicate HostFrom(c: Probed, first: DnsWorld, second: DnsWorld, web: WebWorld, maxAddresses: int,
        details: bool, r: HostResult) {
    var d := ProbeDns(c, first, maxAddresses, details);
    && (r.http.Response? <==> exists a :: a in Take(d.addresses, maxAddresses) && a in web.http)
    && HttpsChoice(d, web, maxAddresses, r.https)
    && r.dns == if !details && (r.http.Response? || r.https.Response?) then ProbeDns(c, second, maxAddresses, true)
    else d
  }

  // In detailed mode a host whose parent has DS records, or that the resolver
  // admitted, is never published as online without validated DNSSEC.
  lemma {:induction false} DetailedGate(c: Probed, first: DnsWorld, second: DnsWorld, web: WebWorld,
        maxAddresses: int, r: HostResult)
    requires HostFrom(c, first, second, web, maxAddresses, true, r) && r == Publish(c, r.dns, r.http, r.https)
    ensures Gated(c) && Online(r.category) ==> Validated(r.dns) && r.dns.status.Resolved?
  {}

  // An unblocked host is https exactly if one of the addresses tried
  // authenticates by WebPKI or DANE, and http-only exactly if none does and one
  // answers over http.
  lemma {:induction false} DetailedCategory(c: Probed, first: DnsWorld, second: DnsWorld, web: WebWorld,
        maxAddresses: int, r: HostResult)
    requires HostFrom(c, first, second, web, maxAddresses, true, r) && r == Publish(c, r.dns, r.http, r.https)
    requires !r.blocked
    ensures var tried := Take(r.dns.addresses, maxAddresses);
      var authenticates := exists a :: a in tried && Authenticated(r.dns, ProbeHttpsAt(web, a, maxAddresses));
      && (r.category.Https? <==> authenticates)
      && (r.category.HttpOnly? <==> !authenticates && exists a :: a in tried && a in web.http)
  {
    ChoiceAuthenticates(r.dns, web, maxAddresses, r.https);
  }

  // What makes a quick probe find a web server worth publishing: an address of
  // the first reading answers http, or https with WebPKI, or the first of them
  // to answer https matches a TLSA record of the second reading.
  ghost predicate QuickWeb(c: Probed, first: DnsWorld, second: DnsWorld, web: WebWorld, maxAddresses: int) {
    var d := ProbeDns(c, first, maxAddresses, false);
    var tried := Take(d.addresses, maxAddresses);
    || (exists a :: a in tried && a in web.http)
    || (exists a :: a in tried && ProbeHttpsAt(web, a, maxAddresses) == Response(a, true))
    || (exists k: nat ::
          FirstAnswer(d, web, maxAddresses, k) && tried[k] in ProbeDns(c, second, maxAddresses, true).danes)
  }

  // A quick reading has no TLSA records: only WebPKI authenticates.
  lemma {:induction false} QuickReading(c: Probed, w: DnsWorld, maxAddresses: int, r: Web)
    ensures Authenticated(ProbeDns(c, w, maxAddresses, false), r) <==> r.Response? && r.webpki
  {}

  lemma {:induction false} QuickChoice(c: Probed, first: DnsWorld, second: DnsWorld, web: WebWorld,
        maxAddresses: int, http: Web, https: Web)
    requires var d := ProbeDns(c, first, maxAddresses, false);
      && HttpsChoice(d, web, maxAddresses, https)
      && (http.Response? <==> exists a :: a in Take(d.addresses, maxAddresses) && a in web.http)
    ensures var again := ProbeDns(c, second, maxAddresses, true);
      QuickWeb(c, first, second, web, maxAddresses) <==> http.Response? || Authenticated(again, https)
  {
    var d, again := ProbeDns(c, first, maxAddresses, false), ProbeDns(c, second, maxAddresses, true);
    var tried := Take(d.addresses, maxAddresses);
    ChoiceAuthenticates(d, web, maxAddresses, https);
    QuickReading(c, first, maxAddresses, https);
    forall a | a in tried
      ensures Authenticated(d, ProbeHttpsAt(web, a, maxAddresses)) <==>
        ProbeHttpsAt(web, a, maxAddresses) == Response(a, true)
    {
      QuickReading(c, first, maxAddresses, ProbeHttpsAt(web, a, maxAddresses));
    }
    if k: nat :| FirstAnswer(d, web, maxAddresses, k) && tried[k] in again.danes {
      OnlyFirst(d, web, maxAddresses, k, https);
    }
    if Authenticated(again, https) && !https.webpki {
      var k: nat :| FirstAnswer(d, web, maxAddresses, k) && https == HttpsOf(d, web, maxAddresses, k);
      assert tried[k] == https.address;
    }
  }

  // Unless an answer authenticates, the choice is the first answer.
  lemma {:induction false} OnlyFirst(d: Dns, web: WebWorld, maxAddresses: int, k: nat, r: Web)
    requires HttpsChoice(d, web, maxAddresses, r) && FirstAnswer(d, web, maxAddresses, k)
    ensures Authenticated(d, r) || r == HttpsOf(d, web, maxAddresses, k)
  {
    if !Authenticated(d, r) {
      assert !NoneAnswers(d, web, maxAddresses) by { assert HttpsOf(d, web, maxAddresses, k).Response?; }
      var j: nat :| FirstAnswer(d, web, maxAddresses, j) && r == HttpsOf(d, web, maxAddresses, j);
      SameFirst(d, web, maxAddresses, j, k);
    }
  }

  lemma {:induction false} SameFirst(d: Dns, web: WebWorld, maxAddresses: int, j: nat, k: nat)
    requires FirstAnswer(d, web, maxAddresses, j) && FirstAnswer(d, web, maxAddresses, k)
    ensures j == k
  {}

  // A quick probe reads DNS twice. It publishes a gated host without validation
  // exactly if it finds a web server worth publishing and the second reading is
  // not validated and does not resolve: the gate asks only resolved ones.
  lemma {:induction false} QuickGateIff(c: Probed, first: DnsWorld, second: DnsWorld, web: WebWorld,
        maxAddresses: int, r: HostResult)
    requires HostFrom(c, first, second, web, maxAddresses, false, r) && r == Publish(c, r.dns, r.http, r.https)
    requires Gated(c)
    ensures var again := ProbeDns(c, second, maxAddresses, true);
      Online(r.category) && !Validated(r.dns) <==>
      QuickWeb(c, first, second, web, maxAddresses) && !Validated(again) && !again.status.Resolved?
  {
    QuickChoice(c, first, second, web, maxAddresses, r.http, r.https);
  }

  lemma {:induction false} OnePublic(address: string)
    ensures Public([address], {address}) == [address]
  {}

  // Such a host: its nameservers answer the first time and not the second.
  lemma {:induction false} QuickGateFails(address: string)
    ensures var c := Probed(true, false);
      var silent := Doh(false, [], [], {});
      var first := DnsWorld([address], true, [address], false, {}, silent, {address});
      var second := DnsWorld([address], false, [], false, {}, silent, {address});
      var web := WebWorld({address}, map[]);
      exists r :: HostFrom(c, first, second, web, 4, false, r) && r == Publish(c, r.dns, r.http, r.https)
                  && Online(r.category) && !Validated(r.dns)
  {
    var c := Probed(true, false);
    var silent := Doh(false, [], [], {});
    var first := DnsWorld([address], true, [address], false, {}, silent, {address});
    var second := DnsWorld([address], false, [], false, {}, silent, {address});
    var web := WebWorld({address}, map[]);
    OnePublic(address);
    var d := ProbeDns(c, first, 4, false);
    assert d.addresses == [address];
    var again := ProbeDns(c, second, 4, true);
    var r := Publish(c, again, Response(address, false), WebFailed);
    assert address in Take(d.addresses, 4) && address in web.http;
    assert HostFrom(c, first, second, web, 4, false, r);
  }
}
