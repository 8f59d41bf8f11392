// The publication gate over what the network says: when a host is online, and
// on whose word.
module GateColumns {
  import opened Text
  import opened LiveModels
  import opened ProbeGate

  // ------------------------------------------------------------- the addresses

  predicate AnyPublic(addresses: seq<string>, publicIps: set<string>) {
    exists i :: 0 <= i < |addresses| && addresses[i] in publicIps
  }

  // `i` is where an address first occurs.
  predicate FirstAt(addresses: seq<string>, i: nat, a: string) {
    i < |addresses| && addresses[i] == a && forall j :: 0 <= j < i ==> addresses[j] != a
  }

  // The public addresses, each once, in the order they first occur in.
  lemma {:induction false} PublicIs(addresses: seq<string>, publicIps: set<string>)
    ensures var r := Public(addresses, publicIps);
      && (forall a :: a in r <==> a in addresses && a in publicIps)
      && (forall k, l, i, j :: 0 <= k < l < |r| && FirstAt(addresses, i, r[k]) && FirstAt(addresses, j, r[l]) ==> i < j)
      && (forall k, l :: 0 <= k < l < |r| ==> r[k] != r[l])
  {
    if addresses != [] {
      var m := |addresses| - 1;
      var before, last := addresses[..m], addresses[m];
      assert addresses == before + [last];
      PublicIs(before, publicIps);
      var b, r := Public(before, publicIps), Public(addresses, publicIps);
      forall k, l, i, j | 0 <= k < l < |r| && FirstAt(addresses, i, r[k]) && FirstAt(addresses, j, r[l]) ensures i < j {
        assert r[k] in b && r[k] in before;
        FirstBefore(addresses, i, r[k]);
        if l < |b| { assert r[l] in before; FirstBefore(addresses, j, r[l]); }
      }
    }
  }

  lemma {:induction false} FirstBefore(addresses: seq<string>, i: nat, a: string)
    requires addresses != [] && FirstAt(addresses, i, a) && a in addresses[..|addresses| - 1]
    ensures i < |addresses| - 1 && FirstAt(addresses[..|addresses| - 1], i, a)
  {}

  // The first `n` of them, or all but the last `-n`.
  lemma {:induction false} TakeIs<T>(xs: seq<T>, n: int)
    ensures Take(xs, n) <= xs
    ensures |Take(xs, n)| == if n >= |xs| then |xs| else if n >= 0 then n else if |xs| + n >= 0 then |xs| + n else 0
  {}

  // ---------------------------------------------------------------- a reading

  // The resolver has something to say: a response, or a public address.
  predicate ResolverSays(w: DnsWorld) {
    w.doh.configured && (|w.doh.adFlags| > 0 || AnyPublic(w.doh.addresses, w.publicIps))
  }

  // Which of the two supplies the addresses: the resolver for what it admitted,
  // for a host without servers, and where the servers give no public address.
  predicate FromResolver(c: Probed, w: DnsWorld) {
    c.preflight || |w.servers| == 0 || (!AnyPublic(w.addresses, w.publicIps) && ResolverSays(w))
  }

  // The resolver has responses and all carry AD; or the parent has DS records
  // and the keys validate against them.
  predicate Trusted(c: Probed, w: DnsWorld) {
    if FromResolver(c, w) then
      w.doh.configured && |w.doh.adFlags| > 0 && forall i :: 0 <= i < |w.doh.adFlags| ==> w.doh.adFlags[i]
    else c.hasDs && w.validates
  }

  function Supplied(c: Probed, w: DnsWorld): seq<string> {
    Public(if !FromResolver(c, w) then w.addresses else if w.doh.configured then w.doh.addresses else [], w.publicIps)
  }

  lemma {:induction false} PublicEmpty(addresses: seq<string>, publicIps: set<string>)
    ensures Public(addresses, publicIps) == [] <==> !AnyPublic(addresses, publicIps)
  {
    PublicIs(addresses, publicIps);
    var r := Public(addresses, publicIps);
    if r != [] { assert r[0] in r; }
    if i :| 0 <= i < |addresses| && addresses[i] in publicIps { assert addresses[i] in r; }
  }

  // One reading: the addresses supplied, up to the limit; resolved exactly if
  // there are some; validated exactly if it is to be trusted.
  lemma {:induction false} ReadingIs(c: Probed, w: DnsWorld, maxAddresses: int, details: bool)
    ensures var d := ProbeDns(c, w, maxAddresses, details);
      && d.addresses == Take(Supplied(c, w), maxAddresses)
      && (d.status.Resolved? <==> Supplied(c, w) != [])
      && (details ==> (Validated(d) <==> Trusted(c, w)))
      && (details ==> d.danes == if !FromResolver(c, w) then w.danes
                                 else if Supplied(c, w) != [] then w.doh.danes else {})
      && (!details ==> d.danes == {})
  {
    PublicEmpty(w.addresses, w.publicIps);
    PublicEmpty(w.doh.addresses, w.publicIps);
    assert Public([], w.publicIps) == [];
    TakeIs<string>([], maxAddresses);
  }

  // --------------------------------------------------------------- the verdict

  function Tried(c: Probed, w: DnsWorld, maxAddresses: int): seq<string> {
    Take(Take(Supplied(c, w), maxAddresses), maxAddresses)
  }

  // The TLSA records come from where the addresses come from.
  function Danes(c: Probed, w: DnsWorld): set<string> { if FromResolver(c, w) then w.doh.danes else w.danes }

  // The address answers https, and WebPKI or a TLSA record vouches for it.
  predicate Proves(web: WebWorld, danes: set<string>, maxAddresses: int, a: string) {
    maxAddresses >= 1 && a in web.https && (web.https[a] || a in danes)
  }

  lemma {:induction false} HttpsIs(web: WebWorld, d: Dns, maxAddresses: int, a: string)
    ensures ProbeHttpsAt(web, a, maxAddresses) == if maxAddresses >= 1 && a in web.https then Response(a, web.https[a])
                                                  else WebFailed
    ensures Authenticated(d, ProbeHttpsAt(web, a, maxAddresses)) <==> Proves(web, d.danes, maxAddresses, a)
  {
    TakeIs([a], maxAddresses);
  }

  // In detailed mode there is one reading. A host is online exactly if one of
  // the addresses tried answers http, or https with proof, and, where its parent
  // has DS records or the resolver admitted it, the reading is to be trusted.
  lemma {:induction false} DetailedOnlineIff(c: Probed, first: DnsWorld, second: DnsWorld, web: WebWorld,
        maxAddresses: int, r: HostResult)
    requires HostFrom(c, first, second, web, maxAddresses, true, r) && r == Publish(c, r.dns, r.http, r.https)
    ensures var tried, danes := Tried(c, first, maxAddresses), Danes(c, first);
      var gate := c.hasDs || c.preflight ==> Trusted(c, first);
      var proof := exists a :: a in tried && Proves(web, danes, maxAddresses, a);
      && (r.category.Https? <==> gate && proof)
      && (r.category.HttpOnly? <==> gate && !proof && exists a :: a in tried && a in web.http)
  {
    ReadingIs(c, first, maxAddresses, true);
    forall a ensures Authenticated(r.dns, ProbeHttpsAt(web, a, maxAddresses)) <==>
      Proves(web, r.dns.danes, maxAddresses, a)
    {
      HttpsIs(web, r.dns, maxAddresses, a);
    }
    var tried := Tried(c, first, maxAddresses);
    if tried != [] { assert Supplied(c, first) != []; }
    if !r.blocked { DetailedCategory(c, first, second, web, maxAddresses, r); }
  }

  // The first address tried that answers https at all.
  predicate FirstHttps(web: WebWorld, maxAddresses: int, tried: seq<string>, k: nat) {
    && k < |tried| && maxAddresses >= 1 && tried[k] in web.https && forall j :: 0 <= j < k ==> tried[j] !in web.https
  }

  // One of them answers http, or https with WebPKI, or the first to answer https
  // matches a TLSA record.
  ghost predicate Serves(web: WebWorld, tried: seq<string>, danes: set<string>, maxAddresses: int) {
    || (exists a :: a in tried && (a in web.http || Proves(web, {}, maxAddresses, a)))
    || (exists k: nat :: FirstHttps(web, maxAddresses, tried, k) && tried[k] in danes)
  }

  lemma {:induction false} ServesIs(c: Probed, first: DnsWorld, second: DnsWorld, web: WebWorld, maxAddresses: int)
    requires Supplied(c, second) == []
    ensures QuickWeb(c, first, second, web, maxAddresses) <==>
      Serves(web, Tried(c, first, maxAddresses), if FromResolver(c, second) then {} else second.danes, maxAddresses)
  {
    ReadingIs(c, first, maxAddresses, false);
    ReadingIs(c, second, maxAddresses, true);
    var d, tried := ProbeDns(c, first, maxAddresses, false), Tried(c, first, maxAddresses);
    forall a ensures ProbeHttpsAt(web, a, maxAddresses) == (if maxAddresses >= 1 && a in web.https
        then Response(a, web.https[a]) else WebFailed)
    {
      HttpsIs(web, d, maxAddresses, a);
    }
    forall k: nat ensures FirstAnswer(d, web, maxAddresses, k) <==> FirstHttps(web, maxAddresses, tried, k) {
      FirstIs(web, d, maxAddresses, k);
    }
  }

  lemma {:induction false} FirstIs(web: WebWorld, d: Dns, maxAddresses: int, k: nat)
    ensures FirstAnswer(d, web, maxAddresses, k) <==>
      FirstHttps(web, maxAddresses, Take(d.addresses, maxAddresses), k)
  {
    var tried := Take(d.addresses, maxAddresses);
    forall j | 0 <= j < |tried|
      ensures HttpsOf(d, web, maxAddresses, j).Response? <==> maxAddresses >= 1 && tried[j] in web.https
    {
      HttpsIs(web, d, maxAddresses, tried[j]);
    }
  }

  // In quick mode the second reading decides about a host that the first found a
  // web server for. Its gate asks readings with an address only: a host is
  // published on a reading that is not to be trusted exactly if that reading
  // has no address.
  lemma {:induction false} QuickUntrustedIff(c: Probed, first: DnsWorld, second: DnsWorld, web: WebWorld,
        maxAddresses: int, r: HostResult)
    requires HostFrom(c, first, second, web, maxAddresses, false, r) && r == Publish(c, r.dns, r.http, r.https)
    requires c.hasDs || c.preflight
    ensures var danes := if FromResolver(c, second) then {} else second.danes;
      (!r.category.Offline? && !Trusted(c, second)) <==>
        && !Trusted(c, second) && Supplied(c, second) == []
        && Serves(web, Tried(c, first, maxAddresses), danes, maxAddresses)
  {
    ReadingIs(c, first, maxAddresses, false);
    ReadingIs(c, second, maxAddresses, true);
    QuickGateIff(c, first, second, web, maxAddresses, r);
    if Supplied(c, second) == [] { ServesIs(c, first, second, web, maxAddresses); }
  }
}
