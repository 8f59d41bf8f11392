// Results of probing a host, as the live database receives them.
module LiveModels {

  const DAY: int := 86400

  function Pow2(n: nat): nat { if n == 0 then 1 else 2 * Pow2(n - 1) }

  function Least(a: int, b: int): int { if a <= b then a else b }

  datatype Category = Https | HttpOnly | Offline

  predicate Online(c: Category) { c.Https? || c.HttpOnly? }

  datatype DnsStatus = Resolved | NoAddress | NoBootstrap | DnsUnreachable | DnsError

  datatype Failure = NoFailure | DnssecValidationFailed | ProbeError | OtherFailure

  datatype ProbeResult = ProbeResult(
    root: string, host: string, resourceHash: string, category: Category, url: string,
    dnsStatus: DnsStatus, httpsUntrusted: bool, failure: Failure, checkedAt: int)
}
