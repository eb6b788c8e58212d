/** internal/resolve/resolve.go and internal/client/dialer/direct.go: names to addresses.

    DNS upstreams are oracles from a question to what the exchange gives; the resolver's log
    records which upstream was asked what. Decoding an ECH blob is a partial function. */
module Resolver {
  import opened Seqs
  import opened GoStrings
  import opened Overrides

  type EchConfig = nat

  datatype SvcParam = EchParam(blob: seq<Octet>) | OtherParam

  datatype RR = A(addr: IP) | AAAA(addr: IP) | HTTPS(params: seq<SvcParam>) | OtherRR

  datatype QType = TypeA | TypeAAAA | TypeHTTPS

  datatype Exchange = NoReply(err: nat) | Reply(rcode: nat, answer: seq<RR>)

  type Upstream = (GoString, QType) -> Exchange

  datatype LookupError = NetworkError(err: nat) | BadCode(rcode: nat) | EmptyAnswer

  const RCODE_SUCCESS: nat := 0

  /** dnsLookup: what one exchange is worth. */
  function DnsLookup(x: Exchange): Result<seq<RR>, LookupError> {
    match x
    case NoReply(err) => Err(NetworkError(err))
    case Reply(rcode, answer) =>
      if rcode != RCODE_SUCCESS then Err(BadCode(rcode))
      else if answer == [] then Err(EmptyAnswer)
      else Ok(answer)
  }

  /** A usable response: a reply that reports success and holds records. */
  predicate Usable(u: Upstream, host: GoString, q: QType) {
    var x := u(host, q);
    x.Reply? && x.rcode == RCODE_SUCCESS && x.answer != []
  }

  /** The first upstream with a usable response, or the number of upstreams. */
  function FirstUsable(us: seq<Upstream>, host: GoString, q: QType): (k: nat)
    ensures k <= |us|
    ensures forall j :: 0 <= j < k ==> !Usable(us[j], host, q)
    ensures k < |us| ==> Usable(us[k], host, q)
  {
    if us == [] then 0
    else if Usable(us[0], host, q) then 0
    else 1 + FirstUsable(us[1..], host, q)
  }

  datatype Query = Query(qtype: QType, upstream: nat)

  function QueriesUpTo(q: QType, n: nat): (qs: seq<Query>)
    ensures |qs| == n
    ensures forall i :: 0 <= i < n ==> qs[i] == Query(q, i)
  {
    seq(n, i requires 0 <= i => Query(q, i))
  }

  /** The upstreams consulted: those up to and including the first usable one. */
  function Consulted(us: seq<Upstream>, host: GoString, q: QType): (qs: seq<Query>) {
    var k := FirstUsable(us, host, q);
    QueriesUpTo(q, if k < |us| then k + 1 else k)
  }

  lemma FirstUsableIs(us: seq<Upstream>, host: GoString, q: QType, k: nat)
    requires k <= |us| && forall j :: 0 <= j < k ==> !Usable(us[j], host, q)
    requires k < |us| ==> Usable(us[k], host, q)
    ensures FirstUsable(us, host, q) == k
    ensures Consulted(us, host, q) == QueriesUpTo(q, if k < |us| then k + 1 else k)
  {
    var f := FirstUsable(us, host, q);
    assert f < |us| ==> Usable(us[f], host, q);
  }

  /** The error of each exchange, as the loop over the upstreams collects it. */
  function ErrorOf(host: GoString, q: QType): Upstream -> seq<LookupError> {
    (u: Upstream) => match DnsLookup(u(host, q)) case Ok(_) => [] case Err(e) => [e]
  }

  function Errors(us: seq<Upstream>, host: GoString, q: QType): seq<LookupError> {
    FlatMap(ErrorOf(host, q), us)
  }

  /** The answer of the first usable response, or every upstream's error in order. */
  function LookupAll(us: seq<Upstream>, host: GoString, q: QType): Result<seq<RR>, seq<LookupError>> {
    var k := FirstUsable(us, host, q);
    if k < |us| then Ok(us[k](host, q).answer) else Err(Errors(us, host, q))
  }

  function AddressOf(rr: RR): seq<IP> {
    match rr
    case A(ip) => [ip]
    case AAAA(ip) => [ip]
    case _ => []
  }

  /** The addresses among the records, whatever was asked for. */
  function Addresses(answer: seq<RR>): seq<IP> {
    FlatMap(AddressOf, answer)
  }

  datatype Config = Config(resolve: map<GoString, seq<IP>>, ipv4: bool, ipv6: bool, echConfigs: seq<EchConfig>)

  function QTypes(cfg: Config): seq<QType> {
    if cfg.ipv4 then [TypeA] else if cfg.ipv6 then [TypeAAAA] else [TypeA, TypeAAAA]
  }

  /** What one query type contributes: the addresses of the first usable response, if any. */
  function Found(us: seq<Upstream>, host: GoString, q: QType): seq<IP> {
    match LookupAll(us, host, q)
    case Ok(answer) => Addresses(answer)
    case Err(_) => []
  }

  /** The addresses that DNS gives: over the query types in order. */
  function AllFound(us: seq<Upstream>, host: GoString, qs: seq<QType>): seq<IP> {
    if qs == [] then [] else AllFound(us, host, qs[..|qs| - 1]) + Found(us, host, qs[|qs| - 1])
  }

  function AllErrors(us: seq<Upstream>, host: GoString, qs: seq<QType>): seq<seq<LookupError>> {
    if qs == [] then []
    else
      AllErrors(us, host, qs[..|qs| - 1]) +
      match LookupAll(us, host, qs[|qs| - 1]) case Ok(_) => [] case Err(errs) => [errs]
  }

  function AllConsulted(us: seq<Upstream>, host: GoString, qs: seq<QType>): seq<Query> {
    if qs == [] then []
    else AllConsulted(us, host, qs[..|qs| - 1]) + Consulted(us, host, qs[|qs| - 1])
  }

  function LookupFromCfg(cfg: Config, host: GoString): Option<seq<IP>> {
    if |cfg.resolve| == 0 then None
    else if host in cfg.resolve then Some(cfg.resolve[host])
    else if "*" in cfg.resolve then Some(cfg.resolve["*"])
    else None
  }

  function HostResult(cfg: Config, us: seq<Upstream>, parseIP: ParseIP, host: GoString)
    : Result<seq<IP>, seq<seq<LookupError>>>
  {
    if parseIP(host).Some? then Ok([Trim(parseIP(host).value)])
    else if LookupFromCfg(cfg, host).Some? then Ok(LookupFromCfg(cfg, host).value)
    else
      var found := AllFound(us, host, QTypes(cfg));
      if found == [] then Err(AllErrors(us, host, QTypes(cfg))) else Ok(found)
  }

  /** The queries of a lookup: none for a literal or a configured host. */
  function HostQueries(cfg: Config, us: seq<Upstream>, parseIP: ParseIP, host: GoString): seq<Query> {
    if parseIP(host).None? && LookupFromCfg(cfg, host).None? then AllConsulted(us, host, QTypes(cfg)) else []
  }

  datatype EchError = LookupFailed(errs: seq<LookupError>) | NoConfigs(malformed: seq<seq<Octet>>)

  type Decode = seq<Octet> -> Option<seq<EchConfig>>

  function BlobOf(p: SvcParam): seq<seq<Octet>> {
    if p.EchParam? then [p.blob] else []
  }

  function BlobsOf(rr: RR): seq<seq<Octet>> {
    if rr.HTTPS? then FlatMap(BlobOf, rr.params) else []
  }

  /** Every ECH blob of the answer, in record order and value order. */
  function Blobs(answer: seq<RR>): seq<seq<Octet>> {
    FlatMap(BlobsOf, answer)
  }

  function ConfigsOf(decode: Decode): seq<Octet> -> seq<EchConfig> {
    (blob: seq<Octet>) => if decode(blob).Some? then decode(blob).value else []
  }

  /** The configurations of the blobs that decode, in order. */
  function Decoded(blobs: seq<seq<Octet>>, decode: Decode): seq<EchConfig> {
    FlatMap(ConfigsOf(decode), blobs)
  }

  function BlobIfMalformed(decode: Decode): seq<Octet> -> seq<seq<Octet>> {
    (blob: seq<Octet>) => if decode(blob).Some? then [] else [blob]
  }

  function Malformed(blobs: seq<seq<Octet>>, decode: Decode): seq<seq<Octet>> {
    FlatMap(BlobIfMalformed(decode), blobs)
  }

  function EchResult(cfg: Config, us: seq<Upstream>, decode: Decode, host: GoString): Result<seq<EchConfig>, EchError> {
    if cfg.echConfigs != [] then Ok(cfg.echConfigs)
    else match LookupAll(us, host, TypeHTTPS)
      case Err(errs) => Err(LookupFailed(errs))
      case Ok(answer) =>
        var configs := Decoded(Blobs(answer), decode);
        if configs == [] then Err(NoConfigs(Malformed(Blobs(answer), decode))) else Ok(configs)
  }

  /** The inner loop of LookupHost. */
  method AppendAddresses(before: seq<IP>, answer: seq<RR>) returns (ipAddresses: seq<IP>)
    ensures ipAddresses == before + Addresses(answer)
  {
    ipAddresses := before;
    for j := 0 to |answer|
      invariant ipAddresses == before + Addresses(answer[..j])
    {
      FlatMapStep(AddressOf, answer, j);
      match answer[j] {
        case A(v) => ipAddresses := ipAddresses + [v];
        case AAAA(v) => ipAddresses := ipAddresses + [v];
        case _ =>
      }
    }
    assert answer[..|answer|] == answer;
  }

  /** The inner loop of LookupECHConfigs, over the values of one HTTPS record. */
  method AppendConfigs(before: seq<EchConfig>, bad: seq<seq<Octet>>, params: seq<SvcParam>, decode: Decode)
    returns (echConfigs: seq<EchConfig>, malformed: seq<seq<Octet>>)
    ensures echConfigs == before + Decoded(FlatMap(BlobOf, params), decode)
    ensures malformed == bad + Malformed(FlatMap(BlobOf, params), decode)
  {
    echConfigs, malformed := before, bad;
    for j := 0 to |params|
      invariant echConfigs == before + Decoded(FlatMap(BlobOf, params[..j]), decode)
      invariant malformed == bad + Malformed(FlatMap(BlobOf, params[..j]), decode)
    {
      FlatMapStep(BlobOf, params, j);
      ghost var blobs, more := FlatMap(BlobOf, params[..j]), BlobOf(params[j]);
      FlatMapAppend(ConfigsOf(decode), blobs, more);
      FlatMapAppend(BlobIfMalformed(decode), blobs, more);
      Assoc(before, Decoded(blobs, decode), Decoded(more, decode));
      Assoc(bad, Malformed(blobs, decode), Malformed(more, decode));
      if params[j].EchParam? {
        var blob := params[j].blob;
        FlatMapOne(ConfigsOf(decode), blob);
        FlatMapOne(BlobIfMalformed(decode), blob);
        var echConfig := decode(blob);
        if echConfig.None? {
          malformed := malformed + [blob];
        } else {
          echConfigs := echConfigs + echConfig.value;
        }
      }
    }
    assert params[..|params|] == params;
  }

  class DnsResolver {
    const cfg: Config
    const upstreams: seq<Upstream>
    var log: seq<Query>

    constructor (cfg: Config, upstreams: seq<Upstream>)
      ensures this.cfg == cfg && this.upstreams == upstreams && log == []
    {
      this.cfg := cfg;
      this.upstreams := upstreams;
      log := [];
    }

    method DnsLookupAll(host: GoString, q: QType) returns (r: Result<seq<RR>, seq<LookupError>>)
      modifies this`log
      ensures r == LookupAll(upstreams, host, q)
      ensures log == old(log) + Consulted(upstreams, host, q)
    {
      var errs := [];
      for i := 0 to |upstreams|
        invariant forall j :: 0 <= j < i ==> !Usable(upstreams[j], host, q)
        invariant errs == Errors(upstreams[..i], host, q)
        invariant log == old(log) + QueriesUpTo(q, i)
      {
        FlatMapStep(ErrorOf(host, q), upstreams, i);
        log := log + [Query(q, i)];
        assert QueriesUpTo(q, i + 1) == QueriesUpTo(q, i) + [Query(q, i)];
        var resp := DnsLookup(upstreams[i](host, q));
        if resp.Err? {
          errs := errs + [resp.error];
        } else {
          FirstUsableIs(upstreams, host, q, i);
          return Ok(resp.value);
        }
      }
      assert upstreams[..|upstreams|] == upstreams;
      FirstUsableIs(upstreams, host, q, |upstreams|);
      return Err(errs);
    }

    lemma TypeStep(hostname: GoString, qs: seq<QType>, i: nat)
      requires i < |qs|
      ensures AllFound(upstreams, hostname, qs[..i + 1]) ==
        AllFound(upstreams, hostname, qs[..i]) + Found(upstreams, hostname, qs[i])
      ensures AllErrors(upstreams, hostname, qs[..i + 1]) ==
        AllErrors(upstreams, hostname, qs[..i]) +
        match LookupAll(upstreams, hostname, qs[i]) case Ok(_) => [] case Err(errs) => [errs]
      ensures AllConsulted(upstreams, hostname, qs[..i + 1]) ==
        AllConsulted(upstreams, hostname, qs[..i]) + Consulted(upstreams, hostname, qs[i])
    {
      assert qs[..i + 1][..i] == qs[..i];
    }

    /** The loop of LookupHost over the query types. */
    method LookupOverDns(hostname: GoString) returns (ipAddresses: seq<IP>, errs: seq<seq<LookupError>>)
      modifies this`log
      ensures ipAddresses == AllFound(upstreams, hostname, QTypes(cfg))
      ensures errs == AllErrors(upstreams, hostname, QTypes(cfg))
      ensures log == old(log) + AllConsulted(upstreams, hostname, QTypes(cfg))
    {
      ipAddresses, errs := [], [];
      var qTypes := QTypes(cfg);
      for i := 0 to |qTypes|
        invariant ipAddresses == AllFound(upstreams, hostname, qTypes[..i])
        invariant errs == AllErrors(upstreams, hostname, qTypes[..i])
        invariant log == old(log) + AllConsulted(upstreams, hostname, qTypes[..i])
      {
        TypeStep(hostname, qTypes, i);
        ghost var logged := AllConsulted(upstreams, hostname, qTypes[..i]);
        Assoc(old(log), logged, Consulted(upstreams, hostname, qTypes[i]));
        var resp := DnsLookupAll(hostname, qTypes[i]);
        if resp.Err? {
          errs := errs + [resp.error];
          continue;
        }
        ipAddresses := AppendAddresses(ipAddresses, resp.value);
      }
      assert qTypes[..|qTypes|] == qTypes;
    }

    method LookupHost(parseIP: ParseIP, hostname: GoString) returns (r: Result<seq<IP>, seq<seq<LookupError>>>)
      modifies this`log
      ensures r == HostResult(cfg, upstreams, parseIP, hostname)
      ensures log == old(log) + HostQueries(cfg, upstreams, parseIP, hostname)
    {
      var ip := parseIP(hostname);
      if ip.Some? {
        return Ok([if To4(ip.value).Some? then To4(ip.value).value else ip.value]);
      }
      var addrs := LookupFromCfg(cfg, hostname);
      if addrs.Some? {
        return Ok(addrs.value);
      }
      var ipAddresses, errs := LookupOverDns(hostname);
      if |ipAddresses| == 0 {
        return Err(errs);
      }
      return Ok(ipAddresses);
    }

    method LookupECHConfigs(decode: Decode, hostname: GoString) returns (r: Result<seq<EchConfig>, EchError>)
      modifies this`log
      ensures r == EchResult(cfg, upstreams, decode, hostname)
      ensures log == old(log) + if cfg.echConfigs == [] then Consulted(upstreams, hostname, TypeHTTPS) else []
    {
      if |cfg.echConfigs| > 0 {
        return Ok(cfg.echConfigs);
      }
      var resp := DnsLookupAll(hostname, TypeHTTPS);
      if resp.Err? {
        return Err(LookupFailed(resp.error));
      }
      var answer, echConfigs, malformed := resp.value, [], [];
      for i := 0 to |answer|
        invariant echConfigs == Decoded(Blobs(answer[..i]), decode)
        invariant malformed == Malformed(Blobs(answer[..i]), decode)
        invariant log == old(log) + Consulted(upstreams, hostname, TypeHTTPS)
      {
        FlatMapStep(BlobsOf, answer, i);
        FlatMapAppend(ConfigsOf(decode), Blobs(answer[..i]), BlobsOf(answer[i]));
        FlatMapAppend(BlobIfMalformed(decode), Blobs(answer[..i]), BlobsOf(answer[i]));
        if answer[i].HTTPS? {
          echConfigs, malformed := AppendConfigs(echConfigs, malformed, answer[i].params, decode);
        }
      }
      assert answer[..|answer|] == answer;
      if |echConfigs| == 0 {
        return Err(NoConfigs(malformed));
      }
      return Ok(echConfigs);
    }
  }

  // ----- LookupHost -----

  predicate HasAddress(answer: seq<RR>) {
    exists i :: 0 <= i < |answer| && (answer[i].A? || answer[i].AAAA?)
  }

  lemma {:induction false} AddressesNonEmpty(answer: seq<RR>)
    ensures Addresses(answer) != [] <==> HasAddress(answer)
  {
    if answer != [] {
      AddressesNonEmpty(answer[1..]);
      if i :| 0 <= i < |answer| && (answer[i].A? || answer[i].AAAA?) {
        if i > 0 { assert answer[1..][i - 1] == answer[i]; }
      }
      if i :| 0 <= i < |answer[1..]| && (answer[1..][i].A? || answer[1..][i].AAAA?) {
        assert answer[i + 1] == answer[1..][i];
      }
    }
  }

  /** For this query type the fallback over the upstreams ends at a response with an address. */
  predicate Succeeds(us: seq<Upstream>, host: GoString, q: QType) {
    var k := FirstUsable(us, host, q);
    k < |us| && HasAddress(us[k](host, q).answer)
  }

  lemma FoundIffSucceeds(us: seq<Upstream>, host: GoString, q: QType)
    ensures Found(us, host, q) != [] <==> Succeeds(us, host, q)
  {
    var k := FirstUsable(us, host, q);
    if k < |us| { AddressesNonEmpty(us[k](host, q).answer); }
  }

  lemma AllFoundOne(us: seq<Upstream>, host: GoString, q: QType)
    ensures AllFound(us, host, [q]) == Found(us, host, q)
  {
    assert [q][..0] == [];
    assert [] + Found(us, host, q) == Found(us, host, q);
  }

  lemma AllFoundTwo(us: seq<Upstream>, host: GoString, q1: QType, q2: QType)
    ensures AllFound(us, host, [q1, q2]) == Found(us, host, q1) + Found(us, host, q2)
  {
    assert [q1, q2][..1] == [q1];
    AllFoundOne(us, host, q1);
  }

  /** A name that is not configured resolves, over DNS, exactly when for some query type the
      first usable response holds an address; the result is then those responses' addresses, of
      the query types in order. */
  lemma HostLookupExact(cfg: Config, us: seq<Upstream>, parseIP: ParseIP, host: GoString)
    requires parseIP(host) == None && LookupFromCfg(cfg, host) == None
    ensures HostResult(cfg, us, parseIP, host).Ok? <==> exists q :: q in QTypes(cfg) && Succeeds(us, host, q)
    ensures HostResult(cfg, us, parseIP, host).Ok? ==>
      HostResult(cfg, us, parseIP, host).value ==
        if cfg.ipv4 then Found(us, host, TypeA)
        else if cfg.ipv6 then Found(us, host, TypeAAAA)
        else Found(us, host, TypeA) + Found(us, host, TypeAAAA)
  {
    FoundIffSucceeds(us, host, TypeA);
    FoundIffSucceeds(us, host, TypeAAAA);
    AllFoundOne(us, host, TypeA);
    AllFoundOne(us, host, TypeAAAA);
    AllFoundTwo(us, host, TypeA, TypeAAAA);
  }

  lemma AllConsultedOne(us: seq<Upstream>, host: GoString, q: QType)
    ensures AllConsulted(us, host, [q]) == Consulted(us, host, q)
  {
    assert [q][..0] == [];
    assert [] + Consulted(us, host, q) == Consulted(us, host, q);
  }

  /** Whom a lookup asks: nobody for a literal or a configured host, else the upstreams for each
      type wanted; and a lookup that fails gives the errors of each type. */
  lemma HostQueriesExact(cfg: Config, us: seq<Upstream>, parseIP: ParseIP, host: GoString)
    ensures parseIP(host).Some? || LookupFromCfg(cfg, host).Some? ==> HostQueries(cfg, us, parseIP, host) == []
    ensures parseIP(host).None? && LookupFromCfg(cfg, host).None? ==>
      HostQueries(cfg, us, parseIP, host) ==
        if cfg.ipv4 then Consulted(us, host, TypeA)
        else if cfg.ipv6 then Consulted(us, host, TypeAAAA)
        else Consulted(us, host, TypeA) + Consulted(us, host, TypeAAAA)
  {
    AllConsultedOne(us, host, TypeA);
    AllConsultedOne(us, host, TypeAAAA);
    assert [TypeA, TypeAAAA][..1] == [TypeA];
  }

  /** An upstream that gives this answer to every question. */
  function Answering(answer: seq<RR>): Upstream {
    (host: GoString, q: QType) => Reply(0, answer)
  }

  function ErrorsOfType(us: seq<Upstream>, host: GoString, q: QType): seq<seq<LookupError>> {
    match LookupAll(us, host, q) case Ok(_) => [] case Err(errs) => [errs]
  }

  lemma AllErrorsOne(us: seq<Upstream>, host: GoString, q: QType)
    ensures AllErrors(us, host, [q]) == ErrorsOfType(us, host, q)
  {
    assert [q][..0] == [];
    assert [] + ErrorsOfType(us, host, q) == ErrorsOfType(us, host, q);
  }

  /** A failed lookup gives the errors of each type that was asked for without a usable response. */
  lemma HostFailureExact(cfg: Config, us: seq<Upstream>, parseIP: ParseIP, host: GoString)
    requires HostResult(cfg, us, parseIP, host).Err?
    ensures HostResult(cfg, us, parseIP, host).error ==
      if cfg.ipv4 then ErrorsOfType(us, host, TypeA)
      else if cfg.ipv6 then ErrorsOfType(us, host, TypeAAAA)
      else ErrorsOfType(us, host, TypeA) + ErrorsOfType(us, host, TypeAAAA)
  {
    AllErrorsOne(us, host, TypeA);
    AllErrorsOne(us, host, TypeAAAA);
    assert [TypeA, TypeAAAA][..1] == [TypeA];
  }

  /** The addresses that a lookup for this type finds in this answer. */
  function AddressYield(answer: seq<RR>, host: GoString, q: QType): seq<IP> {
    Found([Answering(answer)], host, q)
  }

  lemma FirstOfOne(answer: seq<RR>, host: GoString, q: QType)
    ensures FirstUsable([Answering(answer)], host, q) == if answer == [] then 1 else 0
  {
    assert [Answering(answer)][1..] == [];
    assert Usable([Answering(answer)][0], host, q) <==> answer != [];
  }

  lemma AddressYieldIs(answer: seq<RR>, host: GoString, q: QType)
    ensures AddressYield(answer, host, q) == Addresses(answer)
  {
    FirstOfOne(answer, host, q);
  }

  /** What is found for a type is what the first usable response yields, and addresses are taken
      over unchanged, record by record: from A and AAAA records, whatever the type. */
  lemma AddressesInOrder(us: seq<Upstream>, x: seq<RR>, y: seq<RR>, ip: IP, host: GoString, q: QType)
    ensures
      var k := FirstUsable(us, host, q);
      Found(us, host, q) == if k < |us| then AddressYield(us[k](host, q).answer, host, q) else []
    ensures AddressYield(x + y, host, q) == AddressYield(x, host, q) + AddressYield(y, host, q)
    ensures AddressYield([A(ip)], host, q) == AddressYield([AAAA(ip)], host, q) == [ip]
    ensures forall rr: RR :: !rr.A? && !rr.AAAA? ==> AddressYield([rr], host, q) == []
  {
    var k := FirstUsable(us, host, q);
    if k < |us| { AddressYieldIs(us[k](host, q).answer, host, q); }
    AddressYieldIs(x, host, q);
    AddressYieldIs(y, host, q);
    AddressYieldIs(x + y, host, q);
    FlatMapAppend(AddressOf, x, y);
    AddressYieldIs([A(ip)], host, q);
    AddressYieldIs([AAAA(ip)], host, q);
    FlatMapOne(AddressOf, A(ip));
    FlatMapOne(AddressOf, AAAA(ip));
    forall rr: RR | !rr.A? && !rr.AAAA? ensures AddressYield([rr], host, q) == [] {
      AddressYieldIs([rr], host, q);
      FlatMapOne(AddressOf, rr);
    }
  }

  lemma {:induction false} ErrorsPointwise(us: seq<Upstream>, host: GoString, q: QType)
    requires forall i :: 0 <= i < |us| ==> !Usable(us[i], host, q)
    ensures |Errors(us, host, q)| == |us|
    ensures forall i :: 0 <= i < |us| ==>
      Errors(us, host, q)[i] ==
        match us[i](host, q)
        case NoReply(err) => NetworkError(err)
        case Reply(rcode, _) => if rcode != 0 then BadCode(rcode) else EmptyAnswer
  {
    if us != [] {
      assert !Usable(us[0], host, q) && |ErrorOf(host, q)(us[0])| == 1;
      forall i | 0 <= i < |us[1..]| ensures !Usable(us[1..][i], host, q) {
        assert !Usable(us[i + 1], host, q);
      }
      ErrorsPointwise(us[1..], host, q);
    }
  }

  /** The lookup over the upstreams, in full: the answer of the first with a reply that reports
      success and holds records, having asked the ones up to it in order; or, without one, the
      error of each, in order, having asked all. */
  lemma LookupAllExact(us: seq<Upstream>, host: GoString, q: QType, k: nat)
    requires k <= |us|
    requires forall j :: 0 <= j < k ==>
      us[j](host, q).NoReply? || us[j](host, q).rcode != 0 || us[j](host, q).answer == []
    requires k < |us| ==> us[k](host, q).Reply? && us[k](host, q).rcode == 0 && us[k](host, q).answer != []
    ensures k < |us| ==> LookupAll(us, host, q) == Ok(us[k](host, q).answer)
    ensures k < |us| ==> Consulted(us, host, q) == seq(k + 1, i requires 0 <= i => Query(q, i))
    ensures k == |us| ==> Consulted(us, host, q) == seq(k, i requires 0 <= i => Query(q, i))
    ensures k == |us| ==> LookupAll(us, host, q).Err? && |LookupAll(us, host, q).error| == |us|
    ensures k == |us| ==> forall i :: 0 <= i < |us| ==>
      LookupAll(us, host, q).error[i] ==
        match us[i](host, q)
        case NoReply(err) => NetworkError(err)
        case Reply(rcode, _) => if rcode != 0 then BadCode(rcode) else EmptyAnswer
  {
    FirstUsableIs(us, host, q, k);
    if k == |us| { ErrorsPointwise(us, host, q); }
  }

  /** A usable response without addresses ends the fallback all the same: an upstream behind it
      that knows the address is not asked. */
  lemma AliasOnlyAnswerStopsFallback(host: GoString, ip: IP)
    ensures
      var alias: Upstream := (h: GoString, q: QType) => Reply(RCODE_SUCCESS, [OtherRR]);
      var knows: Upstream := (h: GoString, q: QType) => Reply(RCODE_SUCCESS, [A(ip)]);
      && Found([knows], host, TypeA) == [ip]
      && Found([alias, knows], host, TypeA) == []
      && Consulted([alias, knows], host, TypeA) == [Query(TypeA, 0)]
  {
    FlatMapOne(AddressOf, OtherRR);
    FlatMapOne(AddressOf, A(ip));
  }

  /** --resolve end to end: the addresses of the last option for the very host, else of the last
      option for *, else none; whatever is found can be dialled. */
  lemma ResolveOptionsDecide(cfg: Config, parseIP: ParseIP, resolve: seq<GoString>, host: GoString)
    requires MapOf(ResolveParser(parseIP), resolve) == Ok(cfg.resolve)
    ensures LookupFromCfg(cfg, host) ==
      if LastResolve(parseIP, resolve, host).Some? then LastResolve(parseIP, resolve, host)
      else LastResolve(parseIP, resolve, "*")
    ensures LookupFromCfg(cfg, host).Some? ==> Dialable(LookupFromCfg(cfg, host).value)
  {
    ResolveRefinesOptions(parseIP, resolve, host);
    ResolveRefinesOptions(parseIP, resolve, "*");
  }

  // ----- Direct.Dial -----

  /** What Direct.Dial does with an address: it dials an IP and a port, or gives up, or indexes
      an empty list. */
  datatype Dialled = Target(ip: IP, port: GoString) | Failed | Panicked

  /** net.SplitHostPort: host and port, when the address has that form. */
  type SplitHostPort = GoString -> Option<(GoString, GoString)>

  function DialResult(cfg: Config, us: seq<Upstream>, parseIP: ParseIP, split: SplitHostPort, addr: GoString): Dialled {
    match split(addr)
    case None => Failed
    case Some((host, port)) =>
      match HostResult(cfg, us, parseIP, host)
      case Err(_) => Failed
      case Ok(ips) => if ips == [] then Panicked else Target(ips[0], port)
  }

  method DirectDial(resolver: DnsResolver, parseIP: ParseIP, split: SplitHostPort, addr: GoString) returns (d: Dialled)
    modifies resolver`log
    ensures d == DialResult(resolver.cfg, resolver.upstreams, parseIP, split, addr)
    ensures resolver.log == old(resolver.log) +
      match split(addr)
      case None => []
      case Some((host, _)) => HostQueries(resolver.cfg, resolver.upstreams, parseIP, host)
  {
    var hostPort := split(addr);
    if hostPort.None? {
      return Failed;
    }
    var ipAddrs := resolver.LookupHost(parseIP, hostPort.value.0);
    if ipAddrs.Err? {
      return Failed;
    }
    if |ipAddrs.value| == 0 {
      return Panicked;
    }
    return Target(ipAddrs.value[0], hostPort.value.1);
  }

  /** The query type that decides the dialled address: the first that yields one. */
  function DecidingType(cfg: Config, us: seq<Upstream>, host: GoString): QType {
    if cfg.ipv4 then TypeA
    else if cfg.ipv6 then TypeAAAA
    else if Succeeds(us, host, TypeA) then TypeA
    else TypeAAAA
  }

  lemma FirstFound(cfg: Config, us: seq<Upstream>, parseIP: ParseIP, host: GoString)
    requires parseIP(host) == None && LookupFromCfg(cfg, host) == None
    ensures
      var q := DecidingType(cfg, us, host);
      && (HostResult(cfg, us, parseIP, host).Ok? <==> Succeeds(us, host, q))
      && (Succeeds(us, host, q) ==>
            Found(us, host, q) == Addresses(us[FirstUsable(us, host, q)](host, q).answer) != [] &&
            HostResult(cfg, us, parseIP, host).value != [] &&
            HostResult(cfg, us, parseIP, host).value[0] == Found(us, host, q)[0])
  {
    FoundIffSucceeds(us, host, TypeA);
    FoundIffSucceeds(us, host, TypeAAAA);
    HostLookupExact(cfg, us, parseIP, host);
    var q := DecidingType(cfg, us, host);
    assert forall t :: t in QTypes(cfg) && Succeeds(us, host, t) ==> Succeeds(us, host, q);
    assert q in QTypes(cfg);
  }

  function First(ips: seq<IP>): Option<IP> {
    if ips == [] then None else Some(ips[0])
  }

  /** The first address in the first usable response, for the deciding query type. */
  function FirstOverDns(cfg: Config, us: seq<Upstream>, host: GoString): Option<IP> {
    var q := DecidingType(cfg, us, host);
    var k := FirstUsable(us, host, q);
    if k < |us| then First(Addresses(us[k](host, q).answer)) else None
  }

  /** The address wanted for a host: the literal itself, trimmed; else the first address of the
      last --resolve option for the host, or else for *; else the first address over DNS. */
  function WantedAddress(cfg: Config, us: seq<Upstream>, parseIP: ParseIP, resolve: seq<GoString>, host: GoString)
    : Option<IP>
  {
    if parseIP(host).Some? then Some(Trim(parseIP(host).value))
    else if LastResolve(parseIP, resolve, host).Some? then First(LastResolve(parseIP, resolve, host).value)
    else if LastResolve(parseIP, resolve, "*").Some? then First(LastResolve(parseIP, resolve, "*").value)
    else FirstOverDns(cfg, us, host)
  }

  lemma FirstAddressOf(cfg: Config, us: seq<Upstream>, parseIP: ParseIP, resolve: seq<GoString>, host: GoString)
    requires MapOf(ResolveParser(parseIP), resolve) == Ok(cfg.resolve)
    ensures
      var r := HostResult(cfg, us, parseIP, host);
      && (r.Ok? ==> r.value != [])
      && (if r.Ok? then First(r.value) else None) == WantedAddress(cfg, us, parseIP, resolve, host)
  {
    ResolveOptionsDecide(cfg, parseIP, resolve, host);
    if parseIP(host) == None && LookupFromCfg(cfg, host) == None {
      FirstFound(cfg, us, parseIP, host);
      FoundIffSucceeds(us, host, DecidingType(cfg, us, host));
    }
  }

  /** What is dialled, for every parsed configuration. The dial fails exactly when the address is
      malformed or no address is found for its host. */
  lemma DialTargetExact(cfg: Config, us: seq<Upstream>, parseIP: ParseIP, split: SplitHostPort,
                        resolve: seq<GoString>, addr: GoString)
    requires MapOf(ResolveParser(parseIP), resolve) == Ok(cfg.resolve)
    ensures DialResult(cfg, us, parseIP, split, addr) ==
      match split(addr)
      case None => Failed
      case Some((host, port)) =>
        match WantedAddress(cfg, us, parseIP, resolve, host)
        case None => Failed
        case Some(ip) => Target(ip, port)
  {
    if split(addr).Some? {
      FirstAddressOf(cfg, us, parseIP, resolve, split(addr).value.0);
    }
  }

  /** Taking element 0 is out of bounds exactly when the configuration holds an empty list for
      the host; no parsed configuration does. */
  lemma DialNeverPanics(cfg: Config, us: seq<Upstream>, parseIP: ParseIP, split: SplitHostPort, addr: GoString)
    ensures DialResult(cfg, us, parseIP, split, addr).Panicked? <==>
      split(addr).Some? && parseIP(split(addr).value.0) == None &&
      LookupFromCfg(cfg, split(addr).value.0) == Some([])
    ensures (exists resolve :: MapOf(ResolveParser(parseIP), resolve) == Ok(cfg.resolve)) ==>
      !DialResult(cfg, us, parseIP, split, addr).Panicked?
  {
    if resolve :| MapOf(ResolveParser(parseIP), resolve) == Ok(cfg.resolve) {
      if split(addr).Some? {
        ResolveOptionsDecide(cfg, parseIP, resolve, split(addr).value.0);
      }
    }
  }

  // ----- LookupECHConfigs -----

  function BlobIfWellFormed(decode: Decode): seq<Octet> -> seq<seq<Octet>> {
    (blob: seq<Octet>) => if decode(blob).Some? then [blob] else []
  }

  /** The blobs that decode. */
  function WellFormedBlobs(blobs: seq<seq<Octet>>, decode: Decode): seq<seq<Octet>> {
    FlatMap(BlobIfWellFormed(decode), blobs)
  }

  /** Malformed blobs neither drop nor reorder good ones: leaving them out changes nothing. */
  lemma {:induction false} MalformedBlobsAreHarmless(blobs: seq<seq<Octet>>, decode: Decode)
    ensures Decoded(WellFormedBlobs(blobs, decode), decode) == Decoded(blobs, decode)
    ensures |WellFormedBlobs(blobs, decode)| + |Malformed(blobs, decode)| == |blobs|
  {
    if blobs != [] {
      MalformedBlobsAreHarmless(blobs[1..], decode);
      FlatMapAppend(ConfigsOf(decode), BlobIfWellFormed(decode)(blobs[0]), WellFormedBlobs(blobs[1..], decode));
      FlatMapOne(ConfigsOf(decode), blobs[0]);
    }
  }

  /** Some HTTPS record of the answer has an ECH value that decodes to a configuration. */
  predicate OffersEch(answer: seq<RR>, decode: Decode) {
    exists blob :: blob in Blobs(answer) && decode(blob).Some? && decode(blob).value != []
  }

  /** The blobs are those of the ECH values of the HTTPS records, and no others. */
  lemma BlobsComplete(answer: seq<RR>, blob: seq<Octet>)
    ensures blob in Blobs(answer) <==>
      exists rr :: rr in answer && rr.HTTPS? && EchParam(blob) in rr.params
  {
    FlatMapMembers(BlobsOf, answer, blob);
    forall rr: RR | rr.HTTPS? ensures blob in BlobsOf(rr) <==> EchParam(blob) in rr.params {
      FlatMapMembers(BlobOf, rr.params, blob);
      if EchParam(blob) in rr.params { assert blob in BlobOf(EchParam(blob)); }
    }
  }

  const NOTHING: Config := Config(map[], true, false, [])

  /** The configurations that a lookup finds in this answer, if any. */
  function EchYield(answer: seq<RR>, decode: Decode, host: GoString): seq<EchConfig> {
    match EchResult(NOTHING, [Answering(answer)], decode, host)
    case Ok(configs) => configs
    case Err(_) => []
  }

  lemma EchYieldIs(answer: seq<RR>, decode: Decode, host: GoString)
    ensures EchYield(answer, decode, host) == Decoded(Blobs(answer), decode)
  {
    FirstOfOne(answer, host, TypeHTTPS);
  }

  /** Configurations come record by record, and within a record value by value, each with all that
      its blob decodes to. The clauses below leave no other list. */
  lemma EchInOrder(x: seq<RR>, y: seq<RR>, decode: Decode, host: GoString)
    ensures EchYield(x + y, decode, host) == EchYield(x, decode, host) + EchYield(y, decode, host)
  {
    EchYieldIs(x, decode, host);
    EchYieldIs(y, decode, host);
    EchYieldIs(x + y, decode, host);
    FlatMapAppend(BlobsOf, x, y);
    FlatMapAppend(ConfigsOf(decode), Blobs(x), Blobs(y));
  }

  lemma EchValuesInOrder(p: seq<SvcParam>, q: seq<SvcParam>, decode: Decode, host: GoString)
    ensures EchYield([HTTPS(p + q)], decode, host) ==
      EchYield([HTTPS(p)], decode, host) + EchYield([HTTPS(q)], decode, host)
  {
    EchYieldIs([HTTPS(p)], decode, host);
    EchYieldIs([HTTPS(q)], decode, host);
    EchYieldIs([HTTPS(p + q)], decode, host);
    FlatMapOne(BlobsOf, HTTPS(p));
    FlatMapOne(BlobsOf, HTTPS(q));
    FlatMapOne(BlobsOf, HTTPS(p + q));
    FlatMapAppend(BlobOf, p, q);
    FlatMapAppend(ConfigsOf(decode), BlobsOf(HTTPS(p)), BlobsOf(HTTPS(q)));
  }

  lemma EchOfOneValue(rr: RR, blob: seq<Octet>, decode: Decode, host: GoString)
    ensures EchYield([HTTPS([EchParam(blob)])], decode, host) ==
      if decode(blob).Some? then decode(blob).value else []
    ensures EchYield([HTTPS([OtherParam])], decode, host) == []
    ensures !rr.HTTPS? ==> EchYield([rr], decode, host) == []
  {
    EchYieldIs([HTTPS([EchParam(blob)])], decode, host);
    EchYieldIs([HTTPS([OtherParam])], decode, host);
    EchYieldIs([rr], decode, host);
    FlatMapOne(BlobsOf, HTTPS([EchParam(blob)]));
    FlatMapOne(BlobsOf, HTTPS([OtherParam]));
    FlatMapOne(BlobsOf, rr);
    FlatMapOne(BlobOf, EchParam(blob));
    FlatMapOne(BlobOf, OtherParam);
    FlatMapOne(ConfigsOf(decode), blob);
  }

  /** The blobs that a fruitless lookup reports as malformed. */
  function BadBlobs(answer: seq<RR>, decode: Decode, host: GoString): seq<seq<Octet>> {
    match EchResult(NOTHING, [Answering(answer)], decode, host)
    case Ok(_) => []
    case Err(e) => if e.NoConfigs? then e.malformed else []
  }

  lemma BadBlobsAre(answer: seq<RR>, decode: Decode, host: GoString)
    requires EchYield(answer, decode, host) == []
    ensures BadBlobs(answer, decode, host) == Malformed(Blobs(answer), decode)
  {
    FirstOfOne(answer, host, TypeHTTPS);
  }

  /** They too come in order: every blob that does not decode, and no other. */
  lemma BadBlobsInOrder(x: seq<RR>, y: seq<RR>, decode: Decode, host: GoString)
    requires EchYield(x, decode, host) == [] && EchYield(y, decode, host) == []
    ensures BadBlobs(x + y, decode, host) == BadBlobs(x, decode, host) + BadBlobs(y, decode, host)
  {
    EchInOrder(x, y, decode, host);
    BadBlobsAre(x, decode, host);
    BadBlobsAre(y, decode, host);
    BadBlobsAre(x + y, decode, host);
    FlatMapAppend(BlobsOf, x, y);
    FlatMapAppend(BlobIfMalformed(decode), Blobs(x), Blobs(y));
  }

  lemma BadBlobValuesInOrder(p: seq<SvcParam>, q: seq<SvcParam>, decode: Decode, host: GoString)
    requires EchYield([HTTPS(p)], decode, host) == [] && EchYield([HTTPS(q)], decode, host) == []
    ensures BadBlobs([HTTPS(p + q)], decode, host) ==
      BadBlobs([HTTPS(p)], decode, host) + BadBlobs([HTTPS(q)], decode, host)
  {
    EchValuesInOrder(p, q, decode, host);
    BadBlobsAre([HTTPS(p)], decode, host);
    BadBlobsAre([HTTPS(q)], decode, host);
    BadBlobsAre([HTTPS(p + q)], decode, host);
    FlatMapOne(BlobsOf, HTTPS(p));
    FlatMapOne(BlobsOf, HTTPS(q));
    FlatMapOne(BlobsOf, HTTPS(p + q));
    FlatMapAppend(BlobOf, p, q);
    FlatMapAppend(BlobIfMalformed(decode), BlobsOf(HTTPS(p)), BlobsOf(HTTPS(q)));
  }

  lemma BadBlobOfOneValue(blob: seq<Octet>, decode: Decode, host: GoString)
    requires decode(blob) == None || decode(blob) == Some([])
    ensures BadBlobs([HTTPS([EchParam(blob)])], decode, host) == if decode(blob).None? then [blob] else []
  {
    EchOfOneValue(OtherRR, blob, decode, host);
    BadBlobsAre([HTTPS([EchParam(blob)])], decode, host);
    FlatMapOne(BlobsOf, HTTPS([EchParam(blob)]));
    FlatMapOne(BlobOf, EchParam(blob));
    FlatMapOne(BlobIfMalformed(decode), blob);
  }

  /** Configured values are returned as they are. Without any, configurations are returned exactly
      when some upstream gives a usable answer that offers one; they are what the answer yields. */
  lemma EchCollectionExact(cfg: Config, us: seq<Upstream>, decode: Decode, host: GoString)
    ensures cfg.echConfigs != [] ==> EchResult(cfg, us, decode, host) == Ok(cfg.echConfigs)
    ensures cfg.echConfigs == [] ==>
      var k := FirstUsable(us, host, TypeHTTPS);
      && (EchResult(cfg, us, decode, host).Ok? <==> k < |us| && OffersEch(us[k](host, TypeHTTPS).answer, decode))
      && (EchResult(cfg, us, decode, host).Ok? ==>
            EchResult(cfg, us, decode, host).value == EchYield(us[k](host, TypeHTTPS).answer, decode, host))
  {
    var k := FirstUsable(us, host, TypeHTTPS);
    if k < |us| {
      var blobs := Blobs(us[k](host, TypeHTTPS).answer);
      EchYieldIs(us[k](host, TypeHTTPS).answer, decode, host);
      if Decoded(blobs, decode) != [] {
        FlatMapMembers(ConfigsOf(decode), blobs, Decoded(blobs, decode)[0]);
      }
      if blob :| blob in blobs && decode(blob).Some? && decode(blob).value != [] {
        FlatMapMembers(ConfigsOf(decode), blobs, decode(blob).value[0]);
        assert decode(blob).value[0] in ConfigsOf(decode)(blob);
      }
    }
  }

  /** errors.Is(err, ErrEmptyResponse) */
  predicate IsEmptyResponse(e: EchError) {
    e.NoConfigs? || EmptyAnswer in e.errs
  }

  predicate RepliesEmpty(u: Upstream, host: GoString, q: QType) {
    u(host, q) == Reply(RCODE_SUCCESS, [])
  }

  lemma {:induction false} EmptyAmongErrors(us: seq<Upstream>, host: GoString, q: QType)
    ensures EmptyAnswer in Errors(us, host, q) <==> exists i :: 0 <= i < |us| && RepliesEmpty(us[i], host, q)
  {
    if us != [] {
      EmptyAmongErrors(us[1..], host, q);
      if i :| 0 <= i < |us| && RepliesEmpty(us[i], host, q) {
        if i > 0 { assert RepliesEmpty(us[1..][i - 1], host, q); }
      }
      if i :| 0 <= i < |us[1..]| && RepliesEmpty(us[1..][i], host, q) {
        assert RepliesEmpty(us[i + 1], host, q);
      }
    }
  }

  /** The doc comment promises ErrEmptyResponse whenever no configuration is found. It is reported
      exactly when some upstream replied with success: with records, none of them of use, or
      without any. If all fail or refuse, the error is another one. */
  lemma EmptyResponseExactly(cfg: Config, us: seq<Upstream>, decode: Decode, host: GoString)
    requires EchResult(cfg, us, decode, host).Err?
    ensures IsEmptyResponse(EchResult(cfg, us, decode, host).error) <==>
      exists i :: 0 <= i < |us| && us[i](host, TypeHTTPS).Reply? && us[i](host, TypeHTTPS).rcode == RCODE_SUCCESS
  {
    EmptyAmongErrors(us, host, TypeHTTPS);
    var k := FirstUsable(us, host, TypeHTTPS);
    if k < |us| {
      assert us[k](host, TypeHTTPS).Reply?;
    } else {
      if i :| 0 <= i < |us| && us[i](host, TypeHTTPS).Reply? && us[i](host, TypeHTTPS).rcode == RCODE_SUCCESS {
        assert !Usable(us[i], host, TypeHTTPS);
        assert RepliesEmpty(us[i], host, TypeHTTPS);
      }
      if i :| 0 <= i < |us| && RepliesEmpty(us[i], host, TypeHTTPS) {
        assert us[i](host, TypeHTTPS).Reply?;
      }
    }
  }

  /** One refusing upstream is an input for which the promise fails. */
  lemma RefusalIsNotEmptyResponse(decode: Decode, host: GoString, rcode: nat)
    requires rcode != RCODE_SUCCESS
    ensures
      var refuses: Upstream := (h: GoString, q: QType) => Reply(rcode, []);
      var r := EchResult(Config(map[], false, false, []), [refuses], decode, host);
      r.Err? && !IsEmptyResponse(r.error)
  {
    var refuses: Upstream := (h: GoString, q: QType) => Reply(rcode, []);
    assert [refuses][1..] == [];
    assert FirstUsable([refuses], host, TypeHTTPS) == 1;
    FlatMapOne(ErrorOf(host, TypeHTTPS), refuses);
  }
}
