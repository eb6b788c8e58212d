/** internal/config/config.go: the options that are cut at colons and collected in maps.

    net.ParseIP is an oracle: a partial function from text to an address of 4 or 16 bytes. */
module Overrides {
  import opened Seqs
  import opened GoStrings

  // ----- maps built from option lists -----

  /** A Go map after assigning the pairs one after the other. */
  function BuildMap<V>(pairs: seq<(GoString, V)>): map<GoString, V> {
    if pairs == [] then map[]
    else BuildMap(pairs[..|pairs| - 1])[pairs[|pairs| - 1].0 := pairs[|pairs| - 1].1]
  }

  function Get<V>(m: map<GoString, V>, key: GoString): Option<V> {
    if key in m then Some(m[key]) else None
  }

  /** The value of the last pair with this key. */
  function LastValue<V>(pairs: seq<(GoString, V)>, key: GoString): Option<V> {
    if pairs == [] then None
    else
      var rest := LastValue(pairs[1..], key);
      if rest.Some? then rest else if pairs[0].0 == key then Some(pairs[0].1) else None
  }

  lemma {:induction false} LastValueSnoc<V>(pairs: seq<(GoString, V)>, last: (GoString, V), key: GoString)
    ensures LastValue(pairs + [last], key) == if last.0 == key then Some(last.1) else LastValue(pairs, key)
  {
    if pairs == [] {
      assert pairs + [last] == [last] && [last][1..] == [];
    } else {
      assert (pairs + [last])[1..] == pairs[1..] + [last];
      LastValueSnoc(pairs[1..], last, key);
    }
  }

  /** The last matching option wins. */
  lemma {:induction false} LastOptionWins<V>(pairs: seq<(GoString, V)>, key: GoString)
    ensures Get(BuildMap(pairs), key) == LastValue(pairs, key)
  {
    if pairs != [] {
      var front, last := pairs[..|pairs| - 1], pairs[|pairs| - 1];
      assert pairs == front + [last];
      LastOptionWins(front, key);
      LastValueSnoc(front, last, key);
    }
  }

  lemma BuildMapSnoc<V>(pairs: seq<(GoString, V)>, last: (GoString, V))
    ensures BuildMap(pairs + [last]) == BuildMap(pairs)[last.0 := last.1]
  {
    assert (pairs + [last])[..|pairs|] == pairs;
  }

  lemma BuildMapLast<V>(pairs: seq<(GoString, V)>)
    requires pairs != []
    ensures Get(BuildMap(pairs), pairs[|pairs| - 1].0) == Some(pairs[|pairs| - 1].1)
  {
  }

  /** A list of options as a map, or the first error. */
  function MapOf<V, E>(parse: GoString -> Result<(GoString, V), E>, options: seq<GoString>)
    : Result<map<GoString, V>, E>
  {
    match Traverse(parse, options)
    case Err(e) => Err(e)
    case Ok(pairs) => Ok(BuildMap(pairs))
  }

  // ----- connect-to -----

  function Colon(a: GoString, b: GoString): GoString {
    a + ":" + b
  }

  /** One --connect-to option: the address it redirects and the new address. */
  function ConnectToOption(ct: GoString): Result<(GoString, GoString), GoString> {
    var parts := SplitN(ct, ':', 4);
    if |parts| != 4 then Err(ct)
    else Ok((Colon(parts[0], parts[1]), Colon(parts[2], parts[3])))
  }

  method ParseConnectTo(connectTo: seq<GoString>) returns (r: Result<map<GoString, GoString>, GoString>)
    ensures r == MapOf(ConnectToOption, connectTo)
  {
    var m: map<GoString, GoString> := map[];
    for i := 0 to |connectTo|
      invariant Traverse(ConnectToOption, connectTo[..i]).Ok?
      invariant m == BuildMap(Traverse(ConnectToOption, connectTo[..i]).value)
    {
      var ct := connectTo[i];
      TraverseStep(ConnectToOption, connectTo, i);
      var parts := SplitN(ct, ':', 4);
      if |parts| != 4 {
        return Err(ct);
      }
      var oldHost := Colon(parts[0], parts[1]);
      var newHost := Colon(parts[2], parts[3]);
      BuildMapSnoc(Traverse(ConnectToOption, connectTo[..i]).value, (oldHost, newHost));
      m := m[oldHost := newHost];
    }
    assert connectTo[..|connectTo|] == connectTo;
    return Ok(m);
  }

  /** The redirect of an address: the target of the last option that names it. */
  function LastRedirect(connectTo: seq<GoString>, addr: GoString): Option<GoString> {
    match Traverse(ConnectToOption, connectTo)
    case Err(_) => None
    case Ok(pairs) => LastValue(pairs, addr)
  }

  /** The connect-to map refines the option list, and exists exactly when every option has at
      least three colons. */
  lemma ConnectToRefinesOptions(connectTo: seq<GoString>, addr: GoString)
    ensures MapOf(ConnectToOption, connectTo).Ok? <==> forall ct :: ct in connectTo ==> |Split(ct, ':')| >= 4
    ensures MapOf(ConnectToOption, connectTo).Ok? ==>
      Get(MapOf(ConnectToOption, connectTo).value, addr) == LastRedirect(connectTo, addr)
  {
    TraversePointwise(ConnectToOption, connectTo);
    forall ct | ct in connectTo ensures ConnectToOption(ct).Ok? <==> |Split(ct, ':')| >= 4 {
      SplitNCount(ct, ':', 4);
    }
    if Traverse(ConnectToOption, connectTo).Ok? {
      LastOptionWins(Traverse(ConnectToOption, connectTo).value, addr);
    }
  }

  /** A list that is refused is refused for its first option with fewer than three colons. */
  lemma FirstMalformedIsReported(connectTo: seq<GoString>, k: nat)
    requires k < |connectTo| && |Split(connectTo[k], ':')| < 4
    requires forall j :: 0 <= j < k ==> |Split(connectTo[j], ':')| >= 4
    ensures MapOf(ConnectToOption, connectTo) == Err(connectTo[k])
  {
    forall j | 0 <= j <= k ensures ConnectToOption(connectTo[j]).Ok? <==> |Split(connectTo[j], ':')| >= 4 {
      SplitNCount(connectTo[j], ':', 4);
    }
    TraverseErrorAt(ConnectToOption, connectTo, k);
  }

  /** Cutting around the first colon of the target and joining again gives the target. */
  lemma TwoPieces(h2: GoString, p2: GoString)
    ensures |SplitN(Colon(h2, p2), ':', 2)| == 2
    ensures Colon(SplitN(Colon(h2, p2), ':', 2)[0], SplitN(Colon(h2, p2), ':', 2)[1]) == Colon(h2, p2)
  {
    var s := Colon(h2, p2);
    SplitNPieces(s, ':', 2);
    SplitNCount(s, ':', 2);
    SplitPieces(s, ':');
    assert s[|h2|] == ':';
    var parts := SplitN(s, ':', 2);
    assert parts == [parts[0]] + [parts[1]];
    JoinStep(parts[0], [parts[1]], ':');
  }

  lemma ColonSplit(a: GoString, b: GoString)
    ensures |Split(Colon(a, b), ':')| == 2 <==> ':' !in a && ':' !in b
  {
    SplitAroundSeparator(a, ':', b);
    SplitPieces(a, ':');
    SplitPieces(b, ':');
  }

  lemma FreeSubjectRedirects(h1: GoString, p1: GoString, h2: GoString, p2: GoString)
    requires ':' !in h1 && ':' !in p1
    ensures ConnectToOption(Colon(h1, Colon(p1, Colon(h2, p2)))) == Ok((Colon(h1, p1), Colon(h2, p2)))
  {
    var target := Colon(h2, p2);
    SplitNStep(h1, ':', Colon(p1, target), 4);
    SplitNStep(p1, ':', target, 3);
    TwoPieces(h2, p2);
    var last := SplitN(target, ':', 2);
    var parts := SplitN(Colon(h1, Colon(p1, target)), ':', 4);
    assert parts == [h1] + ([p1] + last);
    assert |parts| == 4 && parts[0] == h1 && parts[1] == p1 && parts[2] == last[0] && parts[3] == last[1];
  }

  lemma SubjectHasOneColon(ct: GoString)
    requires ConnectToOption(ct).Ok?
    ensures |Split(ConnectToOption(ct).value.0, ':')| == 2
  {
    SplitNPieces(ct, ':', 4);
    var parts := SplitN(ct, ':', 4);
    assert ':' !in parts[0] && ':' !in parts[1];
    ColonSplit(parts[0], parts[1]);
  }

  /** The option HOST1:PORT1:HOST2:PORT2 redirects HOST1:PORT1, to exactly HOST2:PORT2, if and
      only if HOST1 and PORT1 hold no colon. HOST2 and PORT2 are arbitrary, so an IPv6 address
      can be the target of a redirect but never its subject. */
  lemma ConnectToOptionMeaning(h1: GoString, p1: GoString, h2: GoString, p2: GoString)
    ensures ConnectToOption(Colon(h1, Colon(p1, Colon(h2, p2)))) == Ok((Colon(h1, p1), Colon(h2, p2)))
      <==> ':' !in h1 && ':' !in p1
  {
    var ct := Colon(h1, Colon(p1, Colon(h2, p2)));
    if ':' !in h1 && ':' !in p1 {
      FreeSubjectRedirects(h1, p1, h2, p2);
    } else if ConnectToOption(ct).Ok? {
      SubjectHasOneColon(ct);
      ColonSplit(h1, p1);
    }
  }

  lemma {:induction false} NoValueNoPair<V>(pairs: seq<(GoString, V)>, key: GoString, j: nat)
    requires LastValue(pairs, key) == None && j < |pairs|
    ensures pairs[j].0 != key
  {
    if j > 0 { NoValueNoPair(pairs[1..], key, j - 1); }
  }

  lemma {:induction false} LastValueIsAPair<V>(pairs: seq<(GoString, V)>, key: GoString) returns (i: nat)
    requires LastValue(pairs, key).Some?
    ensures i < |pairs| && pairs[i] == (key, LastValue(pairs, key).value)
    ensures forall j :: i < j < |pairs| ==> pairs[j].0 != key
  {
    if LastValue(pairs[1..], key).Some? {
      i := LastValueIsAPair(pairs[1..], key);
      i := i + 1;
      assert forall j :: i < j < |pairs| ==> pairs[j] == pairs[1..][j - 1];
    } else {
      i := 0;
      forall j | 0 < j < |pairs| ensures pairs[j].0 != key { NoValueNoPair(pairs[1..], key, j - 1); }
    }
  }

  /** So no list of options redirects an address that does not have exactly one colon, such as one
      with an IPv6 literal for its host. */
  lemma {:induction false} NoRedirectOfIPv6(options: seq<GoString>, addr: GoString)
    requires |Split(addr, ':')| != 2
    ensures LastRedirect(options, addr) == None
    ensures MapOf(ConnectToOption, options).Ok? ==> addr !in MapOf(ConnectToOption, options).value
  {
    ConnectToRefinesOptions(options, addr);
    if LastRedirect(options, addr).Some? {
      var pairs := Traverse(ConnectToOption, options).value;
      var i := LastValueIsAPair(pairs, addr);
      TraversePointwise(ConnectToOption, options);
      SubjectHasOneColon(options[i]);
    }
  }

  lemma BracketedText(rest: GoString)
    ensures Colon("[", Colon("", Colon("1]", rest))) == "[::1]:" + rest
  {
    var tail := Colon("1]", rest);
    assert tail == "1]:" + rest;
    assert Colon("", tail) == ":1]:" + rest;
  }

  /** The bracketed IPv6 subject [::1]:443 is cut inside the brackets. */
  lemma IPv6SubjectIsMisread(target: GoString)
    ensures ConnectToOption("[::1]:" + Colon("443", target)) == Ok((Colon("[", ""), Colon("1]", Colon("443", target))))
  {
    FreeSubjectRedirects("[", "", "1]", Colon("443", target));
    BracketedText(Colon("443", target));
  }

  // ----- resolve -----

  type IP = seq<Octet>

  type ParseIP = GoString -> Option<IP>

  /** net.IP.To4: the 4-byte form of an IPv4 address, also of one mapped into IPv6 (section
      2.5.5.2 of RFC 4291). */
  function To4(ip: IP): Option<IP> {
    if |ip| == 4 then Some(ip)
    else if |ip| == 16 && (forall i :: 0 <= i < 10 ==> ip[i] == 0) && ip[10] == 0xff && ip[11] == 0xff then
      Some(ip[12..16])
    else None
  }

  function Trim(ip: IP): IP {
    if To4(ip).Some? then To4(ip).value else ip
  }

  /** No address in this list is an IPv4 address in 16-byte form, and there is at least one. */
  predicate Dialable(ips: seq<IP>) {
    ips != [] && forall i :: 0 <= i < |ips| ==> To4(ips[i]) == None || |ips[i]| == 4
  }

  datatype ResolveError = BadFormat(option: GoString) | BadAddr(addr: GoString)

  function AddrParser(parseIP: ParseIP): GoString -> Result<IP, ResolveError> {
    (a: GoString) => if parseIP(a).None? then Err(BadAddr(a)) else Ok(Trim(parseIP(a).value))
  }

  /** One --resolve option: the host and its addresses; the port is dropped. */
  function ResolveOption(parseIP: ParseIP, r: GoString): Result<(GoString, seq<IP>), ResolveError> {
    var parts := SplitN(r, ':', 3);
    if |parts| != 3 then Err(BadFormat(r))
    else match Traverse(AddrParser(parseIP), Split(parts[2], ','))
      case Err(e) => Err(e)
      case Ok(ips) => Ok((parts[0], ips))
  }

  function ResolveParser(parseIP: ParseIP): GoString -> Result<(GoString, seq<IP>), ResolveError> {
    (r: GoString) => ResolveOption(parseIP, r)
  }

  /** The inner loop of parseResolve. */
  method ParseAddrs(parseIP: ParseIP, addrs: seq<GoString>) returns (r: Result<seq<IP>, ResolveError>)
    ensures r == Traverse(AddrParser(parseIP), addrs)
    ensures r.Ok? ==> |r.value| == |addrs|
  {
    TraversePointwise(AddrParser(parseIP), addrs);
    var ipAddresses: seq<IP> := [];
    for i := 0 to |addrs|
      invariant Traverse(AddrParser(parseIP), addrs[..i]) == Ok(ipAddresses)
    {
      TraverseStep(AddrParser(parseIP), addrs, i);
      var ipAddr := parseIP(addrs[i]);
      if ipAddr.None? {
        return Err(BadAddr(addrs[i]));
      }
      var ip := ipAddr.value;
      if To4(ip).Some? {
        ip := To4(ip).value;
      }
      ipAddresses := ipAddresses + [ip];
    }
    assert addrs[..|addrs|] == addrs;
    return Ok(ipAddresses);
  }

  method ParseResolve(parseIP: ParseIP, resolve: seq<GoString>)
    returns (r: Result<map<GoString, seq<IP>>, ResolveError>)
    ensures r == MapOf(ResolveParser(parseIP), resolve)
  {
    ghost var parse := ResolveParser(parseIP);
    var m: map<GoString, seq<IP>> := map[];
    for i := 0 to |resolve|
      invariant Traverse(parse, resolve[..i]).Ok?
      invariant m == BuildMap(Traverse(parse, resolve[..i]).value)
    {
      TraverseStep(parse, resolve, i);
      var parts := SplitN(resolve[i], ':', 3);
      if |parts| != 3 {
        return Err(BadFormat(resolve[i]));
      }
      var host := parts[0];
      var ipAddresses := ParseAddrs(parseIP, Split(parts[2], ','));
      if ipAddresses.Err? {
        return Err(ipAddresses.error);
      }
      if |ipAddresses.value| == 0 {
        // cannot happen: a split has at least one piece
        SplitPieces(parts[2], ',');
        assert false;
      }
      BuildMapSnoc(Traverse(parse, resolve[..i]).value, (host, ipAddresses.value));
      m := m[host := ipAddresses.value];
    }
    assert resolve[..|resolve|] == resolve;
    return Ok(m);
  }

  /** An IPv4 address mapped into IPv6. */
  function Mapped(v4: IP): IP {
    [0, 0, 0, 0, 0, 0, 0, 0, 0, 0, 0xff, 0xff] + v4
  }

  /** Trimming undoes the mapping and leaves every other address alone. */
  lemma TrimUnmaps(ip: IP)
    ensures |ip| == 4 ==> Trim(Mapped(ip)) == ip
    ensures |ip| == 16 && ip == Mapped(ip[12..]) ==> Trim(ip) == ip[12..]
    ensures !(|ip| == 16 && ip == Mapped(ip[12..])) ==> Trim(ip) == ip
  {
    if |ip| == 16 {
      if To4(ip).Some? {
        assert ip[..12] == [0, 0, 0, 0, 0, 0, 0, 0, 0, 0, 0xff, 0xff];
        assert ip == ip[..12] + ip[12..];
      }
      assert ip[12..16] == ip[12..];
    }
  }

  lemma TrimIsTrimmed(ip: IP)
    ensures To4(Trim(ip)) == None || |Trim(ip)| == 4
  {
  }

  /** The addresses of an accepted option are its list cut at commas, each trimmed; there is at
      least one. */
  lemma ResolveOptionDialable(parseIP: ParseIP, r: GoString)
    requires ResolveOption(parseIP, r).Ok?
    ensures Dialable(ResolveOption(parseIP, r).value.1)
  {
    var parts := SplitN(r, ':', 3);
    var addrs := Split(parts[2], ',');
    TraversePointwise(AddrParser(parseIP), addrs);
    SplitPieces(parts[2], ',');
    var ips := ResolveOption(parseIP, r).value.1;
    forall i | 0 <= i < |ips| ensures To4(ips[i]) == None || |ips[i]| == 4 {
      assert AddrParser(parseIP)(addrs[i]) == Ok(ips[i]);
      TrimIsTrimmed(parseIP(addrs[i]).value);
    }
  }

  /** The text behind the second colon. */
  function AddrsText(r: GoString): GoString {
    SplitNPieces(r, ':', 3);
    SplitN(r, ':', 3)[|SplitN(r, ':', 3)| - 1]
  }

  lemma ParsedAddresses(parseIP: ParseIP, addrs: seq<GoString>)
    ensures Traverse(AddrParser(parseIP), addrs).Ok? <==> forall a :: a in addrs ==> parseIP(a).Some?
    ensures Traverse(AddrParser(parseIP), addrs).Ok? ==>
      var ips := Traverse(AddrParser(parseIP), addrs).value;
      |ips| == |addrs| && forall i :: 0 <= i < |addrs| ==>
        parseIP(addrs[i]).Some? && ips[i] == Trim(parseIP(addrs[i]).value)
  {
    var f := AddrParser(parseIP);
    TraversePointwise(f, addrs);
    assert forall a :: f(a).Ok? <==> parseIP(a).Some?;
    if Traverse(f, addrs).Ok? {
      var ips := Traverse(f, addrs).value;
      forall i | 0 <= i < |addrs| ensures parseIP(addrs[i]).Some? && ips[i] == Trim(parseIP(addrs[i]).value) {
        assert f(addrs[i]) == Ok(ips[i]);
      }
    }
  }

  /** An option is accepted exactly when it has two colons and every address behind them parses;
      its addresses keep their order. */
  lemma ResolveOptionAccepted(parseIP: ParseIP, r: GoString)
    ensures ResolveOption(parseIP, r).Ok? <==>
      |Split(r, ':')| >= 3 && forall a :: a in Split(AddrsText(r), ',') ==> parseIP(a).Some?
    ensures ResolveOption(parseIP, r).Ok? ==>
      var addrs := Split(AddrsText(r), ',');
      |addrs| == |ResolveOption(parseIP, r).value.1| &&
      forall i :: 0 <= i < |addrs| ==>
        parseIP(addrs[i]).Some? && ResolveOption(parseIP, r).value.1[i] == Trim(parseIP(addrs[i]).value)
  {
    SplitNCount(r, ':', 3);
    var addrs := Split(AddrsText(r), ',');
    var f := AddrParser(parseIP);
    TraversePointwise(f, addrs);
    assert forall a :: f(a).Ok? <==> parseIP(a).Some?;
    if ResolveOption(parseIP, r).Ok? {
      forall i | 0 <= i < |addrs|
        ensures parseIP(addrs[i]).Some? && ResolveOption(parseIP, r).value.1[i] == Trim(parseIP(addrs[i]).value)
      {
        assert f(addrs[i]) == Ok(ResolveOption(parseIP, r).value.1[i]);
      }
    }
  }

  /** One bad option rejects the whole list. */
  lemma ResolveAcceptedExactly(parseIP: ParseIP, resolve: seq<GoString>)
    ensures MapOf(ResolveParser(parseIP), resolve).Ok? <==>
      forall r :: r in resolve ==>
        |Split(r, ':')| >= 3 && forall a :: a in Split(AddrsText(r), ',') ==> parseIP(a).Some?
  {
    TraversePointwise(ResolveParser(parseIP), resolve);
    forall r
      ensures ResolveParser(parseIP)(r).Ok? <==>
        |Split(r, ':')| >= 3 && forall a :: a in Split(AddrsText(r), ',') ==> parseIP(a).Some?
    {
      ResolveOptionAccepted(parseIP, r);
    }
  }

  /** An option read by its fields: the host in front of the first colon and the port, which is
      dropped, in front of the second; the addresses are the pieces of the rest, in order. */
  lemma ResolveOptionReads(parseIP: ParseIP, host: GoString, port: GoString, text: GoString)
    requires ':' !in host && ':' !in port
    ensures
      var addrs, r := Split(text, ','), ResolveOption(parseIP, Colon(host, Colon(port, text)));
      && (r.Ok? <==> forall a :: a in addrs ==> parseIP(a).Some?)
      && (r.Ok? ==> r.value.0 == host && |r.value.1| == |addrs|)
      && (r.Ok? ==> forall i :: 0 <= i < |addrs| ==>
            parseIP(addrs[i]).Some? && r.value.1[i] == Trim(parseIP(addrs[i]).value))
  {
    SplitNStep(host, ':', Colon(port, text), 3);
    SplitNStep(port, ':', text, 2);
    var parts := SplitN(Colon(host, Colon(port, text)), ':', 3);
    assert parts == [host] + ([port] + [text]);
    assert |parts| == 3 && parts[0] == host && parts[2] == text;
    ParsedAddresses(parseIP, Split(text, ','));
  }

  /** What a refused option is refused for: its format, or its first address that does not parse. */
  lemma ResolveOptionRefused(parseIP: ParseIP, r: GoString, k: nat)
    ensures |Split(r, ':')| < 3 ==> ResolveOption(parseIP, r) == Err(BadFormat(r))
    ensures
      var addrs := Split(AddrsText(r), ',');
      var first := k < |addrs| && parseIP(addrs[k]).None? && forall j :: 0 <= j < k ==> parseIP(addrs[j]).Some?;
      |Split(r, ':')| >= 3 && first ==> ResolveOption(parseIP, r) == Err(BadAddr(addrs[k]))
  {
    SplitNCount(r, ':', 3);
    var addrs := Split(AddrsText(r), ',');
    if |Split(r, ':')| >= 3 && k < |addrs| && parseIP(addrs[k]).None? &&
       forall j :: 0 <= j < k ==> parseIP(addrs[j]).Some?
    {
      TraverseErrorAt(AddrParser(parseIP), addrs, k);
    }
  }

  /** And a list is refused for its first option that is. */
  lemma FirstRefusedIsReported(parseIP: ParseIP, resolve: seq<GoString>, k: nat)
    requires k < |resolve| && ResolveOption(parseIP, resolve[k]).Err?
    requires forall j :: 0 <= j < k ==> ResolveOption(parseIP, resolve[j]).Ok?
    ensures MapOf(ResolveParser(parseIP), resolve) == Err(ResolveOption(parseIP, resolve[k]).error)
  {
    TraverseErrorAt(ResolveParser(parseIP), resolve, k);
  }

  /** The addresses that the last option for this very host gives. */
  function LastResolve(parseIP: ParseIP, resolve: seq<GoString>, host: GoString): Option<seq<IP>> {
    match Traverse(ResolveParser(parseIP), resolve)
    case Err(_) => None
    case Ok(pairs) => LastValue(pairs, host)
  }

  /** The resolve map refines the option list, and everything in it can be dialled. */
  lemma ResolveRefinesOptions(parseIP: ParseIP, resolve: seq<GoString>, host: GoString)
    requires MapOf(ResolveParser(parseIP), resolve).Ok?
    ensures Get(MapOf(ResolveParser(parseIP), resolve).value, host) == LastResolve(parseIP, resolve, host)
    ensures LastResolve(parseIP, resolve, host).Some? ==> Dialable(LastResolve(parseIP, resolve, host).value)
  {
    var pairs := Traverse(ResolveParser(parseIP), resolve).value;
    LastOptionWins(pairs, host);
    if LastValue(pairs, host).Some? {
      var i := LastValueIsAPair(pairs, host);
      TraversePointwise(ResolveParser(parseIP), resolve);
      assert ResolveParser(parseIP)(resolve[i]) == Ok(pairs[i]);
      ResolveOptionDialable(parseIP, resolve[i]);
    }
  }

  /** Printing host:port:addr,... and parsing gives the host and the addresses, in order, IPv6
      ones with their colons included, exactly when host and port hold no colon. */
  lemma ResolveOptionMeaning(host: GoString, port: GoString, addrs: seq<GoString>)
    requires addrs != [] && forall a :: a in addrs ==> ',' !in a
    ensures SplitN(Colon(host, Colon(port, Join(addrs, ','))), ':', 3) == [host, port, Join(addrs, ',')]
      <==> ':' !in host && ':' !in port
    ensures Split(Join(addrs, ','), ',') == addrs
  {
    var fields := [host, port, Join(addrs, ',')];
    JoinStep(host, [port, Join(addrs, ',')], ':');
    JoinStep(port, [Join(addrs, ',')], ':');
    assert fields == [host] + [port, Join(addrs, ',')] && [port, Join(addrs, ',')] == [port] + [Join(addrs, ',')];
    SplitNInvertsJoin(fields, ':');
    assert LeadingFieldsFree(fields, ':') <==> ':' !in fields[0] && ':' !in fields[1];
    SplitInvertsJoin(addrs, ',');
  }

  lemma HostFirst(host: GoString, rest: GoString)
    requires ':' !in host
    ensures
      var parts := SplitN(Colon(host, rest), ':', 3);
      |parts| == 1 + |SplitN(rest, ':', 2)| && parts[0] == host && parts[1..] == SplitN(rest, ':', 2)
    ensures |SplitN(Colon(host, rest), ':', 3)| == 3 ==>
      SplitN(Colon(host, rest), ':', 3)[2] == SplitN(rest, ':', 2)[1]
  {
    SplitNStep(host, ':', rest, 3);
  }

  /** The help text allows a leading +, but it is not stripped: it becomes part of the host. */
  lemma PlusStaysInHost(parseIP: ParseIP, host: GoString, rest: GoString)
    requires ':' !in host && ResolveOption(parseIP, Colon(host, rest)).Ok?
    ensures ResolveOption(parseIP, "+" + Colon(host, rest)) ==
      Ok(("+" + host, ResolveOption(parseIP, Colon(host, rest)).value.1))
    ensures "+" + host != host
  {
    var plus := "+" + host;
    assert "+" + Colon(host, rest) == Colon(plus, rest);
    HostFirst(host, rest);
    HostFirst(plus, rest);
    assert |plus| == |host| + 1;
  }

  // ----- experiments -----

  /** One --experiment option; pq is the only experiment. */
  function ExperimentOption(exp: GoString): Result<(GoString, GoString), GoString> {
    var parts := SplitN(exp, ':', 2);
    if parts[0] == "pq" then Ok((parts[0], if |parts| == 2 then parts[1] else [])) else Err(exp)
  }

  method ParseExperiments(exps: seq<GoString>) returns (r: Result<map<GoString, GoString>, GoString>)
    ensures r == MapOf(ExperimentOption, exps)
  {
    var expMap: map<GoString, GoString> := map[];
    for i := 0 to |exps|
      invariant Traverse(ExperimentOption, exps[..i]).Ok?
      invariant expMap == BuildMap(Traverse(ExperimentOption, exps[..i]).value)
    {
      TraverseStep(ExperimentOption, exps, i);
      var parts := SplitN(exps[i], ':', 2);
      var expName := parts[0];
      var value: GoString := [];
      if |parts| == 2 {
        value := parts[1];
      }
      if expName != "pq" {
        return Err(exps[i]);
      }
      BuildMapSnoc(Traverse(ExperimentOption, exps[..i]).value, (expName, value));
      expMap := expMap[expName := value];
    }
    assert exps[..|exps|] == exps;
    return Ok(expMap);
  }

  lemma NameBeforeColon(name: GoString, rest: GoString)
    requires ':' !in name
    ensures name == "pq" <==> HasPrefix(name + [':'] + rest, "pq:")
  {
    var exp := name + [':'] + rest;
    assert exp[|name|] == ':';
    if HasPrefix(exp, "pq:") {
      assert exp[0] == 'p' && exp[1] == 'q' && exp[2] == ':';
      assert forall i :: 0 <= i < |name| ==> exp[i] == name[i];
      assert name == exp[..|name|];
    }
  }

  /** The name ends at the first colon; the value is all that follows, colons included. Every
      other name is refused. */
  lemma ExperimentOptionMeaning(exp: GoString, value: GoString)
    ensures ExperimentOption("pq") == Ok(("pq", []))
    ensures ExperimentOption(Colon("pq", value)) == Ok(("pq", value))
    ensures ExperimentOption(exp).Ok? <==> exp == "pq" || HasPrefix(exp, "pq:")
  {
    SplitNStep("pq", ':', value, 2);
    if ':' in exp {
      var name, rest := CutAtIndex(exp, ':');
      SplitNStep(name, ':', rest, 2);
      NameBeforeColon(name, rest);
      assert ':' !in "pq";
    }
    assert HasPrefix(exp, "pq:") ==> exp[2] == ':';
  }

  /** A list that is refused is refused for its first option that names another experiment. */
  lemma FirstUnknownIsReported(exps: seq<GoString>, k: nat)
    requires k < |exps| && exps[k] != "pq" && !HasPrefix(exps[k], "pq:")
    requires forall j :: 0 <= j < k ==> exps[j] == "pq" || HasPrefix(exps[j], "pq:")
    ensures MapOf(ExperimentOption, exps) == Err(exps[k])
  {
    forall j | 0 <= j <= k ensures ExperimentOption(exps[j]).Ok? <==> exps[j] == "pq" || HasPrefix(exps[j], "pq:") {
      ExperimentOptionMeaning(exps[j], []);
    }
    TraverseErrorAt(ExperimentOption, exps, k);
  }

  /** In an accepted list every option names the one experiment, and the last one sets its value. */
  lemma LastExperimentWins(exps: seq<GoString>)
    requires MapOf(ExperimentOption, exps).Ok? && exps != []
    ensures ExperimentOption(exps[|exps| - 1]).Ok?
    ensures Get(MapOf(ExperimentOption, exps).value, "pq") == Some(ExperimentOption(exps[|exps| - 1]).value.1)
  {
    TraversePointwise(ExperimentOption, exps);
    var pairs := Traverse(ExperimentOption, exps).value;
    var last := pairs[|pairs| - 1];
    assert ExperimentOption(exps[|exps| - 1]) == Ok(last);
    BuildMapLast(pairs);
  }

  // ----- tls-split-hello -----

  predicate IsDigit(c: Byte) {
    '0' <= c <= '9'
  }

  predicate AllDigits(s: GoString) {
    forall i :: 0 <= i < |s| ==> IsDigit(s[i])
  }

  function Number(s: GoString): nat
    requires AllDigits(s)
  {
    if s == [] then 0 else Number(s[..|s| - 1]) * 10 + (s[|s| - 1] as int - '0' as int)
  }

  predicate Int64(n: int) {
    -0x8000_0000_0000_0000 <= n <= 0x7fff_ffff_ffff_ffff
  }

  /** strconv.Atoi: an optional sign and decimal digits, within 64 bits. */
  function Atoi(s: GoString): Option<int> {
    var digits := if s != [] && (s[0] == '+' || s[0] == '-') then s[1..] else s;
    if digits == [] || !AllDigits(digits) then None
    else
      var magnitude: int := Number(digits);
      var n := if s[0] == '-' then -magnitude else magnitude;
      if Int64(n) then Some(n) else None
  }

  function Decimal(n: nat): GoString {
    if n < 10 then [(n + '0' as int) as char] else Decimal(n / 10) + [(n % 10 + '0' as int) as char]
  }

  /** strconv.Itoa */
  function Itoa(n: int): GoString {
    if n < 0 then "-" + Decimal(-n) else Decimal(n)
  }

  lemma {:induction false} DecimalRoundTrip(n: nat)
    ensures Decimal(n) != [] && AllDigits(Decimal(n)) && Number(Decimal(n)) == n
  {
    var s := Decimal(n);
    if n < 10 {
      assert s[..|s| - 1] == [];
    } else {
      DecimalRoundTrip(n / 10);
      assert s[..|s| - 1] == Decimal(n / 10);
    }
  }

  lemma AtoiOfNumber(s: GoString, digits: GoString)
    requires digits != [] && AllDigits(digits)
    requires s == digits || s == ['-'] + digits
    ensures
      var n := if s == digits then Number(digits) as int else -(Number(digits) as int);
      Atoi(s) == if Int64(n) then Some(n) else None
  {
    assert IsDigit(digits[0]);
    if s != digits { assert s[1..] == digits; }
  }

  lemma AtoiOfItoa(n: int)
    ensures Atoi(Itoa(n)) == if Int64(n) then Some(n) else None
  {
    var digits := Decimal(if n < 0 then -n else n);
    DecimalRoundTrip(if n < 0 then -n else n);
    AtoiOfNumber(Itoa(n), digits);
    if n < 0 { assert |Itoa(n)| == |digits| + 1; }
  }

  lemma ItoaHasNoColon(n: int)
    ensures ':' !in Itoa(n)
  {
    var digits := Decimal(if n < 0 then -n else n);
    DecimalRoundTrip(if n < 0 then -n else n);
    assert ':' !in digits;
  }

  /** CHUNKSIZE:DELAY */
  function ParseTLSSplitHello(s: GoString): Result<(int, int), GoString> {
    var parts := SplitN(s, ':', 2);
    if |parts| != 2 then Err(s)
    else
      var chunkSize, delay := Atoi(parts[0]), Atoi(parts[1]);
      if chunkSize.None? then Err(parts[0])
      else if delay.None? then Err(parts[1])
      else Ok((chunkSize.value, delay.value))
  }

  /** Every pair of 64-bit numbers survives printing and parsing, and no other pair does. */
  lemma TLSSplitHelloRoundTrip(chunkSize: int, delay: int)
    ensures ParseTLSSplitHello(Colon(Itoa(chunkSize), Itoa(delay))) == Ok((chunkSize, delay))
      <==> Int64(chunkSize) && Int64(delay)
  {
    AtoiOfItoa(chunkSize);
    AtoiOfItoa(delay);
    ItoaHasNoColon(chunkSize);
    SplitNStep(Itoa(chunkSize), ':', Itoa(delay), 2);
  }

  function Signed(sign: GoString, digits: GoString): int
    requires AllDigits(digits)
  {
    var magnitude: int := Number(digits);
    if sign == "-" then -magnitude else magnitude
  }

  /** The text s is the number n: an optional sign and decimal digits, within 64 bits. */
  ghost predicate Reads(s: GoString, n: int) {
    && -0x8000_0000_0000_0000 <= n <= 0x7fff_ffff_ffff_ffff
    && exists sign: GoString, digits: GoString ::
         && s == sign + digits && sign in {"", "+", "-"}
         && digits != [] && AllDigits(digits)
         && n == Signed(sign, digits)
  }

  lemma AtoiOfSigned(sign: GoString, digits: GoString)
    requires sign in {"", "+", "-"} && digits != [] && AllDigits(digits)
    ensures
      var n := Signed(sign, digits);
      Atoi(sign + digits) == if Int64(n) then Some(n) else None
  {
    var s := sign + digits;
    assert IsDigit(digits[0]);
    if sign == "" {
      assert s == digits;
    } else {
      assert s[0] == sign[0] && s[1..] == digits;
    }
  }

  lemma AtoiReads(s: GoString, n: int)
    ensures Atoi(s) == Some(n) <==> Reads(s, n)
  {
    if Atoi(s) == Some(n) {
      var sign: GoString := if s[0] == '+' then "+" else if s[0] == '-' then "-" else "";
      var digits := if sign == "" then s else s[1..];
      assert s == sign + digits;
    }
    if Reads(s, n) {
      var sign: GoString, digits: GoString :|
        && s == sign + digits && sign in {"", "+", "-"}
        && digits != [] && AllDigits(digits)
        && n == Signed(sign, digits);
      AtoiOfSigned(sign, digits);
    }
  }

  /** Acceptance, on the text: two numbers around the first colon. A text without one is refused. */
  lemma TLSSplitHelloAccepts(a: GoString, b: GoString, chunkSize: int, delay: int)
    requires ':' !in a
    ensures ParseTLSSplitHello(a) == Err(a)
    ensures ParseTLSSplitHello(Colon(a, b)) == Ok((chunkSize, delay)) <==> Reads(a, chunkSize) && Reads(b, delay)
    ensures ParseTLSSplitHello(Colon(a, b)).Err? ==>
      ParseTLSSplitHello(Colon(a, b)).error == if exists n :: Reads(a, n) then b else a
  {
    SplitNStep(a, ':', b, 2);
    AtoiReads(a, chunkSize);
    AtoiReads(b, delay);
    forall n ensures Atoi(a) == Some(n) <==> Reads(a, n) {
      AtoiReads(a, n);
    }
  }

  /** Leading zeros do not count. */
  lemma {:induction false} LeadingZero(digits: GoString)
    requires AllDigits(digits)
    ensures AllDigits("0" + digits) && Number("0" + digits) == Number(digits)
  {
    var s := "0" + digits;
    if digits == [] {
      assert s[..|s| - 1] == [];
    } else {
      LeadingZero(digits[..|digits| - 1]);
      assert s[..|s| - 1] == "0" + digits[..|digits| - 1];
    }
  }
}
