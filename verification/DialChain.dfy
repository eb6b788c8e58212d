/** createDialFunc of internal/client/clientdialer.go and the dialers it stacks: the direct one,
    internal/client/proxy, internal/client/connectto and internal/client/splittls.

    A dial function gives the connection, if any, and the trace of what it did on the network.
    Whether each network step succeeds is up to an oracle. */
module DialChain {
  import opened Seqs
  import opened GoStrings
  import opened Overrides

  datatype Event =
    | Dial(network: GoString, addr: GoString)
    | SocksDial(server: GoString, network: GoString, addr: GoString)
    | Connect(addr: GoString)
    | Close

  /** A connection, by how it was made. */
  datatype Conn =
    | Plain(network: GoString, addr: GoString)
    | Socks(server: GoString, network: GoString, addr: GoString)
    | Tunnel(over: Conn, tls: bool, addr: GoString)
    | Splitting(base: Conn, chunkSize: int, delay: int)

  datatype Outcome = Outcome(conn: Option<Conn>, trace: seq<Event>)

  type DialFunc = (GoString, GoString) -> Outcome

  /** The network: which addresses answer, and how far a CONNECT exchange gets. */
  datatype World = World(
    reaches: (GoString, GoString) -> bool,
    reachesSocks: (GoString, GoString, GoString) -> bool,
    tlsSetUp: bool,
    written: bool,
    status: Option<nat>)

  datatype Proxy = Proxy(scheme: GoString, hostname: GoString, port: GoString)

  datatype Config = Config(proxy: Option<Proxy>, connectTo: map<GoString, GoString>, chunkSize: int, delay: int)

  /** net.JoinHostPort */
  function JoinHostPort(host: GoString, port: GoString): GoString {
    if ':' in host then "[" + host + "]:" + port else host + ":" + port
  }

  function Direct(w: World): DialFunc {
    (network: GoString, addr: GoString) =>
      Outcome(if w.reaches(network, addr) then Some(Plain(network, addr)) else None, [Dial(network, addr)])
  }

  /** The proxy's port, or the default one of its scheme. */
  function PortOf(p: Proxy): GoString {
    if p.port != "" then p.port
    else if p.scheme == "http" then "80"
    else if p.scheme == "https" then "443"
    else "1080"
  }

  function ProxyAddr(p: Proxy): GoString {
    JoinHostPort(p.hostname, PortOf(p))
  }

  predicate IsTcp(network: GoString) {
    network == "tcp" || network == "tcp4" || network == "tcp6"
  }

  /** httpProxyDialer.Dial, over the dial function that reaches the proxy. */
  function HttpProxyDial(p: Proxy, forward: DialFunc, w: World): DialFunc {
    (network: GoString, addr: GoString) =>
      if !IsTcp(network) then Outcome(None, [])
      else
        var base := forward("tcp", ProxyAddr(p));
        if base.conn.None? then base
        else if p.scheme == "https" && !w.tlsSetUp then Outcome(None, base.trace + [Close])
        else if !w.written then Outcome(None, base.trace + [Connect(addr), Close])
        else if w.status != Some(200) then Outcome(None, base.trace + [Connect(addr), Close])
        else Outcome(Some(Tunnel(base.conn.value, p.scheme == "https", addr)), base.trace + [Connect(addr)])
  }

  function SocksProxyDial(p: Proxy, w: World): DialFunc {
    (network: GoString, addr: GoString) =>
      Outcome(if w.reachesSocks(ProxyAddr(p), network, addr) then Some(Socks(ProxyAddr(p), network, addr)) else None,
              [SocksDial(ProxyAddr(p), network, addr)])
  }

  predicate KnownScheme(scheme: GoString) {
    scheme in {"socks5", "socks5h", "http", "https"}
  }

  /** createProxyDialer; no other scheme is registered, so proxy.FromURL refuses it. */
  function NewProxyDialer(p: Proxy, forward: DialFunc, w: World): Result<DialFunc, GoString> {
    if p.scheme == "socks5" || p.scheme == "socks5h" then Ok(SocksProxyDial(p, w))
    else if p.scheme == "http" || p.scheme == "https" then Ok(HttpProxyDial(p, forward, w))
    else Err(p.scheme)
  }

  /** connectto.CreateDialFunc */
  function ConnectToDial(connectTo: map<GoString, GoString>, base: DialFunc): DialFunc {
    (network: GoString, addr: GoString) => base(network, if addr in connectTo then connectTo[addr] else addr)
  }

  /** splittls.CreateDialFunc */
  function SplitDial(chunkSize: int, delay: int, base: DialFunc): DialFunc {
    (network: GoString, addr: GoString) =>
      var o := base(network, addr);
      match o.conn
      case None => Outcome(None, o.trace)
      case Some(conn) => Outcome(Some(Splitting(conn, chunkSize, delay)), o.trace)
  }

  // ----- the chain without layers -----

  function Redirected(cfg: Config, addr: GoString): GoString {
    if addr in cfg.connectTo then cfg.connectTo[addr] else addr
  }

  /** The steps of a CONNECT exchange with an HTTP proxy that was reached. */
  function Exchange(p: Proxy, w: World, target: GoString): seq<Event> {
    if p.scheme == "https" && !w.tlsSetUp then [Close]
    else if !w.written || w.status != Some(200) then [Connect(target), Close]
    else [Connect(target)]
  }

  function ExpectedBase(proxy: Option<Proxy>, w: World, network: GoString, target: GoString): Outcome {
    match proxy
    case None =>
      Outcome(if w.reaches(network, target) then Some(Plain(network, target)) else None, [Dial(network, target)])
    case Some(p) =>
      if p.scheme == "socks5" || p.scheme == "socks5h" then
        var reached := w.reachesSocks(ProxyAddr(p), network, target);
        Outcome(if reached then Some(Socks(ProxyAddr(p), network, target)) else None,
                [SocksDial(ProxyAddr(p), network, target)])
      else if !IsTcp(network) then Outcome(None, [])
      else if !w.reaches("tcp", ProxyAddr(p)) then Outcome(None, [Dial("tcp", ProxyAddr(p))])
      else
        var steps := Exchange(p, w, target);
        var tunnel := Tunnel(Plain("tcp", ProxyAddr(p)), p.scheme == "https", target);
        Outcome(if steps == [Connect(target)] then Some(tunnel) else None,
                [Dial("tcp", ProxyAddr(p))] + steps)
  }

  /** A dial and everything it does, read off the configuration. */
  function Expected(cfg: Config, w: World, network: GoString, addr: GoString): Outcome {
    var o := ExpectedBase(cfg.proxy, w, network, Redirected(cfg, addr));
    if o.conn.Some? && cfg.chunkSize > 0
    then Outcome(Some(Splitting(o.conn.value, cfg.chunkSize, cfg.delay)), o.trace)
    else o
  }

  method CreateDialFunc(cfg: Config, w: World) returns (r: Result<DialFunc, GoString>)
    ensures r.Ok? <==> cfg.proxy.None? || cfg.proxy.value.scheme in {"socks5", "socks5h", "http", "https"}
    ensures r.Err? ==> r.error == cfg.proxy.value.scheme
    ensures r.Ok? ==> forall network, addr :: r.value(network, addr) == Expected(cfg, w, network, addr)
  {
    var dial := Direct(w);
    if cfg.proxy.Some? {
      var proxyDialer := NewProxyDialer(cfg.proxy.value, dial, w);
      if proxyDialer.Err? {
        return Err(proxyDialer.error);
      }
      dial := proxyDialer.value;
    }
    if |cfg.connectTo| > 0 {
      dial := ConnectToDial(cfg.connectTo, dial);
    }
    if cfg.chunkSize > 0 {
      dial := SplitDial(cfg.chunkSize, cfg.delay, dial);
    }
    return Ok(dial);
  }

  /** The address that the options ask for in place of this one. */
  function AskedFor(connectTo: seq<GoString>, addr: GoString): GoString {
    match LastRedirect(connectTo, addr)
    case None => addr
    case Some(target) => target
  }

  /** The base of a connection, below the splitter. */
  function Unsplit(c: Conn): Conn {
    if c.Splitting? then c.base else c
  }

  /** What a dial below the splitter does and names. Without a proxy, and through SOCKS, it is one
      step. Through an HTTP proxy a TCP dial first reaches the proxy, then names the target alone,
      and a connection is returned behind a CONNECT only; other networks are refused outright. */
  predicate Aims(o: Outcome, proxy: Option<Proxy>, network: GoString, target: GoString) {
    && (match proxy
        case None => o.trace == [Dial(network, target)]
        case Some(p) =>
          if p.scheme == "socks5" || p.scheme == "socks5h" then o.trace == [SocksDial(ProxyAddr(p), network, target)]
          else if network !in {"tcp", "tcp4", "tcp6"} then o == Outcome(None, [])
          else
            && o.trace != [] && o.trace[0] == Dial("tcp", ProxyAddr(p))
            && (forall i :: 0 < i < |o.trace| ==> o.trace[i] == Connect(target) || o.trace[i] == Close)
            && (o.conn.Some? ==> o.trace == [Dial("tcp", ProxyAddr(p)), Connect(target)]))
    && (o.conn.Some? ==> !o.conn.value.Splitting? && o.conn.value.addr == target)
  }

  lemma BaseAims(proxy: Option<Proxy>, w: World, network: GoString, target: GoString)
    requires proxy.Some? ==> KnownScheme(proxy.value.scheme)
    ensures Aims(ExpectedBase(proxy, w, network, target), proxy, network, target)
  {
  }

  /** Redirect, proxy and splitter compose. The target is redirected once, by the last option
      that names it, and what comes out is not redirected again; a proxy's own address is never
      redirected; CONNECT names the redirected target; and a splitter with the configured sizes
      lies around the connection exactly when the chunk size is positive. */
  lemma ChainComposes(cfg: Config, options: seq<GoString>, w: World, network: GoString, addr: GoString)
    requires MapOf(ConnectToOption, options) == Ok(cfg.connectTo)
    requires cfg.proxy.Some? ==> KnownScheme(cfg.proxy.value.scheme)
    ensures
      var o := Expected(cfg, w, network, addr);
      var below := if o.conn.Some? then Outcome(Some(Unsplit(o.conn.value)), o.trace) else o;
      Aims(below, cfg.proxy, network, AskedFor(options, addr))
    ensures
      var o := Expected(cfg, w, network, addr);
      o.conn.Some? ==>
        && (o.conn.value.Splitting? <==> cfg.chunkSize > 0)
        && (o.conn.value.Splitting? ==> o.conn.value.chunkSize == cfg.chunkSize && o.conn.value.delay == cfg.delay)
  {
    ConnectToRefinesOptions(options, addr);
    assert Redirected(cfg, addr) == AskedFor(options, addr);
    BaseAims(cfg.proxy, w, network, Redirected(cfg, addr));
  }

  /** The address that a proxy is dialled at: its host, in brackets if it is an IPv6 literal, and
      its port, or the default one of its scheme. */
  lemma ProxyAddress(p: Proxy)
    ensures
      var host := if ':' in p.hostname then "[" + p.hostname + "]" else p.hostname;
      && (p.port != "" ==> ProxyAddr(p) == host + ":" + p.port)
      && (p.port == "" && p.scheme == "http" ==> ProxyAddr(p) == host + ":80")
      && (p.port == "" && p.scheme == "https" ==> ProxyAddr(p) == host + ":443")
      && (p.port == "" && p.scheme in {"socks5", "socks5h"} ==> ProxyAddr(p) == host + ":1080")
  {
    Assoc("[", p.hostname, "]");
    Assoc("[" + p.hostname, "]", ":");
    assert "]" + ":" == "]:" && ":" + "80" == ":80" && ":" + "443" == ":443" && ":" + "1080" == ":1080";
  }

  /** All that a dial needs of the network: the target itself, or the SOCKS proxy's word for it, or
      an HTTP proxy that is reached, TLS to it where its scheme is https, and a 200. */
  predicate NetworkAllows(proxy: Option<Proxy>, w: World, network: GoString, target: GoString) {
    match proxy
    case None => w.reaches(network, target)
    case Some(p) =>
      if p.scheme in {"socks5", "socks5h"} then w.reachesSocks(ProxyAddr(p), network, target)
      else
        && network in {"tcp", "tcp4", "tcp6"} && w.reaches("tcp", ProxyAddr(p))
        && (p.scheme == "https" ==> w.tlsSetUp) && w.written && w.status == Some(200)
  }

  /** The connection it is then, below the splitter. */
  function Made(proxy: Option<Proxy>, network: GoString, target: GoString): Conn {
    match proxy
    case None => Plain(network, target)
    case Some(p) =>
      if p.scheme in {"socks5", "socks5h"} then Socks(ProxyAddr(p), network, target)
      else Tunnel(Plain("tcp", ProxyAddr(p)), p.scheme == "https", target)
  }

  lemma BaseSucceedsIff(proxy: Option<Proxy>, w: World, network: GoString, target: GoString)
    requires proxy.Some? ==> KnownScheme(proxy.value.scheme)
    ensures
      var o := ExpectedBase(proxy, w, network, target);
      && (o.conn.Some? <==> NetworkAllows(proxy, w, network, target))
      && (o.conn.Some? ==> o.conn.value == Made(proxy, network, target))
  {
  }

  /** When a dial gives a connection, and which, for every configuration, network and address. */
  lemma DialSucceedsIff(cfg: Config, options: seq<GoString>, w: World, network: GoString, addr: GoString)
    requires MapOf(ConnectToOption, options) == Ok(cfg.connectTo)
    requires cfg.proxy.Some? ==> KnownScheme(cfg.proxy.value.scheme)
    ensures
      var o, target := Expected(cfg, w, network, addr), AskedFor(options, addr);
      && (o.conn.Some? <==> NetworkAllows(cfg.proxy, w, network, target))
      && (o.conn.Some? ==> Unsplit(o.conn.value) == Made(cfg.proxy, network, target))
  {
    ConnectToRefinesOptions(options, addr);
    assert Redirected(cfg, addr) == AskedFor(options, addr);
    BaseSucceedsIff(cfg.proxy, w, network, Redirected(cfg, addr));
  }

  /** The CONNECT request is sent once the proxy is reached and TLS, where it is used, is set up. */
  lemma ConnectIsSentIff(cfg: Config, w: World, network: GoString, addr: GoString)
    requires cfg.proxy.Some? && cfg.proxy.value.scheme in {"http", "https"} && network in {"tcp", "tcp4", "tcp6"}
    ensures
      var p := cfg.proxy.value;
      Connect(Redirected(cfg, addr)) in Expected(cfg, w, network, addr).trace <==>
        w.reaches("tcp", ProxyAddr(p)) && (p.scheme == "https" ==> w.tlsSetUp)
  {
  }

  /** How a connection ends up: opened ones are returned or closed, never both, never neither. */
  function Opened(w: World, trace: seq<Event>): nat {
    if trace == [] then 0
    else
      (match trace[0]
       case Dial(network, addr) => if w.reaches(network, addr) then 1 else 0
       case SocksDial(server, network, addr) => if w.reachesSocks(server, network, addr) then 1 else 0
       case _ => 0) + Opened(w, trace[1..])
  }

  function Closed(trace: seq<Event>): nat {
    if trace == [] then 0 else (if trace[0].Close? then 1 else 0) + Closed(trace[1..])
  }

  lemma ExchangeCloses(p: Proxy, w: World, target: GoString)
    ensures Opened(w, Exchange(p, w, target)) == 0
    ensures Closed(Exchange(p, w, target)) == if Exchange(p, w, target) == [Connect(target)] then 0 else 1
  {
    var steps := Exchange(p, w, target);
    assert |steps| == 2 ==> steps[1..] == [Close];
    assert |steps| == 1 ==> steps[1..] == [];
    assert Closed([Close]) == 1 && Opened(w, [Close]) == 0;
  }

  lemma NothingLeaks(cfg: Config, w: World, network: GoString, addr: GoString)
    requires cfg.proxy.Some? ==> KnownScheme(cfg.proxy.value.scheme)
    ensures
      var o := Expected(cfg, w, network, addr);
      Opened(w, o.trace) == Closed(o.trace) + if o.conn.Some? then 1 else 0
  {
    var trace := Expected(cfg, w, network, addr).trace;
    if cfg.proxy.Some? && |trace| > 1 {
      ExchangeCloses(cfg.proxy.value, w, Redirected(cfg, addr));
      assert trace[1..] == Exchange(cfg.proxy.value, w, Redirected(cfg, addr));
    } else if trace != [] {
      assert trace[1..] == [];
    }
  }
}
