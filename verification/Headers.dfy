/** Request headers: createHeaders of internal/config/config.go and internal/client/request.go. */
module Headers {
  import opened Seqs
  import opened GoStrings

  /** http.Header: the values of each name, in order. */
  type Header = map<GoString, seq<GoString>>

  // ----- package net/http -----

  /** The bytes of a token (section 5.6.2 of RFC 9110). */
  predicate TokenByte(c: Byte) {
    'a' <= c <= 'z' || 'A' <= c <= 'Z' || '0' <= c <= '9' ||
    c == '!' || '#' <= c <= '\'' || c == '*' || c == '+' || c == '-' || c == '.' ||
    '^' <= c <= '`' || c == '|' || c == '~'
  }

  lemma TokenBytes(b: Byte)
    ensures TokenByte(b) <==>
      'a' <= b <= 'z' || 'A' <= b <= 'Z' || '0' <= b <= '9' || b in "!#$%&'*+-.^_`|~"
  {
  }

  predicate IsToken(name: GoString) {
    forall i :: 0 <= i < |name| ==> TokenByte(name[i])
  }

  function CaseByte(c: Byte, upper: bool): Byte {
    if upper && 'a' <= c <= 'z' then (c as int - 32) as char
    else if !upper && 'A' <= c <= 'Z' then (c as int + 32) as char
    else c
  }

  /** Upper case at the start and behind every hyphen, lower case elsewhere. */
  function Cased(name: GoString): (r: GoString)
    ensures |r| == |name|
    ensures forall i :: 0 <= i < |name| ==> r[i] == CaseByte(name[i], i == 0 || name[i - 1] == '-')
  {
    seq<Byte>(|name|, i requires 0 <= i < |name| => CaseByte(name[i], i == 0 || name[i - 1] == '-'))
  }

  /** textproto.CanonicalMIMEHeaderKey; a name that is no token is left alone. */
  function Canonical(name: GoString): (r: GoString)
    ensures |r| == |name|
  {
    if IsToken(name) then Cased(name) else name
  }

  lemma CaseByteTwice(c: Byte, upper: bool)
    ensures TokenByte(c) ==> TokenByte(CaseByte(c, upper))
    ensures CaseByte(c, upper) == '-' <==> c == '-'
    ensures CaseByte(CaseByte(c, upper), upper) == CaseByte(c, upper)
  {
  }

  lemma CanonicalTwice(name: GoString)
    ensures Canonical(Canonical(name)) == Canonical(name)
  {
    if IsToken(name) {
      var r := Cased(name);
      forall i | 0 <= i < |r| ensures TokenByte(r[i]) && (r[i] == '-' <==> name[i] == '-') {
        assert TokenByte(name[i]);
        CaseByteTwice(name[i], i == 0 || name[i - 1] == '-');
      }
      forall i | 0 <= i < |r| ensures Cased(r)[i] == r[i] {
        CaseByteTwice(name[i], i == 0 || name[i - 1] == '-');
      }
    }
  }

  function LowerByte(c: Byte): Byte {
    CaseByte(c, false)
  }

  /** Equality of names without regard to case. */
  predicate SameIgnoringCase(a: GoString, b: GoString) {
    |a| == |b| && forall i :: 0 <= i < |a| ==> LowerByte(a[i]) == LowerByte(b[i])
  }

  lemma CaseBytesAgree(x: Byte, y: Byte, upper: bool)
    ensures CaseByte(x, upper) == CaseByte(y, upper) <==> LowerByte(x) == LowerByte(y)
    ensures LowerByte(x) == LowerByte(y) ==> (x == '-' <==> y == '-')
  {
  }

  /** Whether byte i starts a word. */
  predicate StartsWord(name: GoString, i: nat)
    requires i < |name|
  {
    i == 0 || name[i - 1] == '-'
  }

  lemma CasedAt(name: GoString, i: nat)
    requires i < |name|
    ensures Cased(name)[i] == CaseByte(name[i], StartsWord(name, i))
    ensures Cased(name)[i] == '-' <==> name[i] == '-'
  {
    CaseByteTwice(name[i], StartsWord(name, i));
  }

  lemma SameCasing(a: GoString, b: GoString, i: nat)
    requires i < |a| == |b| && Cased(a) == Cased(b)
    ensures LowerByte(a[i]) == LowerByte(b[i])
  {
    CasedAt(a, i);
    CasedAt(b, i);
    if i > 0 {
      CasedAt(a, i - 1);
      CasedAt(b, i - 1);
    }
    CaseBytesAgree(a[i], b[i], StartsWord(a, i));
  }

  lemma SameLetters(a: GoString, b: GoString, i: nat)
    requires i < |a| && SameIgnoringCase(a, b)
    ensures Cased(a)[i] == Cased(b)[i]
  {
    CasedAt(a, i);
    CasedAt(b, i);
    if i > 0 { CaseBytesAgree(a[i - 1], b[i - 1], false); }
    CaseBytesAgree(a[i], b[i], StartsWord(a, i));
  }

  /** The letters of a token are cased by where they stand; no other byte changes, and a name that
      is no token does not change at all. */
  lemma CanonicalCasing(name: GoString, i: nat)
    requires i < |name|
    ensures
      var c, r := name[i], Canonical(name)[i];
      if !(forall b :: b in name ==> 'a' <= b <= 'z' || 'A' <= b <= 'Z' || '0' <= b <= '9' || b in "!#$%&'*+-.^_`|~")
      then r == c
      else if (i == 0 || name[i - 1] == '-') && 'a' <= c <= 'z' then r as int == c as int - 32
      else if !(i == 0 || name[i - 1] == '-') && 'A' <= c <= 'Z' then r as int == c as int + 32
      else r == c
  {
    forall b: Byte ensures TokenByte(b) <==>
      'a' <= b <= 'z' || 'A' <= b <= 'Z' || '0' <= b <= '9' || b in "!#$%&'*+-.^_`|~"
    {
      TokenBytes(b);
    }
    assert IsToken(name) <==> forall b :: b in name ==> TokenByte(b);
  }

  /** Two tokens name the same header exactly when they differ in case only. */
  lemma CanonicalIgnoresCase(a: GoString, b: GoString)
    requires IsToken(a) && IsToken(b)
    ensures Canonical(a) == Canonical(b) <==> SameIgnoringCase(a, b)
  {
    if |a| == |b| {
      forall i | 0 <= i < |a| && Cased(a) == Cased(b) ensures LowerByte(a[i]) == LowerByte(b[i]) {
        SameCasing(a, b, i);
      }
      forall i | 0 <= i < |a| && SameIgnoringCase(a, b) ensures Cased(a)[i] == Cased(b)[i] {
        SameLetters(a, b, i);
      }
    }
  }

  function Values(h: Header, name: GoString): seq<GoString> {
    if Canonical(name) in h then h[Canonical(name)] else []
  }

  /** http.Header.Get: the first value, or the empty string. */
  function First(values: seq<GoString>): GoString {
    if values == [] then [] else values[0]
  }

  function Add(h: Header, name: GoString, value: GoString): Header {
    h[Canonical(name) := Values(h, name) + [value]]
  }

  function Set(h: Header, name: GoString, value: GoString): Header {
    h[Canonical(name) := [value]]
  }

  // ----- createHeaders -----

  /** The name and the value of one --header option. */
  function HeaderOption(header: GoString): (GoString, GoString) {
    var parts := SplitN(header, ':', 2);
    (parts[0], if |parts| == 2 then parts[1] else [])
  }

  /** The name ends at the first colon; the value is all that follows, spaces and colons
      included, and empty when there is no colon. */
  lemma HeaderOptionMeaning(name: GoString, value: GoString)
    requires ':' !in name
    ensures HeaderOption(name + ":" + value) == (name, value)
    ensures HeaderOption(name) == (name, [])
  {
    SplitNStep(name, ':', value, 2);
  }

  function BuildHeaders(headers: seq<GoString>): Header {
    if headers == [] then map[]
    else
      var (name, value) := HeaderOption(headers[|headers| - 1]);
      Add(BuildHeaders(headers[..|headers| - 1]), name, value)
  }

  method CreateHeaders(headers: seq<GoString>) returns (h: Header)
    ensures h == BuildHeaders(headers)
  {
    h := map[];
    for i := 0 to |headers|
      invariant h == BuildHeaders(headers[..i])
    {
      var parts := SplitN(headers[i], ':', 2);
      var headerName := parts[0];
      var headerValue: GoString := "";
      if |parts| == 2 {
        headerValue := parts[1];
      }
      assert headers[..i + 1][..i] == headers[..i];
      h := Add(h, headerName, headerValue);
    }
    assert headers[..|headers|] == headers;
  }

  /** The value that one option gives to a canonical name, if it does. */
  function ValueFor(header: GoString, name: GoString): seq<GoString> {
    if Canonical(HeaderOption(header).0) == name then [HeaderOption(header).1] else []
  }

  /** The values that the options give to a canonical name, in command-line order. */
  function OptionValues(headers: seq<GoString>, name: GoString): seq<GoString> {
    if headers == [] then [] else ValueFor(headers[0], name) + OptionValues(headers[1..], name)
  }

  lemma {:induction false} OptionValuesSnoc(headers: seq<GoString>, last: GoString, name: GoString)
    ensures OptionValues(headers + [last], name) == OptionValues(headers, name) + ValueFor(last, name)
  {
    if headers == [] {
      assert headers + [last] == [last] && [last][1..] == [];
      assert ValueFor(last, name) + [] == [] + ValueFor(last, name);
    } else {
      assert (headers + [last])[1..] == headers[1..] + [last];
      OptionValuesSnoc(headers[1..], last, name);
      Assoc(ValueFor(headers[0], name), OptionValues(headers[1..], name), ValueFor(last, name));
    }
  }

  /** What createHeaders guarantees of its keys and lists. */
  ghost predicate WellFormed(h: Header) {
    forall k :: k in h ==> Canonical(k) == k && h[k] != []
  }

  /** Each name carries exactly its command-line values in order, and no name is without one. */
  lemma {:induction false} HeadersRefineOptions(headers: seq<GoString>, name: GoString)
    ensures WellFormed(BuildHeaders(headers))
    ensures name in BuildHeaders(headers) <==> OptionValues(headers, name) != []
    ensures name in BuildHeaders(headers) ==> BuildHeaders(headers)[name] == OptionValues(headers, name)
  {
    if headers != [] {
      var front, last := headers[..|headers| - 1], headers[|headers| - 1];
      assert headers == front + [last];
      HeadersRefineOptions(front, name);
      OptionValuesSnoc(front, last, name);
      CanonicalTwice(HeaderOption(last).0);
    }
  }

  // ----- addHeaders -----

  /** The inner loop of addHeaders. */
  function AddList(h: Header, name: GoString, values: seq<GoString>): Header {
    if values == [] then h
    else Add(AddList(h, name, values[..|values| - 1]), name, values[|values| - 1])
  }

  /** The outer loop, over the keys in this order. */
  function AddInOrder(h: Header, m: Header, order: seq<GoString>): Header
    requires forall k :: k in order ==> k in m
  {
    if order == [] then h
    else
      var k := order[|order| - 1];
      AddList(AddInOrder(h, m, order[..|order| - 1]), k, m[k])
  }

  /** A possible iteration order of a Go map: each key once. */
  ghost predicate Enumerates(order: seq<GoString>, keys: set<GoString>) {
    (forall k :: k in order <==> k in keys) &&
    forall i, j :: 0 <= i < j < |order| ==> order[i] != order[j]
  }

  lemma AddAgain(h: Header, name: GoString, values: seq<GoString>, value: GoString)
    ensures Add(h[Canonical(name) := values], name, value) == h[Canonical(name) := values + [value]]
  {
  }

  lemma {:induction false} AddListMeaning(h: Header, name: GoString, values: seq<GoString>)
    ensures AddList(h, name, values) ==
      if values == [] then h else h[Canonical(name) := Values(h, name) + values]
  {
    if |values| == 1 {
      assert values == [values[0]] && values[..0] == [];
    } else if |values| > 1 {
      var front, last := values[..|values| - 1], values[|values| - 1];
      AddListMeaning(h, name, front);
      AddAgain(h, name, Values(h, name) + front, last);
      Assoc(Values(h, name), front, [last]);
      assert values == front + [last];
    }
  }

  /** The union of two header maps: the values of the first come first. */
  function Merged(h: Header, m: Header): Header {
    map k | k in h.Keys + m.Keys :: (if k in h then h[k] else []) + (if k in m then m[k] else [])
  }

  /** What a name carries when these keys have been added. */
  lemma {:induction false} AddInOrderAt(h: Header, m: Header, order: seq<GoString>, name: GoString)
    requires WellFormed(m) && forall k :: k in order ==> k in m
    requires forall i, j :: 0 <= i < j < |order| ==> order[i] != order[j]
    ensures name in AddInOrder(h, m, order) <==> name in h || name in order
    ensures name in AddInOrder(h, m, order) ==>
      AddInOrder(h, m, order)[name] ==
        (if name in h then h[name] else []) + (if name in order then m[name] else [])
  {
    if order == [] {
      if name in h { assert h[name] + [] == h[name]; }
    } else {
      var front, k := order[..|order| - 1], order[|order| - 1];
      assert order == front + [k] && k !in front;
      AddInOrderAt(h, m, front, name);
      AddListMeaning(AddInOrder(h, m, front), k, m[k]);
      if name == k && name in h { assert h[name] + [] == h[name]; }
    }
  }

  /** Every iteration order of the map gives the same request headers. */
  lemma OrderIsIrrelevant(h: Header, m: Header, order: seq<GoString>)
    requires WellFormed(m) && Enumerates(order, m.Keys)
    ensures AddInOrder(h, m, order) == Merged(h, m)
  {
    forall name
      ensures name in AddInOrder(h, m, order) <==> name in Merged(h, m)
      ensures name in Merged(h, m) ==> AddInOrder(h, m, order)[name] == Merged(h, m)[name]
    {
      AddInOrderAt(h, m, order, name);
    }
  }

  /** On a new request, the result is the map itself. */
  lemma MergedWithNone(m: Header)
    ensures Merged(map[], m) == m
  {
    assert forall k :: k in m ==> [] + m[k] == m[k];
  }

  lemma AddTwo(m: Header, a: GoString, b: GoString)
    requires a in m && b in m && Canonical(a) == Canonical(b) && m[a] != [] && m[b] != []
    ensures Values(AddInOrder(map[], m, [a, b]), a) == m[a] + m[b]
  {
    var none: Header := map[];
    assert [a, b][..1] == [a] && [a][..0] == [];
    assert AddInOrder(none, m, []) == none;
    AddListMeaning(none, a, m[a]);
    AddListMeaning(AddInOrder(none, m, [a]), b, m[b]);
    assert [] + m[a] == m[a];
  }

  /** Keys that are not canonical, which createHeaders never makes, would let the order show. */
  lemma OrderMatters(a: GoString, b: GoString)
    requires a != b && Canonical(a) == Canonical(b)
    ensures
      var m: Header := map[a := ["1"], b := ["2"]];
      && Enumerates([a, b], m.Keys) && Enumerates([b, a], m.Keys)
      && Values(AddInOrder(map[], m, [a, b]), a) == ["1", "2"]
      && Values(AddInOrder(map[], m, [b, a]), a) == ["2", "1"]
  {
    var m: Header := map[a := ["1"], b := ["2"]];
    AddTwo(m, a, b);
    AddTwo(m, b, a);
  }

  // ----- NewRequest -----

  /** The parts of the configuration that decide the headers. */
  datatype RequestConfig = RequestConfig(headers: Header, data: GoString, scheme: GoString, version: GoString)

  predicate IsWebSocket(scheme: GoString) {
    scheme == "ws" || scheme == "wss"
  }

  const CONTENT_TYPE: GoString := "Content-Type"

  const USER_AGENT: GoString := "User-Agent"

  const FORM_TYPE: GoString := "application/x-www-form-urlencoded"

  const CONNECTION: GoString := "Connection"

  const UPGRADE: GoString := "Upgrade"

  const WEBSOCKET_VERSION: GoString := "Sec-WebSocket-Version"

  const WEBSOCKET_KEY: GoString := "Sec-WebSocket-Key"

  const FIXED_KEY: GoString := "57WURIqFwyL1d/bbcWhttw=="

  /** What a canonical name carries. */
  function Lookup(h: Header, name: GoString): seq<GoString> {
    if name in h then h[name] else []
  }

  ghost predicate NoneEmpty(h: Header) {
    forall k :: k in h ==> h[k] != []
  }

  lemma SameLookups(h1: Header, h2: Header)
    requires NoneEmpty(h1) && NoneEmpty(h2)
    requires forall name :: Lookup(h1, name) == Lookup(h2, name)
    ensures h1 == h2
  {
    forall name ensures name in h1 <==> name in h2 {
      assert Lookup(h1, name) == Lookup(h2, name);
    }
    forall name | name in h1 ensures h1[name] == h2[name] {
      assert Lookup(h1, name) == Lookup(h2, name);
    }
  }

  /** Set, but only where the first value is absent or empty. */
  function SetDefault(h: Header, name: GoString, value: GoString): Header {
    if First(Values(h, name)) == "" then Set(h, name, value) else h
  }

  lemma SetDefaultAt(h: Header, key: GoString, value: GoString, name: GoString)
    requires NoneEmpty(h)
    ensures NoneEmpty(SetDefault(h, key, value))
    ensures Lookup(SetDefault(h, key, value), name) ==
      if name == Canonical(key) && First(Lookup(h, name)) == "" then [value] else Lookup(h, name)
  {
  }

  /** The default User-Agent. */
  function DefaultAgent(version: GoString): (r: GoString)
    ensures r != ""
  {
    "gocurl/" + version
  }

  /** The configured headers, with the form content type where there is a body and no other. */
  function Typed(cfg: RequestConfig): Header {
    if cfg.data != "" && !IsWebSocket(cfg.scheme)
    then SetDefault(cfg.headers, CONTENT_TYPE, FORM_TYPE) else cfg.headers
  }

  /** The configured headers, with a default in place of each absent or empty first value. */
  function WithDefaults(cfg: RequestConfig): Header {
    SetDefault(Typed(cfg), USER_AGENT, DefaultAgent(cfg.version))
  }

  /** websocket.UpgradeWebSocket, as far as the headers go. */
  function Upgraded(h: Header): Header {
    var named := Set(Set(h, CONNECTION, "Upgrade"), UPGRADE, "websocket");
    Set(Set(named, WEBSOCKET_VERSION, "13"), WEBSOCKET_KEY, FIXED_KEY)
  }

  /** The value that an upgrade gives to a name, if it is one of the four. */
  function UpgradeValue(name: GoString): Option<GoString> {
    if name == Canonical(CONNECTION) then Some("Upgrade")
    else if name == Canonical(UPGRADE) then Some("websocket")
    else if name == Canonical(WEBSOCKET_VERSION) then Some("13")
    else if name == Canonical(WEBSOCKET_KEY) then Some(FIXED_KEY)
    else None
  }

  /** What a name carries after an upgrade, given what it carried before. */
  function AfterUpgrade(name: GoString, given: seq<GoString>): seq<GoString> {
    if UpgradeValue(name).Some? then [UpgradeValue(name).value] else given
  }

  lemma SetAt(h: Header, key: GoString, value: GoString, name: GoString)
    ensures Lookup(Set(h, key, value), name) == if name == Canonical(key) then [value] else Lookup(h, name)
  {
  }

  /** An upgrade replaces what the four names carry and keeps every other name. */
  lemma UpgradedAt(h: Header, name: GoString)
    ensures Lookup(Upgraded(h), name) == AfterUpgrade(name, Lookup(h, name))
  {
    assert |CONNECTION| == 10 && |UPGRADE| == 7 && |WEBSOCKET_VERSION| == 21 && |WEBSOCKET_KEY| == 17;
    SetAt(h, CONNECTION, "Upgrade", name);
    var h1 := Set(h, CONNECTION, "Upgrade");
    SetAt(h1, UPGRADE, "websocket", name);
    var h2 := Set(h1, UPGRADE, "websocket");
    SetAt(h2, WEBSOCKET_VERSION, "13", name);
    SetAt(Set(h2, WEBSOCKET_VERSION, "13"), WEBSOCKET_KEY, FIXED_KEY, name);
  }

  /** The headers of the finished request. */
  function RequestHeaders(cfg: RequestConfig): Header {
    if IsWebSocket(cfg.scheme) then Upgraded(WithDefaults(cfg)) else WithDefaults(cfg)
  }

  class Request {
    var header: Header
    var body: GoString

    constructor (body: GoString)
      ensures this.body == body && header == map[]
    {
      this.body := body;
      header := map[];
    }

    method AddHeaders(cfg: RequestConfig) returns (ghost order: seq<GoString>)
      modifies this`header
      ensures Enumerates(order, cfg.headers.Keys)
      ensures header == AddInOrder(old(header), cfg.headers, order)
    {
      order := [];
      var todo := cfg.headers.Keys;
      while todo != {}
        invariant todo <= cfg.headers.Keys
        invariant Enumerates(order, cfg.headers.Keys - todo)
        invariant header == AddInOrder(old(header), cfg.headers, order)
        decreases todo
      {
        var k :| k in todo;
        var l := cfg.headers[k];
        ghost var before := header;
        for i := 0 to |l|
          invariant header == AddList(before, k, l[..i])
        {
          assert l[..i + 1][..i] == l[..i];
          header := Add(header, k, l[i]);
        }
        assert l[..|l|] == l;
        assert (order + [k])[..|order|] == order;
        assert k !in order;
        order, todo := order + [k], todo - {k};
      }
    }

    method AddBodyHeaders(cfg: RequestConfig)
      modifies this`header
      ensures forall name :: name != Canonical(CONTENT_TYPE) ==> Lookup(header, name) == Lookup(old(header), name)
      ensures
        var given := Lookup(old(header), Canonical(CONTENT_TYPE));
        var applies := cfg.data != "" && !IsWebSocket(cfg.scheme);
        Lookup(header, Canonical(CONTENT_TYPE)) == if applies && First(given) == "" then [FORM_TYPE] else given
      ensures NoneEmpty(old(header)) ==> NoneEmpty(header)
    {
      if cfg.data != "" && !IsWebSocket(cfg.scheme) && First(Values(header, CONTENT_TYPE)) == "" {
        header := Set(header, CONTENT_TYPE, FORM_TYPE);
      }
    }

    /** The header part of websocket.UpgradeWebSocket, which works on a copy of the request. */
    method SetUpgradeHeaders()
      modifies this`header
      ensures forall name :: Lookup(header, name) == AfterUpgrade(name, Lookup(old(header), name))
      ensures NoneEmpty(old(header)) ==> NoneEmpty(header)
    {
      ghost var given := header;
      header := Set(header, CONNECTION, "Upgrade");
      header := Set(header, UPGRADE, "websocket");
      header := Set(header, WEBSOCKET_VERSION, "13");
      header := Set(header, WEBSOCKET_KEY, FIXED_KEY);
      forall name ensures Lookup(header, name) == AfterUpgrade(name, Lookup(given, name)) {
        UpgradedAt(given, name);
      }
    }
  }

  /** What AddBodyHeaders says of every name determines the header. */
  lemma TypedBy(cfg: RequestConfig, h: Header)
    requires NoneEmpty(cfg.headers) && NoneEmpty(h)
    requires forall name :: name != Canonical(CONTENT_TYPE) ==> Lookup(h, name) == Lookup(cfg.headers, name)
    requires
      var given := Lookup(cfg.headers, Canonical(CONTENT_TYPE));
      var applies := cfg.data != "" && !IsWebSocket(cfg.scheme);
      Lookup(h, Canonical(CONTENT_TYPE)) == if applies && First(given) == "" then [FORM_TYPE] else given
    ensures h == Typed(cfg)
  {
    forall name ensures Lookup(h, name) == Lookup(Typed(cfg), name) {
      SetDefaultAt(cfg.headers, CONTENT_TYPE, FORM_TYPE, name);
    }
    SetDefaultAt(cfg.headers, CONTENT_TYPE, FORM_TYPE, CONTENT_TYPE);
    SameLookups(h, Typed(cfg));
  }

  /** And so does what SetUpgradeHeaders says. */
  lemma UpgradedBy(before: Header, h: Header)
    requires NoneEmpty(before) && NoneEmpty(h)
    requires forall name :: Lookup(h, name) == AfterUpgrade(name, Lookup(before, name))
    ensures h == Upgraded(before)
  {
    forall name ensures Lookup(h, name) == Lookup(Upgraded(before), name) {
      UpgradedAt(before, name);
    }
    SameLookups(h, Upgraded(before));
  }

  /** Adding well-formed headers to none, in any order, gives these headers. */
  lemma AddedInAnyOrder(cfg: RequestConfig, order: seq<GoString>)
    requires WellFormed(cfg.headers) && Enumerates(order, cfg.headers.Keys)
    ensures AddInOrder(map[], cfg.headers, order) == cfg.headers
  {
    OrderIsIrrelevant(map[], cfg.headers, order);
    MergedWithNone(cfg.headers);
  }

  /** The whole of NewRequest, up to the method and the URL. */
  method NewRequest(cfg: RequestConfig) returns (req: Request)
    requires WellFormed(cfg.headers)
    ensures fresh(req)
    ensures req.header == RequestHeaders(cfg)
    ensures req.body == if cfg.scheme in {"ws", "wss"} then "" else cfg.data
  {
    var body: GoString := "";
    if !IsWebSocket(cfg.scheme) {
      body := cfg.data;
    }
    req := new Request(body);
    ghost var order := req.AddHeaders(cfg);
    AddedInAnyOrder(cfg, order);
    req.AddBodyHeaders(cfg);
    TypedBy(cfg, req.header);
    if First(Values(req.header, USER_AGENT)) == "" {
      req.header := Set(req.header, USER_AGENT, DefaultAgent(cfg.version));
    }
    if IsWebSocket(cfg.scheme) {
      req.SetUpgradeHeaders();
      UpgradedBy(WithDefaults(cfg), req.header);
    }
  }

  /** What a name carries before any upgrade, from its options alone. */
  function FinalValues(given: seq<GoString>, name: GoString, data: GoString, version: GoString): seq<GoString> {
    if First(given) != "" then given
    else if name == Canonical(CONTENT_TYPE) && data != "" then [FORM_TYPE]
    else if name == Canonical(USER_AGENT) then [DefaultAgent(version)]
    else given
  }

  lemma ValuesBeforeUpgrade(headers: seq<GoString>, data: GoString, scheme: GoString,
                            version: GoString, name: GoString)
    ensures
      var body := if IsWebSocket(scheme) then "" else data;
      Lookup(WithDefaults(RequestConfig(BuildHeaders(headers), data, scheme, version)), name) ==
        FinalValues(OptionValues(headers, name), name, body, version)
  {
    var h := BuildHeaders(headers);
    HeadersRefineOptions(headers, name);
    assert |Canonical(CONTENT_TYPE)| != |Canonical(USER_AGENT)|;
    SetDefaultAt(h, CONTENT_TYPE, FORM_TYPE, name);
    SetDefaultAt(h, USER_AGENT, DefaultAgent(version), name);
    SetDefaultAt(SetDefault(h, CONTENT_TYPE, FORM_TYPE), USER_AGENT, DefaultAgent(version), name);
  }

  /** From the command line to the request, for every scheme. In a request for ws or wss the four
      upgrade names carry their fixed values. Every other name carries exactly its options' values
      in order, except that a default replaces them where the first is absent or empty; the form
      content type is a default for the other schemes only, and where there is data. */
  lemma RequestRefinesOptions(headers: seq<GoString>, data: GoString, scheme: GoString,
                              version: GoString, name: GoString)
    ensures
      var given, webSocket := OptionValues(headers, name), scheme in {"ws", "wss"};
      Lookup(RequestHeaders(RequestConfig(BuildHeaders(headers), data, scheme, version)), name) ==
        if webSocket && name == Canonical("Connection") then ["Upgrade"]
        else if webSocket && name == Canonical("Upgrade") then ["websocket"]
        else if webSocket && name == Canonical("Sec-WebSocket-Version") then ["13"]
        else if webSocket && name == Canonical("Sec-WebSocket-Key") then ["57WURIqFwyL1d/bbcWhttw=="]
        else if given != [] && given[0] != "" then given
        else if name == Canonical("User-Agent") then ["gocurl/" + version]
        else if name == Canonical("Content-Type") && data != "" && !webSocket
        then ["application/x-www-form-urlencoded"]
        else given
  {
    ValuesBeforeUpgrade(headers, data, scheme, version, name);
    UpgradedAt(WithDefaults(RequestConfig(BuildHeaders(headers), data, scheme, version)), name);
    assert |Canonical(CONTENT_TYPE)| == 12 && |Canonical(USER_AGENT)| == 10;
  }

  lemma OneOptionValues(name: GoString, value: GoString)
    requires ':' !in name
    ensures OptionValues([name + ":" + value], Canonical(name)) == [value]
  {
    var options := [name + ":" + value];
    HeaderOptionMeaning(name, value);
    assert options[1..] == [] && ValueFor(options[0], Canonical(name)) == [value];
  }

  lemma AgentIsNoOtherName()
    ensures Canonical(USER_AGENT) != Canonical(CONTENT_TYPE) && UpgradeValue(Canonical(USER_AGENT)) == None
  {
    assert |USER_AGENT| == 10 && |CONTENT_TYPE| == 12;
    assert |CONNECTION| == 10 && |UPGRADE| == 7 && |WEBSOCKET_VERSION| == 21 && |WEBSOCKET_KEY| == 17;
    assert Canonical(USER_AGENT)[0] == 'U' && Canonical(CONNECTION)[0] == 'C';
  }

  /** A User-Agent that the user does give, as empty text, is replaced all the same. */
  lemma EmptyAgentIsReplaced(data: GoString, scheme: GoString, version: GoString)
    ensures OptionValues([USER_AGENT + ":" + ""], Canonical("User-Agent")) == [""]
    ensures
      var cfg := RequestConfig(BuildHeaders([USER_AGENT + ":" + ""]), data, scheme, version);
      Lookup(RequestHeaders(cfg), Canonical("User-Agent")) == ["gocurl/" + version]
  {
    OneOptionValues(USER_AGENT, "");
    AgentIsNoOtherName();
    RequestRefinesOptions([USER_AGENT + ":" + ""], data, scheme, version, Canonical(USER_AGENT));
  }
}
