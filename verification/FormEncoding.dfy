/** url.QueryEscape and its reader: the field parser of application/x-www-form-urlencoded. */
module FormEncoding {
  import opened Seqs
  import opened GoStrings

  /** The unreserved characters of section 2.3 of RFC 3986; all others are escaped. */
  predicate Unreserved(c: Byte) {
    'a' <= c <= 'z' || 'A' <= c <= 'Z' || '0' <= c <= '9' || c in "-_.~"
  }

  function HexDigit(n: nat): Byte
    requires n < 16
  {
    if n < 10 then ('0' as int + n) as char else ('A' as int + n - 10) as char
  }

  function EscapeByte(c: Byte): GoString {
    if Unreserved(c) then [c]
    else if c == ' ' then ['+']
    else ['%', HexDigit(c as int / 16), HexDigit(c as int % 16)]
  }

  /** url.QueryEscape */
  function QueryEscape(s: GoString): GoString {
    if s == [] then [] else EscapeByte(s[0]) + QueryEscape(s[1..])
  }

  /** The value of a hexadecimal digit of either case. */
  function HexValue(c: Byte): (v: Option<nat>)
    ensures v.Some? ==> v.value < 16
  {
    if '0' <= c <= '9' then Some(c as int - '0' as int)
    else if 'A' <= c <= 'F' then Some(c as int - 'A' as int + 10)
    else if 'a' <= c <= 'f' then Some(c as int - 'a' as int + 10)
    else None
  }

  /** Every + becomes a space (section 5.1 of the WHATWG URL Standard). */
  function PlusToSpace(s: GoString): (r: GoString)
    ensures |r| == |s|
    ensures forall i :: 0 <= i < |s| ==> r[i] == if s[i] == '+' then ' ' else s[i]
  {
    if s == [] then [] else [if s[0] == '+' then ' ' else s[0]] + PlusToSpace(s[1..])
  }

  /** A % followed by two hexadecimal digits starts an escape (section 2.1 of RFC 3986). */
  predicate EscapeAt(s: GoString, i: nat) {
    i + 2 < |s| && s[i] == '%' && HexValue(s[i + 1]).Some? && HexValue(s[i + 2]).Some?
  }

  /** Percent-decoding; a % that starts no escape stands for itself. */
  function PercentDecode(s: GoString): GoString {
    if s == [] then []
    else if EscapeAt(s, 0) then
      [(HexValue(s[1]).value * 16 + HexValue(s[2]).value) as char] + PercentDecode(s[3..])
    else [s[0]] + PercentDecode(s[1..])
  }

  function FormDecode(s: GoString): GoString {
    PercentDecode(PlusToSpace(s))
  }

  /** One field of a form body: with or without a =. */
  datatype Field = Pair(name: GoString, content: GoString) | Bare(text: GoString)

  function DecodeField(part: GoString): Field {
    var i := Index(part, '=');
    if i == -1 then Bare(FormDecode(part)) else Pair(FormDecode(part[..i]), FormDecode(part[i + 1..]))
  }

  function DecodeFields(parts: seq<GoString>): (fs: seq<Field>)
    ensures |fs| == |parts|
    ensures forall i :: 0 <= i < |parts| ==> fs[i] == DecodeField(parts[i])
  {
    if parts == [] then [] else [DecodeField(parts[0])] + DecodeFields(parts[1..])
  }

  /** The fields of a body, in order: its pieces between ampersands, each decoded. */
  function Fields(body: GoString): seq<Field> {
    DecodeFields(Split(body, '&'))
  }

  lemma HexRoundTrip(n: nat)
    requires n < 16
    ensures HexValue(HexDigit(n)) == Some(n)
  {
  }

  /** What url.QueryEscape makes of one byte: letters, digits and - _ . ~ stay, a space becomes a
      plus sign, and every other byte is two upper-case hexadecimal digits behind a percent sign. */
  lemma EscapeTable(c: Byte)
    ensures
      if 'a' <= c <= 'z' || 'A' <= c <= 'Z' || '0' <= c <= '9' || c in {'-', '_', '.', '~'} then QueryEscape([c]) == [c]
      else if c == ' ' then QueryEscape([c]) == "+"
      else QueryEscape([c]) == ['%', "0123456789ABCDEF"[c as int / 16], "0123456789ABCDEF"[c as int % 16]]
  {
    assert [c][1..] == [];
    assert EscapeByte(c) + [] == EscapeByte(c);
  }

  lemma {:induction false} EscapeAppend(a: GoString, b: GoString)
    ensures QueryEscape(a + b) == QueryEscape(a) + QueryEscape(b)
  {
    if a == [] {
      assert a + b == b;
    } else {
      assert (a + b)[1..] == a[1..] + b;
      EscapeAppend(a[1..], b);
      Assoc(EscapeByte(a[0]), QueryEscape(a[1..]), QueryEscape(b));
    }
  }

  /** Escaped text holds only unreserved characters, + and %: never a delimiter of the form. */
  lemma {:induction false} EscapedAlphabet(s: GoString)
    ensures forall c :: c in QueryEscape(s) ==> Unreserved(c) || c == '+' || c == '%'
    ensures '&' !in QueryEscape(s) && '=' !in QueryEscape(s)
  {
    if s != [] {
      EscapedAlphabet(s[1..]);
    }
  }

  lemma {:induction false} PlusToSpaceAppend(a: GoString, b: GoString)
    ensures PlusToSpace(a + b) == PlusToSpace(a) + PlusToSpace(b)
  {
  }

  /** One escaped byte in front of any text decodes to that byte and the text. */
  lemma DecodeEscapedByte(c: Byte, t: GoString)
    ensures PercentDecode(PlusToSpace(EscapeByte(c)) + t) == [c] + PercentDecode(t)
  {
    var e := PlusToSpace(EscapeByte(c));
    var s := e + t;
    if Unreserved(c) || c == ' ' {
      assert e == [c];
      assert s[1..] == t;
    } else {
      HexRoundTrip(c as int / 16);
      HexRoundTrip(c as int % 16);
      assert e == EscapeByte(c);
      assert s[3..] == t;
    }
  }

  /** Decoding undoes url.QueryEscape on every byte string. */
  lemma {:induction false} DecodeEscaped(s: GoString)
    ensures FormDecode(QueryEscape(s)) == s
  {
    if s != [] {
      DecodeEscaped(s[1..]);
      PlusToSpaceAppend(EscapeByte(s[0]), QueryEscape(s[1..]));
      DecodeEscapedByte(s[0], PlusToSpace(QueryEscape(s[1..])));
    }
  }

  /** Text that a form reader takes literally. */
  predicate Literal(s: GoString) {
    '+' !in s && forall i :: 0 <= i < |s| ==> !EscapeAt(s, i)
  }

  lemma EscapeAtSuffix(s: GoString, k: nat, i: nat)
    requires k <= |s|
    ensures EscapeAt(s[k..], i) <==> EscapeAt(s, k + i)
  {
  }

  /** Percent-decoding never lengthens, and keeps the length only where nothing is escaped. */
  lemma {:induction false} DecodeLength(s: GoString)
    ensures |PercentDecode(s)| <= |s|
    ensures (forall i :: 0 <= i < |s| ==> !EscapeAt(s, i)) ==> PercentDecode(s) == s
    ensures (exists i :: 0 <= i < |s| && EscapeAt(s, i)) ==> |PercentDecode(s)| < |s|
  {
    if s == [] {
    } else if EscapeAt(s, 0) {
      DecodeLength(s[3..]);
    } else {
      DecodeLength(s[1..]);
      assert s == [s[0]] + s[1..];
      forall i | 0 <= i < |s[1..]| ensures EscapeAt(s[1..], i) <==> EscapeAt(s, i + 1) {
        EscapeAtSuffix(s, 1, i);
      }
      if i :| 0 <= i < |s| && EscapeAt(s, i) {
        assert EscapeAt(s[1..], i - 1);
      }
    }
  }

  /** Unescaped text reads back as itself exactly when it is literal. */
  lemma DecodeLiteral(s: GoString)
    ensures FormDecode(s) == s <==> Literal(s)
  {
    var t := PlusToSpace(s);
    forall i | 0 <= i < |s| ensures EscapeAt(t, i) <==> EscapeAt(s, i) {
    }
    DecodeLength(t);
    if '+' in s {
      var i :| 0 <= i < |s| && s[i] == '+';
      assert t[i] != s[i];
    } else {
      assert t == s;
    }
  }

  /** The name-value list of the standard's parser (section 5.1 of the WHATWG URL Standard),
      step by step: an empty piece is skipped, a piece without = has an empty value. */
  function FormPairs(pieces: seq<GoString>): seq<(GoString, GoString)> {
    if pieces == [] then []
    else
      var bytes, rest := pieces[0], FormPairs(pieces[1..]);
      if bytes == [] then rest
      else
        var i := Index(bytes, '=');
        var name := if i == -1 then bytes else bytes[..i];
        var value := if i == -1 then [] else bytes[i + 1..];
        [(FormDecode(name), FormDecode(value))] + rest
  }

  /** The same list, read off the fields. */
  function PairsOf(fields: seq<Field>): seq<(GoString, GoString)> {
    if fields == [] then []
    else
      var rest := PairsOf(fields[1..]);
      match fields[0]
      case Pair(name, content) => [(name, content)] + rest
      case Bare(text) => if text == [] then rest else [(text, [])] + rest
  }

  function FieldSize(f: Field): nat {
    match f
    case Pair(name, content) => |name| + |content|
    case Bare(text) => |text|
  }

  function FieldsSize(fields: seq<Field>): nat {
    if fields == [] then 0 else FieldSize(fields[0]) + FieldsSize(fields[1..])
  }

  lemma {:induction false} FieldsSizeAppend(a: seq<Field>, b: seq<Field>)
    ensures FieldsSize(a + b) == FieldsSize(a) + FieldsSize(b)
  {
    if a == [] {
      assert a + b == b;
    } else {
      assert (a + b)[1..] == a[1..] + b;
      FieldsSizeAppend(a[1..], b);
    }
  }

  /** Equal lists of pairs come from fields of equal size: an empty bare field has none. */
  lemma {:induction false} PairsSize(f: seq<Field>, g: seq<Field>)
    requires PairsOf(f) == PairsOf(g)
    ensures FieldsSize(f) == FieldsSize(g)
    decreases |f| + |g|
  {
    if f != [] && f[0] == Bare([]) {
      PairsSize(f[1..], g);
    } else if g != [] && g[0] == Bare([]) {
      PairsSize(f, g[1..]);
    } else if f != [] && g != [] {
      assert PairsOf(f)[1..] == PairsOf(f[1..]) && PairsOf(g)[1..] == PairsOf(g[1..]);
      PairsSize(f[1..], g[1..]);
    }
  }

  /** Fields are told apart by their pairs, given which of them have a name. */
  lemma {:induction false} PairsDecide(f: seq<Field>, g: seq<Field>)
    requires |f| == |g| && PairsOf(f) == PairsOf(g)
    requires forall i :: 0 <= i < |f| ==> f[i] == g[i] || (f[i].Pair? && g[i].Pair?)
    ensures f == g
  {
    if f != [] {
      if f[0] != Bare([]) {
        assert PairsOf(f)[1..] == PairsOf(f[1..]) && PairsOf(g)[1..] == PairsOf(g[1..]);
        assert PairsOf(f)[0] == PairsOf(g)[0];
      }
      PairsDecide(f[1..], g[1..]);
      assert f == [f[0]] + f[1..] && g == [g[0]] + g[1..];
    }
  }

  /** The standard's parser sees every field except the ones that are bare and empty. */
  lemma {:induction false} StandardParserSeesFields(pieces: seq<GoString>)
    ensures FormPairs(pieces) == PairsOf(DecodeFields(pieces))
  {
    if pieces != [] {
      StandardParserSeesFields(pieces[1..]);
      var bytes, fields := pieces[0], DecodeFields(pieces);
      assert fields == [DecodeField(bytes)] + DecodeFields(pieces[1..]);
      assert fields[1..] == DecodeFields(pieces[1..]);
      assert PlusToSpace(bytes) == [] <==> bytes == [];
      assert FormDecode(bytes) == [] <==> bytes == [];
    }
  }

  lemma {:induction false} DecodeFieldsAppend(a: seq<GoString>, b: seq<GoString>)
    ensures DecodeFields(a + b) == DecodeFields(a) + DecodeFields(b)
  {
  }

  function FieldsOfEach(parts: seq<GoString>): seq<seq<Field>> {
    if parts == [] then [] else [Fields(parts[0])] + FieldsOfEach(parts[1..])
  }

  /** A body joined from parts has the fields of each part, in order: no part, however it was
      made, changes the fields of another. */
  lemma {:induction false} FieldsOfJoin(parts: seq<GoString>)
    requires parts != []
    ensures Fields(Join(parts, '&')) == Flatten(FieldsOfEach(parts))
  {
    if |parts| == 1 {
      assert FieldsOfEach(parts) == [Fields(parts[0])] + [];
      assert Flatten([Fields(parts[0])]) == Fields(parts[0]) + Flatten([]);
    } else {
      FieldsOfJoin(parts[1..]);
      SplitAroundSeparator(parts[0], '&', Join(parts[1..], '&'));
      DecodeFieldsAppend(Split(parts[0], '&'), Split(Join(parts[1..], '&'), '&'));
      assert FieldsOfEach(parts)[1..] == FieldsOfEach(parts[1..]);
    }
  }
}
