/** internal/config/data.go: the -d/--data and --data-urlencode arguments and the body they form.

    Files are an oracle from names to contents; None stands for a read error. */
module DataArgs {
  import opened Seqs
  import opened GoStrings
  import opened FormEncoding

  datatype DataEntry = DataEntry(value: GoString, isURLEncode: bool)

  /** The two option lists that the flag library fills. */
  datatype DataOptions = DataOptions(data: seq<GoString>, dataURLEncode: seq<GoString>)

  type Files = GoString -> Option<GoString>

  /** A part of the body, or the name of the file that could not be read. */
  type Part = Result<GoString, GoString>

  // ----- the scanner -----

  /** The options whose value is the next argument. */
  predicate TakesNext(arg: GoString) {
    arg == "-d" || arg == "--data" || arg == "--data-urlencode"
  }

  /** What one loop iteration finds in an argument, given the argument behind it if any. */
  function EntryAt(arg: GoString, next: Option<GoString>): seq<DataEntry> {
    if arg == "-d" || arg == "--data" then
      if next.Some? then [DataEntry(next.value, false)] else []
    else if HasPrefix(arg, "-d") && |arg| > 2 then [DataEntry(arg[2..], false)]
    else if HasPrefix(arg, "--data=") then [DataEntry(arg[7..], false)]
    else if arg == "--data-urlencode" then
      if next.Some? then [DataEntry(next.value, true)] else []
    else if HasPrefix(arg, "--data-urlencode=") then [DataEntry(arg[17..], true)]
    else []
  }

  function Next(args: seq<GoString>, i: nat): Option<GoString> {
    if i + 1 < |args| then Some(args[i + 1]) else None
  }

  /** How many arguments that iteration consumes. */
  function Width(arg: GoString, next: Option<GoString>): (w: nat)
    ensures 1 <= w <= 2 && (w == 2 ==> next.Some?)
  {
    if TakesNext(arg) && next.Some? then 2 else 1
  }

  function Scan(args: seq<GoString>): seq<DataEntry> {
    if args == [] || args[0] == "--" then []
    else EntryAt(args[0], Next(args, 0)) + Scan(args[Width(args[0], Next(args, 0))..])
  }

  /** No option that takes the next argument also holds an entry on its own. */
  lemma SpellingsDisjoint(arg: GoString)
    ensures TakesNext(arg) ==>
      !(HasPrefix(arg, "-d") && |arg| > 2) && !HasPrefix(arg, "--data=") && !HasPrefix(arg, "--data-urlencode=")
  {
    if HasPrefix(arg, "-d") { assert arg[1] == 'd'; }
    if HasPrefix(arg, "--data=") { assert arg[6] == '='; }
  }

  /** One iteration at index i keeps the entries found so far in front of those to come. */
  lemma ScanStep(args: seq<GoString>, i: nat, before: seq<DataEntry>) returns (found: seq<DataEntry>, w: nat)
    requires i < |args| && args[i] != "--" && before + Scan(args[i..]) == Scan(args)
    ensures found == EntryAt(args[i], Next(args, i)) && w == Width(args[i], Next(args, i))
    ensures (before + found) + Scan(args[i + w..]) == Scan(args)
  {
    found, w := EntryAt(args[i], Next(args, i)), Width(args[i], Next(args, i));
    assert Next(args[i..], 0) == Next(args, i);
    assert args[i..][w..] == args[i + w..];
    Assoc(before, found, Scan(args[i + w..]));
  }

  /** The body of the loop: i ends up at the last argument consumed. */
  method ReadArgument(args: seq<GoString>, i0: nat, before: seq<DataEntry>)
    returns (entries: seq<DataEntry>, i: nat)
    requires i0 < |args|
    ensures entries == before + EntryAt(args[i0], Next(args, i0))
    ensures i + 1 == i0 + Width(args[i0], Next(args, i0)) && i < |args|
  {
    var arg := args[i0];
    entries, i := before, i0;
    SpellingsDisjoint(arg);
    if arg == "-d" || arg == "--data" {
      if i + 1 < |args| {
        entries := entries + [DataEntry(args[i + 1], false)];
        i := i + 1;
      }
    } else if HasPrefix(arg, "-d") && |arg| > 2 {
      entries := entries + [DataEntry(arg[2..], false)];
    } else if HasPrefix(arg, "--data=") {
      entries := entries + [DataEntry(arg[7..], false)];
    } else if arg == "--data-urlencode" {
      if i + 1 < |args| {
        entries := entries + [DataEntry(args[i + 1], true)];
        i := i + 1;
      }
    } else if HasPrefix(arg, "--data-urlencode=") {
      entries := entries + [DataEntry(arg[17..], true)];
    }
  }

  method ParseDataEntries(args: seq<GoString>) returns (entries: seq<DataEntry>)
    ensures entries == Scan(args)
  {
    entries := [];
    var i := 0;
    while i < |args|
      invariant 0 <= i <= |args|
      invariant entries + Scan(args[i..]) == Scan(args)
    {
      if args[i] == "--" {
        break;
      }
      ghost var found, w := ScanStep(args, i, entries);
      entries, i := ReadArgument(args, i, entries);
      i := i + 1;
    }
  }

  /** A way of writing an entry on the command line, or an argument that is none. The first six
      spellings are the ones the scanner knows; the flag library accepts two more. */
  datatype Token =
    | ShortSpaced(value: GoString)                    // -d v
    | ShortJoined(value: GoString)                    // -dv
    | LongSpaced(value: GoString)                     // --data v
    | LongJoined(value: GoString)                     // --data=v
    | EncodeSpaced(value: GoString)                   // --data-urlencode v
    | EncodeJoined(value: GoString)                   // --data-urlencode=v
    | ShortEquals(value: GoString)                    // -d=v
    | Clustered(flags: GoString, value: GoString)     // -vd v, behind other short options
    | Neutral(arg: GoString)

  /** An argument that the scanner passes over. */
  predicate PassedOver(arg: GoString) {
    arg !in {"--", "--data", "--data-urlencode"} &&
    !HasPrefix(arg, "-d") && !HasPrefix(arg, "--data=") && !HasPrefix(arg, "--data-urlencode=")
  }

  predicate WellFormed(t: Token) {
    match t
    case ShortJoined(v) => v != [] && v[0] != '='
    case Clustered(flags, v) => flags != [] && flags[0] != 'd' && flags[0] != '-' && PassedOver(v)
    case Neutral(arg) => PassedOver(arg)
    case _ => true
  }

  function Render(t: Token): seq<GoString> {
    match t
    case ShortSpaced(v) => ["-d", v]
    case ShortJoined(v) => ["-d" + v]
    case LongSpaced(v) => ["--data", v]
    case LongJoined(v) => ["--data=" + v]
    case EncodeSpaced(v) => ["--data-urlencode", v]
    case EncodeJoined(v) => ["--data-urlencode=" + v]
    case ShortEquals(v) => ["-d=" + v]
    case Clustered(flags, v) => ["-" + flags + "d", v]
    case Neutral(arg) => [arg]
  }

  /** What the scanner makes of it: it keeps the equals sign and passes over the cluster. */
  function EntryOf(t: Token): seq<DataEntry> {
    match t
    case EncodeSpaced(v) => [DataEntry(v, true)]
    case EncodeJoined(v) => [DataEntry(v, true)]
    case ShortEquals(v) => [DataEntry("=" + v, false)]
    case Clustered(_, _) => []
    case Neutral(_) => []
    case _ => [DataEntry(t.value, false)]
  }

  function RenderAll(ts: seq<Token>): seq<GoString> {
    if ts == [] then [] else Render(ts[0]) + RenderAll(ts[1..])
  }

  function EntriesOf(ts: seq<Token>): seq<DataEntry> {
    if ts == [] then [] else EntryOf(ts[0]) + EntriesOf(ts[1..])
  }

  predicate AllWellFormed(ts: seq<Token>) {
    forall t :: t in ts ==> WellFormed(t)
  }

  /** What may follow the tokens: nothing, a terminator with anything behind it, or an option
      that lacks its value. */
  predicate Tail(args: seq<GoString>) {
    args == [] || args[0] == "--" || (|args| == 1 && TakesNext(args[0]))
  }

  lemma ScanPassedOver(arg: GoString, rest: seq<GoString>)
    requires PassedOver(arg)
    ensures Scan([arg] + rest) == Scan(rest)
  {
    assert ([arg] + rest)[1..] == rest;
    assert arg == "-d" ==> HasPrefix(arg, "-d");
  }

  lemma ScanCluster(flags: GoString, v: GoString, rest: seq<GoString>)
    requires WellFormed(Clustered(flags, v))
    ensures Scan(["-" + flags + "d", v] + rest) == Scan(rest)
  {
    var cluster := "-" + flags + "d";
    assert cluster[1] == flags[0];
    assert ["-" + flags + "d", v] + rest == [cluster] + ([v] + rest);
    ScanPassedOver(cluster, [v] + rest);
    ScanPassedOver(v, rest);
  }

  predicate Joined(t: Token) {
    t.ShortJoined? || t.LongJoined? || t.EncodeJoined? || t.ShortEquals?
  }

  lemma ScanJoined(t: Token)
    requires WellFormed(t) && Joined(t)
    ensures |Render(t)| == 1 && Render(t)[0] != "--" && !TakesNext(Render(t)[0])
    ensures forall next :: EntryAt(Render(t)[0], next) == EntryOf(t)
  {
    var arg := Render(t)[0];
    SpellingsDisjoint(arg);
    match t {
      case ShortJoined(v) => assert arg[0] == '-' && arg[1] == 'd';
      case LongJoined(v) => assert arg[1] == '-' && arg[6] == '=';
      case EncodeJoined(v) => assert arg[1] == '-' && arg[6] == '-' && arg[16] == '=';
      case ShortEquals(v) => assert arg == "-d" + ("=" + v) && arg[1] == 'd';
    }
  }

  lemma ScanToken(t: Token, rest: seq<GoString>)
    requires WellFormed(t)
    ensures Scan(Render(t) + rest) == EntryOf(t) + Scan(rest)
  {
    var args := Render(t) + rest;
    if Joined(t) {
      ScanJoined(t);
      assert args[1..] == rest;
    } else if t.Clustered? {
      ScanCluster(t.flags, t.value, rest);
    } else if t.Neutral? {
      ScanPassedOver(t.arg, rest);
    } else {
      assert args[0] == Render(t)[0] && args[2..] == rest;
      SpellingsDisjoint(args[0]);
    }
  }

  /** The scanner inverts the printer: whatever the spellings, the neutral arguments between
      them and the tail, exactly the printed entries come back, in order. */
  lemma {:induction false} ScannerInvertsPrinter(ts: seq<Token>, tail: seq<GoString>)
    requires AllWellFormed(ts) && Tail(tail)
    ensures Scan(RenderAll(ts) + tail) == EntriesOf(ts)
  {
    if ts == [] {
      assert RenderAll(ts) + tail == tail;
      if tail != [] && tail[0] != "--" {
        assert tail[1..] == [] && Next(tail, 0) == None;
        SpellingsDisjoint(tail[0]);
      }
    } else {
      assert RenderAll(ts) + tail == Render(ts[0]) + (RenderAll(ts[1..]) + tail);
      ScanToken(ts[0], RenderAll(ts[1..]) + tail);
      ScannerInvertsPrinter(ts[1..], tail);
    }
  }

  lemma TokenAt(args: seq<GoString>) returns (t: Token, rest: seq<GoString>)
    requires args != [] && args[0] != "--" && !Tail(args)
    ensures WellFormed(t) && args == Render(t) + rest
  {
    var arg := args[0];
    var w := Width(arg, Next(args, 0));
    rest := args[w..];
    assert args == args[..w] + rest;
    if TakesNext(arg) {
      assert args[..2] == [arg, args[1]];
      t := if arg == "-d" then ShortSpaced(args[1])
      else if arg == "--data" then LongSpaced(args[1]) else EncodeSpaced(args[1]);
    } else {
      assert args[..1] == [arg];
      if HasPrefix(arg, "-d=") {
        t := ShortEquals(arg[3..]);
        assert arg == "-d=" + arg[3..];
      } else if HasPrefix(arg, "-d") {
        t := ShortJoined(arg[2..]);
        assert arg == "-d" + arg[2..];
      } else if HasPrefix(arg, "--data=") {
        t := LongJoined(arg[7..]);
        assert arg == "--data=" + arg[7..];
      } else if HasPrefix(arg, "--data-urlencode=") {
        t := EncodeJoined(arg[17..]);
        assert arg == "--data-urlencode=" + arg[17..];
      } else {
        t := Neutral(arg);
      }
    }
  }

  /** The printer reaches every argument list, so the lemma above decides the scanner on all. */
  lemma {:induction false} EveryArgvIsPrinted(args: seq<GoString>)
    returns (ts: seq<Token>, tail: seq<GoString>)
    ensures AllWellFormed(ts) && Tail(tail) && args == RenderAll(ts) + tail
    decreases |args|
  {
    if Tail(args) {
      ts, tail := [], args;
    } else {
      var t, rest := TokenAt(args);
      ts, tail := EveryArgvIsPrinted(rest);
      assert ([t] + ts)[1..] == ts;
      assert args == Render(t) + (RenderAll(ts) + tail);
      ts := [t] + ts;
    }
  }

  /** The indices at which the loop starts an iteration before it meets a terminator. */
  predicate Visits(args: seq<GoString>, k: nat)
    requires k <= |args|
  {
    k == 0 || (args[0] != "--" && var w := Width(args[0], Next(args, 0)); w <= k && Visits(args[w..], k - w))
  }

  lemma EntryAtPrefix(args: seq<GoString>, k: nat)
    requires 0 < k <= |args| && Width(args[0], Next(args, 0)) <= k
    ensures EntryAt(args[0], Next(args[..k], 0)) == EntryAt(args[0], Next(args, 0))
    ensures Width(args[0], Next(args[..k], 0)) == Width(args[0], Next(args, 0))
  {
    if k == 1 && TakesNext(args[0]) {
      assert args[..k] == args;
    }
  }

  lemma CutBehindFirst<T>(s: seq<T>, w: nat, k: nat)
    requires w <= k <= |s|
    ensures s[w..][..k - w] == s[..k][w..] && s[w..][k - w..] == s[k..]
  {
  }

  /** The scan can be cut at every visited index. */
  lemma {:induction false} ScanIsCompositional(args: seq<GoString>, k: nat)
    requires k <= |args| && Visits(args, k)
    ensures Scan(args) == Scan(args[..k]) + Scan(args[k..])
    decreases k
  {
    if k == 0 {
      assert args[..0] == [] && args[0..] == args;
    } else {
      var found, w := EntryAt(args[0], Next(args, 0)), Width(args[0], Next(args, 0));
      CutBehindFirst(args, w, k);
      ScanIsCompositional(args[w..], k - w);
      EntryAtPrefix(args, k);
      assert Scan(args[..k]) == found + Scan(args[..k][w..]);
      Assoc(found, Scan(args[..k][w..]), Scan(args[k..]));
    }
  }

  /** Nothing behind a visited terminator contributes an entry. */
  lemma ScanStopsAtTerminator(args: seq<GoString>, k: nat)
    requires k < |args| && Visits(args, k) && args[k] == "--"
    ensures Scan(args) == Scan(args[..k])
  {
    ScanIsCompositional(args, k);
  }

  // ----- the parts of the body -----

  function EncodeURLEntry(val: GoString, files: Files): Part {
    if HasPrefix(val, "@") then
      match files(val[1..])
      case None => Err(val[1..])
      case Some(content) => Ok(QueryEscape(content))
    else if HasPrefix(val, "=") then Ok(QueryEscape(val[1..]))
    else
      var eqIdx, atIdx := Index(val, '='), Index(val, '@');
      if eqIdx != -1 && (atIdx == -1 || eqIdx < atIdx) then
        Ok(val[..eqIdx] + "=" + QueryEscape(val[eqIdx + 1..]))
      else if atIdx != -1 then
        match files(val[atIdx + 1..])
        case None => Err(val[atIdx + 1..])
        case Some(content) => Ok(val[..atIdx] + "=" + QueryEscape(content))
      else Ok(QueryEscape(val))
  }

  /** strings.ReplaceAll of a one-byte string by the empty one. */
  function Remove(s: GoString, c: Byte): GoString {
    if s == [] then [] else (if s[0] == c then [] else [s[0]]) + Remove(s[1..], c)
  }

  function ProcessRawData(val: GoString, files: Files): Part {
    if HasPrefix(val, "@") then
      match files(val[1..])
      case None => Err(val[1..])
      case Some(content) => Ok(Remove(Remove(content, '\r'), '\n'))
    else Ok(val)
  }

  /** The bytes of s that do not end a line, in order. */
  function WithoutLineBreaks(s: GoString): GoString {
    if s == [] then []
    else if s[0] in "\r\n" then WithoutLineBreaks(s[1..])
    else [s[0]] + WithoutLineBreaks(s[1..])
  }

  lemma {:induction false} RemoveBreaks(s: GoString)
    ensures Remove(Remove(s, '\r'), '\n') == WithoutLineBreaks(s)
  {
    if s != [] {
      RemoveBreaks(s[1..]);
      var tail := Remove(s[1..], '\r');
      assert Remove(s, '\r') == (if s[0] == '\r' then tail else [s[0]] + tail);
      assert s[0] != '\r' ==> Remove([s[0]] + tail, '\n') == (if s[0] == '\n' then [] else [s[0]]) + Remove(tail, '\n');
    }
  }

  /** A file given to -d loses its line breaks and nothing else; other values are verbatim. */
  lemma RawDataMeaning(val: GoString, files: Files)
    ensures !HasPrefix(val, "@") ==> ProcessRawData(val, files) == Ok(val)
    ensures HasPrefix(val, "@") && files(val[1..]).Some? ==>
      ProcessRawData(val, files) == Ok(WithoutLineBreaks(files(val[1..]).value))
    ensures HasPrefix(val, "@") && files(val[1..]).None? ==> ProcessRawData(val, files) == Err(val[1..])
  {
    if HasPrefix(val, "@") && files(val[1..]).Some? {
      RemoveBreaks(files(val[1..]).value);
    }
  }

  function PartOf(entry: DataEntry, files: Files): Part {
    if entry.isURLEncode then EncodeURLEntry(entry.value, files) else ProcessRawData(entry.value, files)
  }

  function PartMaker(files: Files): DataEntry -> Part {
    (entry: DataEntry) => PartOf(entry, files)
  }

  /** All parts, or the first failure in command-line order. */
  function Parts(entries: seq<DataEntry>, files: Files): Result<seq<GoString>, GoString> {
    Traverse(PartMaker(files), entries)
  }

  function PlainEntries(values: seq<GoString>, isURLEncode: bool): seq<DataEntry> {
    seq(|values|, i requires 0 <= i < |values| => DataEntry(values[i], isURLEncode))
  }

  /** What the flag library reported. */
  function Reported(opts: DataOptions): seq<DataEntry> {
    PlainEntries(opts.data, false) + PlainEntries(opts.dataURLEncode, true)
  }

  /** The scanned entries; when there are none, what the flag library found, -d first. */
  function Entries(args: seq<GoString>, opts: DataOptions): seq<DataEntry> {
    if Scan(args) != [] then Scan(args)
    else Reported(opts)
  }

  function Body(entries: seq<DataEntry>, files: Files): Part {
    match Parts(entries, files)
    case Err(e) => Err(e)
    case Ok(parts) => Ok(Join(parts, '&'))
  }

  /** The second loop of processData. */
  method JoinParts(entries: seq<DataEntry>, files: Files) returns (r: Part)
    ensures r == Body(entries, files)
  {
    var parts := [];
    for i := 0 to |entries|
      invariant Parts(entries[..i], files) == Ok(parts)
    {
      var entry := entries[i];
      TraverseStep(PartMaker(files), entries, i);
      var part := if entry.isURLEncode then EncodeURLEntry(entry.value, files)
                  else ProcessRawData(entry.value, files);
      if part.Err? {
        return Err(part.error);
      }
      parts := parts + [part.value];
    }
    assert entries[..|entries|] == entries;
    return Ok(Join(parts, '&'));
  }

  method ProcessData(args: seq<GoString>, opts: DataOptions, files: Files) returns (r: Part)
    ensures r == Body(Entries(args, opts), files)
  {
    var entries := ParseDataEntries(args);
    if |entries| == 0 {
      for i := 0 to |opts.data|
        invariant entries == PlainEntries(opts.data, false)[..i]
      {
        entries := entries + [DataEntry(opts.data[i], false)];
      }
      ghost var plain := entries;
      for i := 0 to |opts.dataURLEncode|
        invariant entries == plain + PlainEntries(opts.dataURLEncode, true)[..i]
      {
        entries := entries + [DataEntry(opts.dataURLEncode[i], true)];
      }
    }
    assert entries == Entries(args, opts);
    if |entries| == 0 {
      return Ok("");
    }
    r := JoinParts(entries, files);
  }

  // ----- the form round trip -----

  /** The five forms of a --data-urlencode argument. */
  datatype UrlArg =
    | Content(text: GoString)                    // =content
    | Plain(text: GoString)                      // content
    | AtFile(file: GoString)                     // @filename
    | Named(name: GoString, text: GoString)      // name=content
    | NamedFile(name: GoString, file: GoString)  // name@filename

  predicate NoMark(s: GoString) {
    '=' !in s && '@' !in s
  }

  predicate WellFormedArg(a: UrlArg) {
    match a
    case Plain(text) => NoMark(text)
    case Named(name, _) => name != [] && NoMark(name)
    case NamedFile(name, _) => name != [] && NoMark(name)
    case _ => true
  }

  function RenderArg(a: UrlArg): GoString {
    match a
    case Content(text) => "=" + text
    case Plain(text) => text
    case AtFile(file) => "@" + file
    case Named(name, text) => name + "=" + text
    case NamedFile(name, file) => name + "@" + file
  }

  /** A string cut at the first of its marks. */
  lemma {:induction false} CutAtMark(val: GoString) returns (name: GoString, mark: Byte, rest: GoString)
    requires !NoMark(val)
    ensures NoMark(name) && mark in "=@" && val == name + [mark] + rest
  {
    if val[0] in "=@" {
      name, mark, rest := [], val[0], val[1..];
    } else {
      name, mark, rest := CutAtMark(val[1..]);
      name := [val[0]] + name;
    }
  }

  /** Every string is the rendering of a well-formed argument. */
  lemma EveryStringIsAnArg(val: GoString) returns (a: UrlArg)
    ensures WellFormedArg(a) && RenderArg(a) == val
  {
    if NoMark(val) {
      a := Plain(val);
    } else {
      var name, mark, rest := CutAtMark(val);
      a := if mark == '=' then (if name == [] then Content(rest) else Named(name, rest))
           else (if name == [] then AtFile(rest) else NamedFile(name, rest));
    }
  }

  predicate Readable(a: UrlArg, files: Files) {
    a.AtFile? || a.NamedFile? ==> files(a.file).Some?
  }

  /** The bytes that the argument stands for. */
  function Bytes(a: UrlArg, files: Files): GoString
    requires Readable(a, files)
  {
    if a.AtFile? || a.NamedFile? then files(a.file).value else a.text
  }

  predicate HasName(a: UrlArg) {
    a.Named? || a.NamedFile?
  }

  /** The field that the argument asks for. */
  function FieldOf(a: UrlArg, files: Files): Field
    requires Readable(a, files)
  {
    if HasName(a) then Pair(a.name, Bytes(a, files)) else Bare(Bytes(a, files))
  }

  /** Names are sent as they are, so only literal names without an ampersand survive. */
  predicate NameSafe(a: UrlArg) {
    HasName(a) ==> '&' !in a.name && Literal(a.name)
  }

  lemma IndexPast(p: GoString, t: GoString, c: Byte)
    requires c !in p
    ensures Index(p + t, c) == -1 || Index(p + t, c) >= |p|
  {
    var i := Index(p + t, c);
    assert forall j :: 0 <= j < |p| ==> (p + t)[j] == p[j];
  }

  /** Behind a name, the mark is found first, and the other mark, if at all, behind it. */
  lemma MarkBehindName(name: GoString, mark: Byte, rest: GoString, other: Byte)
    requires name != [] && NoMark(name)
    requires (mark == '=' && other == '@') || (mark == '@' && other == '=')
    ensures
      var val := name + [mark] + rest;
      && Index(val, mark) == |name| && (Index(val, other) == -1 || Index(val, other) > |name|)
      && val[..|name|] == name && val[|name| + 1..] == rest
      && !HasPrefix(val, "@") && !HasPrefix(val, "=")
  {
    var val := name + [mark] + rest;
    IndexAfterFree(name, mark, rest);
    IndexPast(name + [mark], rest, other);
    assert val[0] == name[0] && name[0] in name;
  }

  /** The name as it is, then the escaped bytes. */
  function PartOfArg(a: UrlArg, files: Files): GoString
    requires Readable(a, files)
  {
    (if HasName(a) then a.name + "=" else "") + QueryEscape(Bytes(a, files))
  }

  lemma EncodeForm(a: UrlArg, files: Files)
    requires WellFormedArg(a)
    ensures !Readable(a, files) ==> EncodeURLEntry(RenderArg(a), files) == Err(a.file)
    ensures Readable(a, files) ==>
      EncodeURLEntry(RenderArg(a), files) == Ok(PartOfArg(a, files))
  {
    var val := RenderArg(a);
    if Readable(a, files) {
      assert [] + QueryEscape(Bytes(a, files)) == QueryEscape(Bytes(a, files));
    }
    match a {
      case Content(text) => assert val[0] == '=' && val[1..] == text;
      case Plain(text) =>
        assert Index(val, '=') == -1 && Index(val, '@') == -1;
        if val != [] { assert val[0] in text; }
      case AtFile(file) => assert val[1..] == file;
      case Named(name, text) => MarkBehindName(name, '=', text, '@');
      case NamedFile(name, file) => MarkBehindName(name, '@', file, '=');
    }
  }

  /** One argument: its part is one piece of the body exactly when its name has no ampersand,
      and decodes to the field asked for exactly when its name is literal. */
  lemma PartDecodes(a: UrlArg, files: Files)
    requires WellFormedArg(a) && Readable(a, files)
    ensures '&' in PartOfArg(a, files) <==> HasName(a) && '&' in a.name
    ensures DecodeField(PartOfArg(a, files)) == FieldOf(a, files) <==> (HasName(a) ==> Literal(a.name))
  {
    var bytes := Bytes(a, files);
    var part := PartOfArg(a, files);
    EscapedAlphabet(bytes);
    DecodeEscaped(bytes);
    if HasName(a) {
      IndexAfterFree(a.name, '=', QueryEscape(bytes));
      DecodeLiteral(a.name);
    } else {
      assert part == QueryEscape(bytes);
    }
  }

  predicate ArgsOk(args: seq<UrlArg>, files: Files) {
    forall a :: a in args ==> WellFormedArg(a) && Readable(a, files)
  }

  function ArgEntries(args: seq<UrlArg>): seq<DataEntry> {
    if args == [] then [] else [DataEntry(RenderArg(args[0]), true)] + ArgEntries(args[1..])
  }

  function FieldsOf(args: seq<UrlArg>, files: Files): (fs: seq<Field>)
    requires ArgsOk(args, files)
    ensures |fs| == |args|
    ensures forall i :: 0 <= i < |args| ==> fs[i] == FieldOf(args[i], files)
  {
    if args == [] then [] else [FieldOf(args[0], files)] + FieldsOf(args[1..], files)
  }

  function ArgParts(args: seq<UrlArg>, files: Files): (parts: seq<GoString>)
    requires ArgsOk(args, files)
    ensures |parts| == |args|
    ensures forall i :: 0 <= i < |args| ==> parts[i] == PartOfArg(args[i], files)
  {
    if args == [] then [] else [PartOfArg(args[0], files)] + ArgParts(args[1..], files)
  }

  lemma {:induction false} PartsOfArgs(args: seq<UrlArg>, files: Files)
    requires ArgsOk(args, files)
    ensures Parts(ArgEntries(args), files) == Ok(ArgParts(args, files))
  {
    if args != [] {
      var rest := args[1..];
      EncodeForm(args[0], files);
      assert ArgEntries(args)[0] == DataEntry(RenderArg(args[0]), true);
      assert ArgEntries(args)[1..] == ArgEntries(rest);
      PartsOfArgs(rest, files);
    }
  }

  lemma SafeArgsDecode(args: seq<UrlArg>, files: Files)
    requires args != [] && ArgsOk(args, files) && forall a :: a in args ==> NameSafe(a)
    ensures Split(Join(ArgParts(args, files), '&'), '&') == ArgParts(args, files)
    ensures DecodeFields(ArgParts(args, files)) == FieldsOf(args, files)
  {
    var parts := ArgParts(args, files);
    forall i | 0 <= i < |args| ensures '&' !in parts[i] && DecodeField(parts[i]) == FieldOf(args[i], files) {
      assert NameSafe(args[i]);
      PartDecodes(args[i], files);
    }
    assert forall p :: p in parts ==> '&' !in p;
    SplitInvertsJoin(parts, '&');
  }

  lemma DecodedArgsAreSafe(args: seq<UrlArg>, files: Files)
    requires args != [] && ArgsOk(args, files)
    requires Fields(Join(ArgParts(args, files), '&')) == FieldsOf(args, files)
    ensures forall a :: a in args ==> NameSafe(a)
  {
    var parts := ArgParts(args, files);
    SplitInvertsJoin(parts, '&');
    assert Split(Join(parts, '&'), '&') == parts;
    forall i | 0 <= i < |args| ensures NameSafe(args[i]) {
      PartDecodes(args[i], files);
      assert '&' !in parts[i];
      assert DecodeFields(parts)[i] == FieldsOf(args, files)[i];
    }
  }

  /** The form round trip. For every non-empty list of readable --data-urlencode arguments a body
      is built, and its fields are the names and contents asked for, one per argument and in
      order, exactly when every name is free of ampersands and literal. */
  lemma FormRoundTrip(args: seq<UrlArg>, files: Files)
    requires args != [] && ArgsOk(args, files)
    ensures Body(ArgEntries(args), files).Ok?
    ensures Fields(Body(ArgEntries(args), files).value) == FieldsOf(args, files)
      <==> forall a :: a in args ==> NameSafe(a)
  {
    PartsOfArgs(args, files);
    if Fields(Join(ArgParts(args, files), '&')) == FieldsOf(args, files) {
      DecodedArgsAreSafe(args, files);
    }
    if forall a :: a in args ==> NameSafe(a) {
      SafeArgsDecode(args, files);
    }
  }

  /** Text with one ampersand is two fields. */
  lemma TwoFields(a: GoString, b: GoString)
    requires '&' !in a && '&' !in b
    ensures Fields(a + ['&'] + b) == [DecodeField(a), DecodeField(b)]
  {
    SplitStep(a, '&', b);
    SplitPieces(b, '&');
  }

  lemma OneArg(arg: UrlArg, files: Files)
    requires WellFormedArg(arg) && Readable(arg, files)
    ensures Body(ArgEntries([arg]), files) == Ok(PartOfArg(arg, files))
  {
    assert forall a :: a in [arg] ==> a == arg;
    PartsOfArgs([arg], files);
    assert [arg][1..] == [];
    assert ArgParts([arg], files) == [PartOfArg(arg, files)];
  }

  lemma NamedPart(a: GoString, b: GoString, text: GoString, files: Files)
    ensures PartOfArg(Named(a + ['&'] + b, text), files) == a + ['&'] + PartOfArg(Named(b, text), files)
  {
  }

  /** A name that does not survive: its ampersand makes two fields of one argument. */
  lemma AmpersandInNameSplits(a: GoString, b: GoString, text: GoString, files: Files)
    requires NoMark(a) && '&' !in a && Literal(a)
    requires b != [] && NoMark(b) && '&' !in b && Literal(b)
    ensures Body(ArgEntries([Named(a + ['&'] + b, text)]), files).Ok?
    ensures Fields(Body(ArgEntries([Named(a + ['&'] + b, text)]), files).value) == [Bare(a), Pair(b, text)]
  {
    OneArg(Named(a + ['&'] + b, text), files);
    Assoc(a, ['&'], b);
    PartDecodes(Named(b, text), files);
    TwoFields(a, PartOfArg(Named(b, text), files));
    NamedPart(a, b, text, files);
    DecodeLiteral(a);
  }

  lemma DecodedSize(s: GoString)
    ensures |FormDecode(s)| <= |s|
  {
    DecodeLength(PlusToSpace(s));
  }

  lemma NamedField(name: GoString, bytes: GoString)
    requires '=' !in name
    ensures DecodeField(name + ['='] + QueryEscape(bytes)) == Pair(FormDecode(name), bytes)
  {
    var part := name + ['='] + QueryEscape(bytes);
    IndexAfterFree(name, '=', QueryEscape(bytes));
    DecodeEscaped(bytes);
    assert part[..|name|] == name && part[|name| + 1..] == QueryEscape(bytes);
  }

  lemma OneField(part: GoString)
    requires '&' !in part
    ensures Fields(part) == [DecodeField(part)]
    ensures FieldsSize(Fields(part)) == FieldSize(DecodeField(part))
  {
    SplitPieces(part, '&');
    assert [DecodeField(part)][1..] == [];
  }

  lemma NamedFieldSize(name: GoString, bytes: GoString)
    requires '=' !in name
    ensures FieldSize(DecodeField(name + ['='] + QueryEscape(bytes))) <= |name| + |bytes|
  {
    NamedField(name, bytes);
    DecodedSize(name);
  }

  lemma NoAmpersand(name: GoString, bytes: GoString)
    requires '&' !in name
    ensures '&' !in name + ['='] + QueryEscape(bytes)
  {
    EscapedAlphabet(bytes);
  }

  /** In front of an ampersand the text is a field of its own. */
  lemma CutSize(first: GoString, rest: GoString, tail: GoString)
    requires '=' !in first && '&' !in first
    ensures FieldsSize(Fields((first + ['&'] + rest) + tail)) <= |first| + FieldsSize(Fields(rest + tail))
  {
    assert (first + ['&'] + rest) + tail == first + ['&'] + (rest + tail);
    SplitStep(first, '&', rest + tail);
    DecodedSize(first);
    var fields := Fields(rest + tail);
    assert Fields(first + ['&'] + (rest + tail)) == [DecodeField(first)] + fields;
    assert ([DecodeField(first)] + fields)[1..] == fields;
  }

  /** The fields of one named part are no larger than its name and bytes, and smaller when the
      name has an ampersand. */
  lemma {:induction false} NamedPartSize(name: GoString, bytes: GoString, tail: GoString)
    requires NoMark(name) && tail == ['='] + QueryEscape(bytes)
    ensures FieldsSize(Fields(name + tail)) <= |name| + |bytes|
    ensures '&' in name ==> FieldsSize(Fields(name + tail)) < |name| + |bytes|
    decreases |name|
  {
    if '&' in name {
      var first, rest := CutAtIndex(name, '&');
      NamedPartSize(rest, bytes, tail);
      CutSize(first, rest, tail);
    } else {
      Assoc(name, ['='], QueryEscape(bytes));
      NamedFieldSize(name, bytes);
      NoAmpersand(name, bytes);
      OneField(name + tail);
    }
  }

  lemma NamedText(a: UrlArg, files: Files)
    requires Readable(a, files) && HasName(a)
    ensures PartOfArg(a, files) == a.name + (['='] + QueryEscape(Bytes(a, files)))
  {
    Assoc(a.name, ['='], QueryEscape(Bytes(a, files)));
  }

  lemma BareSize(a: UrlArg, files: Files)
    requires WellFormedArg(a) && Readable(a, files) && !HasName(a)
    ensures FieldsSize(Fields(PartOfArg(a, files))) == FieldSize(FieldOf(a, files))
  {
    PartDecodes(a, files);
    OneField(PartOfArg(a, files));
  }

  lemma PartSize(a: UrlArg, files: Files)
    requires WellFormedArg(a) && Readable(a, files)
    ensures FieldsSize(Fields(PartOfArg(a, files))) <= FieldSize(FieldOf(a, files))
    ensures FieldsSize(Fields(PartOfArg(a, files))) == FieldSize(FieldOf(a, files)) ==> !(HasName(a) && '&' in a.name)
  {
    if HasName(a) {
      NamedText(a, files);
      NamedPartSize(a.name, Bytes(a, files), ['='] + QueryEscape(Bytes(a, files)));
    } else {
      BareSize(a, files);
    }
  }

  /** All parts together: equal sizes leave no ampersand in any part. */
  lemma {:induction false} PartsSize(args: seq<UrlArg>, files: Files)
    requires ArgsOk(args, files)
    ensures
      var size := FieldsSize(Flatten(FieldsOfEach(ArgParts(args, files))));
      && size <= FieldsSize(FieldsOf(args, files))
      && (size == FieldsSize(FieldsOf(args, files)) ==> forall p :: p in ArgParts(args, files) ==> '&' !in p)
  {
    if args != [] {
      var parts := ArgParts(args, files);
      PartSize(args[0], files);
      PartDecodes(args[0], files);
      PartsSize(args[1..], files);
      assert parts[1..] == ArgParts(args[1..], files) && parts == [parts[0]] + parts[1..];
      FlattenFirst(Fields(parts[0]), FieldsOfEach(parts[1..]));
      FieldsSizeAppend(Fields(parts[0]), Flatten(FieldsOfEach(parts[1..])));
      assert FieldsOf(args, files)[1..] == FieldsOf(args[1..], files);
    }
  }

  /** If the standard's parser gives the pairs asked for, the fields are those asked for. */
  lemma PairsDecideFields(args: seq<UrlArg>, files: Files)
    requires args != [] && ArgsOk(args, files)
    requires PairsOf(Fields(Join(ArgParts(args, files), '&'))) == PairsOf(FieldsOf(args, files))
    ensures Fields(Join(ArgParts(args, files), '&')) == FieldsOf(args, files)
  {
    var parts := ArgParts(args, files);
    FieldsOfJoin(parts);
    PairsSize(Fields(Join(parts, '&')), FieldsOf(args, files));
    PartsSize(args, files);
    SplitInvertsJoin(parts, '&');
    var fields := Fields(Join(parts, '&'));
    forall i | 0 <= i < |args|
      ensures fields[i] == FieldOf(args[i], files) || (fields[i].Pair? && FieldOf(args[i], files).Pair?)
    {
      PartDecodes(args[i], files);
      if HasName(args[i]) { NamedField(args[i].name, Bytes(args[i], files)); }
    }
    PairsDecide(fields, FieldsOf(args, files));
  }

  /** The same for the parser of the standard. */
  lemma StandardRoundTrip(args: seq<UrlArg>, files: Files)
    requires args != [] && ArgsOk(args, files)
    ensures Body(ArgEntries(args), files).Ok?
    ensures FormPairs(Split(Body(ArgEntries(args), files).value, '&')) == PairsOf(FieldsOf(args, files))
      <==> forall a :: a in args ==> NameSafe(a)
  {
    FormRoundTrip(args, files);
    PartsOfArgs(args, files);
    var body := Join(ArgParts(args, files), '&');
    StandardParserSeesFields(Split(body, '&'));
    if PairsOf(Fields(body)) == PairsOf(FieldsOf(args, files)) {
      PairsDecideFields(args, files);
    }
  }

  /** The same from the command line: whatever the spellings, the neutral arguments between them
      and the tail, and whatever the flag library reported. */
  lemma CommandLineRoundTrip(ts: seq<Token>, tail: seq<GoString>, opts: DataOptions,
                             args: seq<UrlArg>, files: Files)
    requires AllWellFormed(ts) && Tail(tail)
    requires args != [] && ArgsOk(args, files) && EntriesOf(ts) == ArgEntries(args)
    ensures Body(Entries(RenderAll(ts) + tail, opts), files).Ok?
    ensures
      var body := Body(Entries(RenderAll(ts) + tail, opts), files).value;
      Fields(body) == FieldsOf(args, files) <==> forall a :: a in args ==> NameSafe(a)
    ensures
      var body := Body(Entries(RenderAll(ts) + tail, opts), files).value;
      && (FormPairs(Split(body, '&')) == PairsOf(FieldsOf(args, files)) <==> forall a :: a in args ==> NameSafe(a))
      && ((forall a :: a in args ==> NameSafe(a)) ==> |Split(body, '&')| == |args|)
  {
    ScannerInvertsPrinter(ts, tail);
    FormRoundTrip(args, files);
    StandardRoundTrip(args, files);
  }

  /** Mixed with -d entries, the body has the fields of each entry's own part, in order; a safe
      --data-urlencode entry contributes exactly the one field that it asks for. */
  lemma MixedBody(entries: seq<DataEntry>, files: Files)
    requires entries != [] && Parts(entries, files).Ok?
    ensures |Parts(entries, files).value| == |entries|
    ensures forall i :: 0 <= i < |entries| ==>
      Ok(Parts(entries, files).value[i]) == PartOf(entries[i], files)
    ensures Fields(Body(entries, files).value) == Flatten(FieldsOfEach(Parts(entries, files).value))
    ensures forall a | WellFormedArg(a) && Readable(a, files) && NameSafe(a) ::
      Fields(PartOfArg(a, files)) == [FieldOf(a, files)]
  {
    TraversePointwise(PartMaker(files), entries);
    FieldsOfJoin(Parts(entries, files).value);
    forall a | WellFormedArg(a) && Readable(a, files) && NameSafe(a)
      ensures Fields(PartOfArg(a, files)) == [FieldOf(a, files)]
    {
      PartDecodes(a, files);
      SplitPieces(PartOfArg(a, files), '&');
    }
  }

  /** A body is refused exactly when some part fails, with the first failure in order. */
  lemma FirstFailureWins(entries: seq<DataEntry>, files: Files)
    ensures Body(entries, files).Ok? <==> forall e :: e in entries ==> PartOf(e, files).Ok?
    ensures Body(entries, files).Err? ==>
      exists i | 0 <= i < |entries| ::
        PartOf(entries[i], files) == Body(entries, files) && forall j :: 0 <= j < i ==> PartOf(entries[j], files).Ok?
  {
    TraversePointwise(PartMaker(files), entries);
    if Body(entries, files).Err? {
      var k := TraverseFirstError(PartMaker(files), entries);
      assert PartOf(entries[k], files) == Body(entries, files);
    }
  }

  // ----- files -----

  /** The entry names this file: behind the @ of a -d value, or in the argument form that a
      --data-urlencode value is the text of. */
  ghost predicate Names(entry: DataEntry, file: GoString) {
    if entry.isURLEncode
    then exists a: UrlArg ::
      WellFormedArg(a) && RenderArg(a) == entry.value && (a.AtFile? || a.NamedFile?) && a.file == file
    else entry.value == "@" + file
  }

  lemma EncodedFailsIff(val: GoString, files: Files, file: GoString)
    ensures EncodeURLEntry(val, files) == Err(file) <==> Names(DataEntry(val, true), file) && files(file) == None
  {
    var entry := DataEntry(val, true);
    if Names(entry, file) {
      var b: UrlArg :|
        WellFormedArg(b) && RenderArg(b) == entry.value && (b.AtFile? || b.NamedFile?) && b.file == file;
      EncodeForm(b, files);
    }
    var a := EveryStringIsAnArg(val);
    EncodeForm(a, files);
  }

  lemma RawFailsIff(val: GoString, files: Files, file: GoString)
    ensures ProcessRawData(val, files) == Err(file) <==> val == "@" + file && files(file) == None
  {
    RawDataMeaning(val, files);
    if HasPrefix(val, "@") {
      assert val == "@" + val[1..];
    }
    if val == "@" + file {
      assert val[1..] == file;
    }
  }

  /** An entry has no part for one reason only: the file that it names cannot be read. */
  lemma PartFailsIff(entry: DataEntry, files: Files, file: GoString)
    ensures PartOf(entry, files) == Err(file) <==> Names(entry, file) && files(file) == None
  {
    if entry.isURLEncode {
      EncodedFailsIff(entry.value, files, file);
    } else {
      RawFailsIff(entry.value, files, file);
    }
  }

  /** A body is built if and only if every file that an entry names is readable. */
  lemma BodyExistsIff(entries: seq<DataEntry>, files: Files)
    ensures Body(entries, files).Ok? <==>
      forall e, file :: e in entries && Names(e, file) ==> files(file).Some?
  {
    FirstFailureWins(entries, files);
    if Body(entries, files).Ok? {
      forall e, file | e in entries && Names(e, file) ensures files(file).Some? {
        PartFailsIff(e, files, file);
      }
    } else {
      var file := Body(entries, files).error;
      var i :| 0 <= i < |entries| && PartOf(entries[i], files) == Body(entries, files);
      PartFailsIff(entries[i], files, file);
    }
  }

  /** Otherwise the error is the name of the first unreadable file in command-line order. */
  lemma FirstUnreadableIsTheError(entries: seq<DataEntry>, files: Files, i: nat, file: GoString)
    requires i < |entries| && Names(entries[i], file) && files(file) == None
    requires forall j, f :: 0 <= j < i && Names(entries[j], f) ==> files(f).Some?
    ensures Body(entries, files) == Err(file)
  {
    PartFailsIff(entries[i], files, file);
    forall j | 0 <= j < i ensures PartOf(entries[j], files).Ok? {
      if PartOf(entries[j], files).Err? { PartFailsIff(entries[j], files, PartOf(entries[j], files).error); }
    }
    TraverseErrorAt(PartMaker(files), entries, i);
  }

  lemma RawParts(values: seq<GoString>, files: Files)
    requires forall v :: v in values ==> !HasPrefix(v, "@")
    ensures Parts(PlainEntries(values, false), files) == Ok(values)
  {
    var entries := PlainEntries(values, false);
    forall i | 0 <= i < |entries| ensures PartMaker(files)(entries[i]) == Ok(values[i]) {
      RawDataMeaning(values[i], files);
    }
    TraverseOk(PartMaker(files), entries, values);
  }

  /** Without scanned entries the body is made of the reported values: the -d values, verbatim
      unless they name files, then the parts of the --data-urlencode arguments. */
  lemma FallbackBody(args: seq<GoString>, opts: DataOptions, encoded: seq<UrlArg>, files: Files)
    requires Scan(args) == [] && forall v :: v in opts.data ==> !HasPrefix(v, "@")
    requires ArgsOk(encoded, files) && PlainEntries(opts.dataURLEncode, true) == ArgEntries(encoded)
    ensures Body(Entries(args, opts), files) == Ok(Join(opts.data + ArgParts(encoded, files), '&'))
  {
    RawParts(opts.data, files);
    PartsOfArgs(encoded, files);
    TraverseAppend(PartMaker(files), PlainEntries(opts.data, false), ArgEntries(encoded));
  }
}
