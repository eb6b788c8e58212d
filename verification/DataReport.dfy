/** internal/config/data.go beside the flag library: the entries the scanner finds and the ones
    the library reads from the same arguments.

    The library's reading of a quoted value is an oracle. */
module DataReport {
  import opened Seqs
  import opened GoStrings
  import opened DataArgs

  /** How the flag library reads values: one that starts with a double quote is unquoted. */
  type Unquote = GoString -> Option<GoString>

  predicate Quoted(v: GoString) {
    v != [] && v[0] == '"'
  }

  /** The backslashes and quotation marks of a text. */
  function Marks(s: GoString): nat {
    multiset(s)['\\'] + multiset(s)['"']
  }

  /** strconv.Unquote drops the two outer quotation marks. An escape takes a backslash at least,
      and gives at most one backslash or quotation mark. */
  ghost predicate SavesMarks(unquote: Unquote) {
    forall v :: Quoted(v) && unquote(v).Some? ==> Marks(unquote(v).value) < Marks(v)
  }

  /** The library accepts the value of this token. */
  predicate Accepts(unquote: Unquote, t: Token) {
    t.Neutral? || (Quoted(t.value) ==> unquote(t.value).Some?)
  }

  /** The entry that the library reads. */
  function Meant(unquote: Unquote, t: Token): seq<DataEntry>
    requires Accepts(unquote, t)
  {
    if t.Neutral? then []
    else [DataEntry(if Quoted(t.value) then unquote(t.value).value else t.value, t.EncodeSpaced? || t.EncodeJoined?)]
  }

  predicate AllAccepted(unquote: Unquote, ts: seq<Token>) {
    forall t :: t in ts ==> Accepts(unquote, t)
  }

  function MeantBy(unquote: Unquote, ts: seq<Token>): seq<DataEntry>
    requires AllAccepted(unquote, ts)
  {
    if ts == [] then [] else Meant(unquote, ts[0]) + MeantBy(unquote, ts[1..])
  }

  /** The values of one kind, in order. */
  function ValuesOf(entries: seq<DataEntry>, isURLEncode: bool): seq<GoString> {
    if entries == [] then []
    else
      (if entries[0].isURLEncode == isURLEncode then [entries[0].value] else []) + ValuesOf(entries[1..], isURLEncode)
  }

  /** The two lists as the library fills them. */
  function Report(unquote: Unquote, ts: seq<Token>): DataOptions
    requires AllAccepted(unquote, ts)
  {
    DataOptions(ValuesOf(MeantBy(unquote, ts), false), ValuesOf(MeantBy(unquote, ts), true))
  }

  /** The scanner sees no entry here. */
  predicate Unseen(t: Token) {
    t.Neutral? || t.Clustered?
  }

  /** The scanner and the library read the same here. */
  predicate Plainly(t: Token) {
    t.Neutral? || (!t.Clustered? && !t.ShortEquals? && !Quoted(t.value))
  }

  predicate AllUnseen(ts: seq<Token>) {
    forall t :: t in ts ==> Unseen(t)
  }

  predicate AllPlainly(ts: seq<Token>) {
    forall t :: t in ts ==> Plainly(t)
  }

  lemma {:induction false} EntriesCounted(unquote: Unquote, ts: seq<Token>)
    requires AllAccepted(unquote, ts)
    ensures |EntriesOf(ts)| <= |MeantBy(unquote, ts)|
    ensures EntriesOf(ts) == [] <==> AllUnseen(ts)
  {
    if ts != [] {
      assert ts == [ts[0]] + ts[1..];
      EntriesCounted(unquote, ts[1..]);
      assert AllUnseen(ts) <==> Unseen(ts[0]) && AllUnseen(ts[1..]);
    }
  }

  /** An equals sign is no mark, but it makes the text longer. */
  lemma EqualsSign(v: GoString)
    ensures Marks("=" + v) == Marks(v) && |"=" + v| == |v| + 1
  {
    assert multiset("=" + v) == multiset{'='} + multiset(v);
  }

  lemma EntryAgrees(unquote: Unquote, t: Token)
    requires Accepts(unquote, t) && SavesMarks(unquote)
    ensures Plainly(t) ==> EntryOf(t) == Meant(unquote, t)
    ensures !Unseen(t) ==> |EntryOf(t)| == 1 && |Meant(unquote, t)| == 1
    ensures !Plainly(t) ==> EntryOf(t) != Meant(unquote, t)
  {
    if t.ShortEquals? { EqualsSign(t.value); }
    if !t.Neutral? && !t.Clustered? && !Plainly(t) {
      assert EntryOf(t)[0].value != Meant(unquote, t)[0].value;
    }
  }

  lemma HeadAndTail<T>(a: seq<T>, x: seq<T>, b: seq<T>, y: seq<T>)
    requires |a| == |b|
    ensures a + x == b + y <==> a == b && x == y
  {
    if a + x == b + y {
      assert (a + x)[..|a|] == a && (b + y)[..|a|] == b;
      assert (a + x)[|a|..] == x && (b + y)[|a|..] == y;
    }
  }

  lemma {:induction false} ScannedAsMeantIff(unquote: Unquote, ts: seq<Token>)
    requires AllAccepted(unquote, ts) && SavesMarks(unquote)
    ensures EntriesOf(ts) == MeantBy(unquote, ts) <==> AllPlainly(ts)
  {
    if ts != [] {
      var t, rest := ts[0], ts[1..];
      assert ts == [t] + rest;
      ScannedAsMeantIff(unquote, rest);
      EntryAgrees(unquote, t);
      EntriesCounted(unquote, rest);
      if t.Clustered? {
        assert |EntriesOf(ts)| < |MeantBy(unquote, ts)|;
      } else {
        HeadAndTail(EntryOf(t), EntriesOf(rest), Meant(unquote, t), MeantBy(unquote, rest));
        assert EntryOf(t) == Meant(unquote, t) <==> Plainly(t);
      }
    }
  }

  /** The sum of a measure over the values. */
  function Total(m: GoString -> nat, entries: seq<DataEntry>): nat {
    if entries == [] then 0 else m(entries[0].value) + Total(m, entries[1..])
  }

  lemma {:induction false} TotalAppend(m: GoString -> nat, a: seq<DataEntry>, b: seq<DataEntry>)
    ensures Total(m, a + b) == Total(m, a) + Total(m, b)
  {
    if a == [] {
      assert a + b == b;
    } else {
      assert (a + b)[1..] == a[1..] + b;
      TotalAppend(m, a[1..], b);
    }
  }

  lemma {:induction false} TakeOut(m: GoString -> nat, b: seq<DataEntry>, e: DataEntry) returns (rest: seq<DataEntry>)
    requires e in b
    ensures multiset(b) == multiset(rest) + multiset{e}
    ensures Total(m, b) == m(e.value) + Total(m, rest)
  {
    assert b == [b[0]] + b[1..];
    if b[0] == e {
      rest := b[1..];
    } else {
      var tail := TakeOut(m, b[1..], e);
      rest := [b[0]] + tail;
      assert rest[1..] == tail;
    }
  }

  lemma {:induction false} SameElementsSameTotal(m: GoString -> nat, a: seq<DataEntry>, b: seq<DataEntry>)
    requires multiset(a) == multiset(b)
    ensures Total(m, a) == Total(m, b)
  {
    if a == [] {
      assert |multiset(b)| == 0;
    } else {
      assert a == [a[0]] + a[1..];
      assert a[0] in multiset(b);
      var rest := TakeOut(m, b, a[0]);
      assert multiset(a) == multiset(a[1..]) + multiset{a[0]};
      assert multiset(a[1..]) == multiset(a) - multiset{a[0]};
      assert multiset(rest) == multiset(b) - multiset{a[0]};
      SameElementsSameTotal(m, a[1..], rest);
    }
  }

  /** The measure of what the scanner reads less that of what is meant; 0 where it reads nothing. */
  function Excess(m: GoString -> nat, unquote: Unquote, t: Token): int
    requires Accepts(unquote, t)
  {
    if Unseen(t) then 0 else m(EntryOf(t)[0].value) - m(Meant(unquote, t)[0].value)
  }

  /** If the scanner sees every entry and never reads less of a measure than is meant, then equal
      totals leave no excess anywhere. */
  lemma {:induction false} NoExcess(m: GoString -> nat, unquote: Unquote, ts: seq<Token>)
    requires AllAccepted(unquote, ts)
    requires |EntriesOf(ts)| == |MeantBy(unquote, ts)|
    requires forall t :: t in ts ==> Excess(m, unquote, t) >= 0
    ensures forall t :: t in ts ==> !t.Clustered?
    ensures Total(m, EntriesOf(ts)) >= Total(m, MeantBy(unquote, ts))
    ensures Total(m, EntriesOf(ts)) == Total(m, MeantBy(unquote, ts)) ==>
      forall t :: t in ts ==> Excess(m, unquote, t) == 0
  {
    if ts != [] {
      var t, rest := ts[0], ts[1..];
      assert ts == [t] + rest;
      EntriesCounted(unquote, rest);
      NoExcess(m, unquote, rest);
      TotalAppend(m, EntryOf(t), EntriesOf(rest));
      TotalAppend(m, Meant(unquote, t), MeantBy(unquote, rest));
      assert Excess(m, unquote, t) >= 0 && !t.Clustered?;
      if !t.Neutral? {
        assert EntryOf(t)[1..] == [] && Meant(unquote, t)[1..] == [];
      }
    }
  }

  lemma MarksExcess(unquote: Unquote, t: Token)
    requires Accepts(unquote, t) && SavesMarks(unquote)
    ensures Excess(Marks, unquote, t) >= 0
    ensures Excess(Marks, unquote, t) == 0 ==> Unseen(t) || !Quoted(t.value)
  {
    if t.ShortEquals? { EqualsSign(t.value); }
  }

  function Length(s: GoString): nat {
    |s|
  }

  lemma LengthExcess(unquote: Unquote, t: Token)
    requires Accepts(unquote, t) && (Unseen(t) || !Quoted(t.value))
    ensures Excess(Length, unquote, t) >= 0
    ensures Excess(Length, unquote, t) == 0 ==> !t.ShortEquals?
  {
    if t.ShortEquals? { EqualsSign(t.value); }
  }

  /** Counting is enough: the values read are the values meant, in some order, only if every token
      is plain. Marks rule out the quoted values; then lengths rule out the equals signs. */
  lemma SameElementsArePlain(unquote: Unquote, ts: seq<Token>)
    requires AllAccepted(unquote, ts) && SavesMarks(unquote)
    requires multiset(EntriesOf(ts)) == multiset(MeantBy(unquote, ts))
    ensures AllPlainly(ts)
  {
    var scanned, meant := EntriesOf(ts), MeantBy(unquote, ts);
    assert |scanned| == |multiset(scanned)| == |multiset(meant)| == |meant|;
    forall t | t in ts ensures Excess(Marks, unquote, t) >= 0 {
      MarksExcess(unquote, t);
    }
    SameElementsSameTotal(Marks, scanned, meant);
    NoExcess(Marks, unquote, ts);
    forall t | t in ts ensures (Unseen(t) || !Quoted(t.value)) && Excess(Length, unquote, t) >= 0 {
      MarksExcess(unquote, t);
      LengthExcess(unquote, t);
    }
    SameElementsSameTotal(Length, scanned, meant);
    NoExcess(Length, unquote, ts);
    forall t | t in ts ensures Plainly(t) {
      LengthExcess(unquote, t);
    }
  }

  lemma ReportOneMore(e: DataEntry, rest: seq<DataEntry>)
    requires !e.isURLEncode && ValuesOf(rest, true) == [] && PlainEntries(ValuesOf(rest, false), false) == rest
    ensures ValuesOf([e] + rest, true) == []
    ensures PlainEntries(ValuesOf([e] + rest, false), false) == [e] + rest
  {
    assert ([e] + rest)[1..] == rest;
    assert ValuesOf([e] + rest, false) == [e.value] + ValuesOf(rest, false);
    assert PlainEntries([e.value] + ValuesOf(rest, false), false)[1..] == PlainEntries(ValuesOf(rest, false), false);
    assert [e] + rest == [e] + PlainEntries(ValuesOf(rest, false), false);
  }

  /** Clusters are all -d, so what is reported beside an empty scan has one kind. */
  lemma {:induction false} UnseenMeansData(unquote: Unquote, ts: seq<Token>)
    requires AllAccepted(unquote, ts) && AllUnseen(ts)
    ensures PlainEntries(ValuesOf(MeantBy(unquote, ts), false), false) == MeantBy(unquote, ts)
    ensures ValuesOf(MeantBy(unquote, ts), true) == []
  {
    if ts != [] {
      UnseenMeansData(unquote, ts[1..]);
      assert Unseen(ts[0]);
      var rest := MeantBy(unquote, ts[1..]);
      if ts[0].Clustered? {
        var e := Meant(unquote, ts[0])[0];
        assert MeantBy(unquote, ts) == [e] + rest;
        ReportOneMore(e, rest);
      } else {
        assert MeantBy(unquote, ts) == [] + rest == rest;
      }
    }
  }

  /** The body carries the values as the library reads them, in command-line order, if and only if
      the scanner sees no entry at all, or every entry is in one of its six spellings with a value
      that is not quoted. One entry that it sees is enough to drop the ones it does not see. Order
      apart, the same condition decides whether every value is sent. */
  lemma EntriesAsMeantIff(ts: seq<Token>, tail: seq<GoString>, unquote: Unquote)
    requires AllWellFormed(ts) && Tail(tail)
    requires AllAccepted(unquote, ts) && SavesMarks(unquote)
    ensures Entries(RenderAll(ts) + tail, Report(unquote, ts)) == MeantBy(unquote, ts)
      <==> AllUnseen(ts) || AllPlainly(ts)
    ensures multiset(Entries(RenderAll(ts) + tail, Report(unquote, ts))) == multiset(MeantBy(unquote, ts))
      <==> AllUnseen(ts) || AllPlainly(ts)
  {
    ScannerInvertsPrinter(ts, tail);
    EntriesCounted(unquote, ts);
    ScannedAsMeantIff(unquote, ts);
    if multiset(EntriesOf(ts)) == multiset(MeantBy(unquote, ts)) {
      SameElementsArePlain(unquote, ts);
    }
    if AllUnseen(ts) {
      UnseenMeansData(unquote, ts);
      assert Reported(Report(unquote, ts)) == MeantBy(unquote, ts) + [];
    }
  }

  /** Inputs on which it does not. First, -vd a -d b sends only b. */
  lemma ClusterIsMissed(unquote: Unquote)
    ensures
      var ts := [Clustered("v", "a"), ShortSpaced("b")];
      && AllWellFormed(ts) && RenderAll(ts) == ["-vd", "a", "-d", "b"]
      && AllAccepted(unquote, ts)
      && MeantBy(unquote, ts) == [DataEntry("a", false), DataEntry("b", false)]
      && Entries(["-vd", "a", "-d", "b"], Report(unquote, ts)) == [DataEntry("b", false)]
  {
    var ts := [Clustered("v", "a"), ShortSpaced("b")];
    assert "a"[0] != '"' && "b"[0] != '"' && "v"[0] == 'v' && "a"[0] == 'a';
    assert ts[1..] == [ShortSpaced("b")] && ts[1..][1..] == [];
    assert RenderAll(ts[1..]) == ["-d", "b"] && EntriesOf(ts[1..]) == [DataEntry("b", false)];
    assert "-" + "v" + "d" == "-vd";
    assert RenderAll(ts) + [] == ["-vd", "a", "-d", "b"];
    ScannerInvertsPrinter(ts, []);
    assert MeantBy(unquote, ts[1..]) == [DataEntry("b", false)];
  }

  /** Second, -d=v sends =v, for every v. */
  lemma EqualsSignIsKept(v: GoString, opts: DataOptions, unquote: Unquote)
    requires !Quoted(v)
    ensures Entries(["-d=" + v], opts) == [DataEntry("=" + v, false)]
    ensures Meant(unquote, ShortEquals(v)) == [DataEntry(v, false)] != [DataEntry("=" + v, false)]
  {
    ScanToken(ShortEquals(v), []);
    assert ["-d=" + v] + [] == ["-d=" + v];
    assert |"=" + v| == |v| + 1;
  }

  /** Third, a quoted value is sent with its quotes. */
  lemma QuotesAreKept(v: GoString, opts: DataOptions, unquote: Unquote)
    requires Quoted(v) && unquote(v).Some? && SavesMarks(unquote)
    ensures Entries(["-d", v], opts) == [DataEntry(v, false)]
    ensures Meant(unquote, ShortSpaced(v)) == [DataEntry(unquote(v).value, false)] != [DataEntry(v, false)]
  {
    ScanToken(ShortSpaced(v), []);
    assert ["-d", v] + [] == ["-d", v];
  }
}
