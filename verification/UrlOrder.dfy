/** The promise of collectURLs: URLs come in the order of the command line. The scan tells
    positional arguments from the words of other options only by counting texts; this module
    says exactly when that is good enough. */
module UrlOrder {
  import opened Seqs
  import opened GoStrings
  import opened UrlArgs

  /** The URLs a reader of the command line expects from the tokens. */
  function Expected(ts: seq<Token>): seq<GoString> {
    if ts == [] then [] else (if ts[0].Other? then [] else [TextOf(ts[0])]) + Expected(ts[1..])
  }

  function Positionals(ts: seq<Token>): multiset<GoString> {
    if ts == [] then multiset{}
    else (if ts[0].Positional? then multiset{ts[0].word} else multiset{}) + Positionals(ts[1..])
  }

  /** What the flag library leaves over: the positional arguments and all behind a terminator. */
  predicate Remaining(remaining: multiset<GoString>, ts: seq<Token>, tail: seq<GoString>) {
    remaining == Positionals(ts) + multiset(BehindTerminator(tail))
  }

  /** No word of another option has the text of a positional argument behind it, or of an
      argument behind the terminator. */
  predicate NoEarlyTwin(ts: seq<Token>, tail: seq<GoString>) {
    forall i :: 0 <= i < |ts| && ts[i].Other? ==>
      ts[i].word !in BehindTerminator(tail) && forall j :: i < j < |ts| ==> ts[j] != Positional(ts[i].word)
  }

  /** The scan picks the positional arguments themselves, not their namesakes. */
  predicate PicksPositionals(ts: seq<Token>, rem: multiset<GoString>) {
    forall i :: 0 <= i < |ts| ==> (Picked(ts, i, rem) <==> !ts[i].Other?)
  }

  lemma {:induction false} PositionalsAppend(a: seq<Token>, b: seq<Token>)
    ensures Positionals(a + b) == Positionals(a) + Positionals(b)
  {
    if a == [] {
      assert a + b == b;
    } else {
      assert (a + b)[1..] == a[1..] + b;
      PositionalsAppend(a[1..], b);
    }
  }

  lemma PositionalsAt(ts: seq<Token>, i: nat, s: GoString)
    requires i < |ts|
    ensures Positionals(ts)[s] ==
      Positionals(ts[..i])[s] + (if ts[i] == Positional(s) then 1 else 0) + Positionals(ts[i + 1..])[s]
  {
    assert ts == ts[..i] + ts[i..];
    PositionalsAppend(ts[..i], ts[i..]);
    assert ts[i..][0] == ts[i] && ts[i..][1..] == ts[i + 1..];
  }

  lemma PositionalsUpTo(ts: seq<Token>, k: nat, s: GoString)
    requires k < |ts|
    ensures Positionals(ts[..k + 1])[s] == Positionals(ts[..k])[s] + if ts[k] == Positional(s) then 1 else 0
  {
    assert ts[..k + 1][..k] == ts[..k] && ts[..k + 1][k + 1..] == [];
    PositionalsAt(ts[..k + 1], k, s);
  }

  lemma {:induction false} PositionalsPresent(ts: seq<Token>, s: GoString)
    ensures Positionals(ts)[s] == 0 <==> Positional(s) !in ts
  {
    if ts != [] {
      PositionalsPresent(ts[1..], s);
      assert ts == [ts[0]] + ts[1..];
    }
  }

  /** Every positional argument is a word; there are no other words exactly when no other
      option has one. */
  lemma {:induction false} WordsSplit(ts: seq<Token>, k: nat, s: GoString)
    requires k <= |ts|
    ensures Words(ts, k, s) >= Positionals(ts[..k])[s]
    ensures Words(ts, k, s) == Positionals(ts[..k])[s] <==> Other(s) !in ts[..k]
  {
    if k > 0 {
      WordsSplit(ts, k - 1, s);
      PositionalsUpTo(ts, k - 1, s);
      assert ts[..k] == ts[..k - 1] + [ts[k - 1]];
    }
  }

  lemma NoTwinPicks(ts: seq<Token>, tail: seq<GoString>, rem: multiset<GoString>, i: nat)
    requires Remaining(rem, ts, tail) && NoEarlyTwin(ts, tail) && i < |ts|
    ensures Picked(ts, i, rem) <==> !ts[i].Other?
  {
    if ts[i].Positional? || ts[i].Other? {
      var s := ts[i].word;
      WordsSplit(ts, i, s);
      PositionalsAt(ts, i, s);
      if ts[i].Other? {
        PositionalsPresent(ts[i + 1..], s);
        assert Positional(s) !in ts[i + 1..];
      } else {
        assert forall k :: 0 <= k < i && ts[k].Other? ==> ts[i] != Positional(ts[k].word);
        assert Other(s) !in ts[..i];
      }
    }
  }

  /** If the picks are right, the first Other with a text comes behind all of its positionals,
      and therefore so does every Other. */
  lemma {:induction false} FirstOtherIsLast(ts: seq<Token>, tail: seq<GoString>, rem: multiset<GoString>, i: nat)
    requires Remaining(rem, ts, tail) && PicksPositionals(ts, rem) && i < |ts| && ts[i].Other?
    ensures ts[i].word !in BehindTerminator(tail)
    ensures forall j :: i < j < |ts| ==> ts[j] != Positional(ts[i].word)
    decreases i
  {
    var s := ts[i].word;
    if Other(s) in ts[..i] {
      var k :| 0 <= k < i && ts[k] == Other(s);
      FirstOtherIsLast(ts, tail, rem, k);
    } else {
      assert !Picked(ts, i, rem);
      WordsSplit(ts, i, s);
      PositionalsAt(ts, i, s);
      PositionalsPresent(ts[i + 1..], s);
      assert multiset(BehindTerminator(tail))[s] == 0;
      forall j | i < j < |ts| ensures ts[j] != Positional(s) {
        assert ts[j] == ts[i + 1..][j - i - 1];
      }
    }
  }

  /** Telling positional arguments from their namesakes only by counting works exactly when no
      namesake comes early. */
  lemma PicksPositionalsIff(ts: seq<Token>, tail: seq<GoString>, rem: multiset<GoString>)
    requires Remaining(rem, ts, tail)
    ensures PicksPositionals(ts, rem) <==> NoEarlyTwin(ts, tail)
  {
    if NoEarlyTwin(ts, tail) {
      forall i | 0 <= i < |ts| ensures Picked(ts, i, rem) <==> !ts[i].Other? {
        NoTwinPicks(ts, tail, rem, i);
      }
    }
    if PicksPositionals(ts, rem) {
      forall i | 0 <= i < |ts| && ts[i].Other?
        ensures ts[i].word !in BehindTerminator(tail)
        ensures forall j :: i < j < |ts| ==> ts[j] != Positional(ts[i].word)
      {
        FirstOtherIsLast(ts, tail, rem, i);
      }
    }
  }

  // ----- lists with the same elements -----

  function Count(xs: seq<GoString>, s: GoString): nat {
    multiset(xs)[s]
  }

  /** In xs a copy of ys[b] takes its place among the first k, before the copy of ys[a] that
      belongs in front of it. */
  predicate Inverted(xs: seq<GoString>, ys: seq<GoString>, a: nat, b: nat, k: nat)
    requires a < b < |ys| && k <= |xs|
  {
    && ys[a] != ys[b]
    && Count(xs[..k], ys[b]) > Count(ys[..b], ys[b])
    && Count(xs[..k], ys[a]) <= Count(ys[..a], ys[a])
  }

  lemma CountPrefix(ys: seq<GoString>, a: nat, b: nat, s: GoString)
    requires a <= b <= |ys|
    ensures Count(ys[..a], s) <= Count(ys[..b], s)
  {
    assert ys[..b] == ys[..a] + ys[a..b];
  }

  lemma CountOneMore(xs: seq<GoString>, x: GoString, s: GoString)
    ensures Count(xs + [x], s) == Count(xs, s) + if x == s then 1 else 0
  {
    assert multiset(xs + [x]) == multiset(xs) + multiset{x};
  }

  lemma CountSnoc(ys: seq<GoString>, a: nat, s: GoString)
    requires a < |ys|
    ensures Count(ys[..a + 1], s) == Count(ys[..a], s) + if ys[a] == s then 1 else 0
  {
    CountOneMore(ys[..a], ys[a], s);
    assert ys[..a + 1] == ys[..a] + [ys[a]];
  }

  /** The copy of s that comes behind n others. */
  lemma {:induction false} NthCopy(ys: seq<GoString>, s: GoString, n: nat) returns (b: nat)
    requires n < Count(ys, s)
    ensures b < |ys| && ys[b] == s && Count(ys[..b], s) == n
    decreases |ys|
  {
    var last := |ys| - 1;
    assert ys[..|ys|] == ys;
    CountSnoc(ys, last, s);
    if ys[last] == s && Count(ys[..last], s) == n {
      b := last;
    } else {
      b := NthCopy(ys[..last], s, n);
      assert ys[..last][..b] == ys[..b];
    }
  }

  lemma EqualNotInverted(ys: seq<GoString>, a: nat, b: nat, k: nat)
    requires a < b < |ys| && k <= |ys|
    ensures !Inverted(ys, ys, a, b, k)
  {
    if k <= b {
      CountPrefix(ys, k, b, ys[b]);
    } else {
      CountSnoc(ys, a, ys[a]);
      CountPrefix(ys, a + 1, k, ys[a]);
    }
  }

  lemma {:induction false} FirstDifference(xs: seq<GoString>, ys: seq<GoString>, from: nat) returns (k: nat)
    requires |xs| == |ys| && from <= |xs| && xs[..from] == ys[..from] && xs != ys
    ensures k < |xs| && xs[..k] == ys[..k] && xs[k] != ys[k]
    decreases |xs| - from
  {
    assert xs[..|xs|] == xs && ys[..|ys|] == ys;
    if xs[from] != ys[from] {
      k := from;
    } else {
      assert xs[..from + 1] == xs[..from] + [xs[from]];
      assert ys[..from + 1] == ys[..from] + [ys[from]];
      k := FirstDifference(xs, ys, from + 1);
    }
  }

  /** Two different lists with the same elements differ by an inversion. */
  lemma DifferentIsInverted(xs: seq<GoString>, ys: seq<GoString>) returns (a: nat, b: nat, k: nat)
    requires multiset(xs) == multiset(ys) && xs != ys
    ensures a < b < |ys| && k <= |xs| && Inverted(xs, ys, a, b, k)
  {
    assert |xs| == |multiset(xs)| == |multiset(ys)| == |ys|;
    a := FirstDifference(xs, ys, 0);
    k := a + 1;
    var t := xs[a];
    CountSnoc(xs, a, t);
    CountSnoc(xs, a, ys[a]);
    assert xs[..|xs|] == xs && ys[..|ys|] == ys;
    CountPrefix(xs, k, |xs|, t);
    b := NthCopy(ys, t, Count(ys[..a], t));
    if b < a {
      CountSnoc(ys, b, t);
      CountPrefix(ys, b + 1, a, t);
    }
  }

  // ----- texts of chosen tokens -----

  /** The texts of the chosen ones among the first c tokens. */
  function Texts(ts: seq<Token>, chosen: seq<bool>, c: nat): seq<GoString>
    requires c <= |ts| == |chosen|
  {
    if c == 0 then []
    else
      var before := Texts(ts, chosen, c - 1);
      if chosen[c - 1] then before + [TextOf(ts[c - 1])] else before
  }

  lemma {:induction false} TextsPrefix(ts: seq<Token>, chosen: seq<bool>, c: nat, d: nat)
    requires c <= d <= |ts| == |chosen|
    ensures |Texts(ts, chosen, c)| <= |Texts(ts, chosen, d)|
    ensures Texts(ts, chosen, c) == Texts(ts, chosen, d)[..|Texts(ts, chosen, c)|]
    decreases d
  {
    if c < d {
      TextsPrefix(ts, chosen, c, d - 1);
    }
  }

  /** A chosen token is an element of the list, at the place that the tokens before it leave. */
  lemma ChosenIsElement(ts: seq<Token>, chosen: seq<bool>, i: nat)
    requires i < |ts| == |chosen| && chosen[i]
    ensures |Texts(ts, chosen, i)| < |Texts(ts, chosen, |ts|)|
    ensures Texts(ts, chosen, |ts|)[|Texts(ts, chosen, i)|] == TextOf(ts[i])
    ensures Texts(ts, chosen, |ts|)[..|Texts(ts, chosen, i)|] == Texts(ts, chosen, i)
  {
    TextsPrefix(ts, chosen, i, |ts|);
    TextsPrefix(ts, chosen, i + 1, |ts|);
    assert Texts(ts, chosen, i + 1)[|Texts(ts, chosen, i)|] == TextOf(ts[i]);
  }

  /** Every element of the list is that of a chosen token. */
  lemma {:induction false} ElementIsChosen(ts: seq<Token>, chosen: seq<bool>, d: nat, a: nat) returns (i: nat)
    requires d <= |ts| == |chosen| && a < |Texts(ts, chosen, d)|
    ensures i < d && chosen[i] && |Texts(ts, chosen, i)| == a
    decreases d
  {
    if a < |Texts(ts, chosen, d - 1)| {
      i := ElementIsChosen(ts, chosen, d - 1, a);
    } else {
      i := d - 1;
    }
  }

  /** Every prefix of the list is what some first tokens give. */
  lemma PrefixIsCut(ts: seq<Token>, chosen: seq<bool>, k: nat) returns (c: nat)
    requires |ts| == |chosen| && k <= |Texts(ts, chosen, |ts|)|
    ensures c <= |ts| && Texts(ts, chosen, |ts|)[..k] == Texts(ts, chosen, c)
  {
    if k < |Texts(ts, chosen, |ts|)| {
      c := ElementIsChosen(ts, chosen, |ts|, k);
      TextsPrefix(ts, chosen, c, |ts|);
    } else {
      c := |ts|;
    }
  }

  // ----- the exact condition -----

  /** The tokens that a scan with these counts picks. */
  function PickFlags(ts: seq<Token>, rem: multiset<GoString>): seq<bool> {
    seq(|ts|, i requires 0 <= i < |ts| => Picked(ts, i, rem))
  }

  /** The tokens that a reader of the command line expects. */
  function Wanted(ts: seq<Token>): seq<bool> {
    seq(|ts|, i requires 0 <= i < |ts| => !ts[i].Other?)
  }

  /** What the scan has taken when it reaches token c: every URL, and each word as often as it is
      positional on the whole command line. */
  function Taken(ts: seq<Token>, c: nat): seq<GoString>
    requires c <= |ts|
  {
    Texts(ts, PickFlags(ts, Positionals(ts)), c)
  }

  /** What a reader expects from the tokens before token c. */
  function WantedBefore(ts: seq<Token>, c: nat): seq<GoString>
    requires c <= |ts|
  {
    Texts(ts, Wanted(ts), c)
  }

  predicate IsUrl(t: Token, s: GoString) {
    (t.UrlSpaced? || t.UrlJoined?) && t.url == s
  }

  /** The URLs with text s among the first c tokens. */
  function UrlsBefore(ts: seq<Token>, c: nat, s: GoString): nat
    requires c <= |ts|
  {
    if c == 0 then 0
    else UrlsBefore(ts, c - 1, s) + if IsUrl(ts[c - 1], s) then 1 else 0
  }

  /** How often s has been taken when the scan reaches token c: every URL, and a word as often as
      it occurred, but no more than it is positional on the whole command line. */
  function TakenBefore(ts: seq<Token>, c: nat, s: GoString): nat
    requires c <= |ts|
  {
    UrlsBefore(ts, c, s) + AtMost(Positionals(ts)[s], Words(ts, c, s))
  }

  /** How often a reader expects s from the tokens before token c. */
  function AskedBefore(ts: seq<Token>, c: nat, s: GoString): nat
    requires c <= |ts|
  {
    UrlsBefore(ts, c, s) + Positionals(ts[..c])[s]
  }

  /** Token j overtakes token i: at token c a namesake has already been taken in place of j, but
      nothing yet in place of i, which is written before j and has another text. All of it is
      counting words and URLs on the command line. */
  predicate Overtakes(ts: seq<Token>, i: nat, j: nat, c: nat)
    requires i < j < |ts| && c <= |ts|
  {
    && !ts[i].Other? && !ts[j].Other? && TextOf(ts[i]) != TextOf(ts[j])
    && TakenBefore(ts, c, TextOf(ts[j])) > AskedBefore(ts, j, TextOf(ts[j]))
    && TakenBefore(ts, c, TextOf(ts[i])) <= AskedBefore(ts, i, TextOf(ts[i]))
  }

  predicate NoOvertaking(ts: seq<Token>) {
    forall i, j, c :: 0 <= i < j < |ts| && 0 <= c <= |ts| ==> !Overtakes(ts, i, j, c)
  }

  /** No word of another option has the text of an argument behind the terminator. */
  predicate NoTwinBehind(ts: seq<Token>, tail: seq<GoString>) {
    forall i :: 0 <= i < |ts| && ts[i].Other? ==> ts[i].word !in BehindTerminator(tail)
  }

  lemma WantedKinds(t: Token, s: GoString)
    ensures !t.Other? && TextOf(t) == s <==> IsUrl(t, s) || t == Positional(s)
    ensures !(IsUrl(t, s) && t == Positional(s))
  {
  }

  /** The chosen tokens with text s among the first c. */
  function ChosenBefore(ts: seq<Token>, chosen: seq<bool>, c: nat, s: GoString): nat
    requires c <= |ts| == |chosen|
  {
    if c == 0 then 0
    else ChosenBefore(ts, chosen, c - 1, s) + if chosen[c - 1] && TextOf(ts[c - 1]) == s then 1 else 0
  }

  lemma {:induction false} CountTexts(ts: seq<Token>, chosen: seq<bool>, c: nat, s: GoString)
    requires c <= |ts| == |chosen|
    ensures Count(Texts(ts, chosen, c), s) == ChosenBefore(ts, chosen, c, s)
  {
    if c > 0 {
      var before, text := Texts(ts, chosen, c - 1), TextOf(ts[c - 1]);
      CountTexts(ts, chosen, c - 1, s);
      CountOneMore(before, text, s);
    }
  }

  lemma PickedOrNot(ts: seq<Token>, k: nat, rem: multiset<GoString>, s: GoString)
    requires k < |ts|
    ensures TextOf(ts[k]) == s <==> IsUrl(ts[k], s) || IsWord(ts[k], s)
    ensures IsUrl(ts[k], s) ==> Picked(ts, k, rem) && !IsWord(ts[k], s)
    ensures IsWord(ts[k], s) ==> (Picked(ts, k, rem) <==> Words(ts, k, s) < rem[s])
  {
  }

  lemma {:induction false} CountPicked(ts: seq<Token>, c: nat, rem: multiset<GoString>, s: GoString)
    requires c <= |ts|
    ensures ChosenBefore(ts, PickFlags(ts, rem), c, s) == UrlsBefore(ts, c, s) + AtMost(rem[s], Words(ts, c, s))
  {
    if c > 0 {
      CountPicked(ts, c - 1, rem, s);
      PickedOrNot(ts, c - 1, rem, s);
    }
  }

  lemma {:induction false} CountWanted(ts: seq<Token>, c: nat, s: GoString)
    requires c <= |ts|
    ensures ChosenBefore(ts, Wanted(ts), c, s) == UrlsBefore(ts, c, s) + Positionals(ts[..c])[s]
  {
    if c > 0 {
      CountWanted(ts, c - 1, s);
      PositionalsUpTo(ts, c - 1, s);
      WantedKinds(ts[c - 1], s);
      assert Wanted(ts)[c - 1] <==> !ts[c - 1].Other?;
    }
  }

  lemma CountOfPicked(ts: seq<Token>, c: nat, rem: multiset<GoString>, s: GoString)
    requires c <= |ts|
    ensures Count(Texts(ts, PickFlags(ts, rem), c), s) == UrlsBefore(ts, c, s) + AtMost(rem[s], Words(ts, c, s))
  {
    CountTexts(ts, PickFlags(ts, rem), c, s);
    CountPicked(ts, c, rem, s);
  }

  lemma CountOfWanted(ts: seq<Token>, c: nat, s: GoString)
    requires c <= |ts|
    ensures Count(WantedBefore(ts, c), s) == AskedBefore(ts, c, s)
  {
    CountTexts(ts, Wanted(ts), c, s);
    CountWanted(ts, c, s);
  }

  /** The condition speaks of what the scan takes, without running it. */
  lemma OvertakesCounted(ts: seq<Token>, i: nat, j: nat, c: nat)
    requires i < j < |ts| && c <= |ts|
    ensures Overtakes(ts, i, j, c) <==>
      && !ts[i].Other? && !ts[j].Other? && TextOf(ts[i]) != TextOf(ts[j])
      && Count(Taken(ts, c), TextOf(ts[j])) > Count(WantedBefore(ts, j), TextOf(ts[j]))
      && Count(Taken(ts, c), TextOf(ts[i])) <= Count(WantedBefore(ts, i), TextOf(ts[i]))
  {
    CountOfPicked(ts, c, Positionals(ts), TextOf(ts[i]));
    CountOfPicked(ts, c, Positionals(ts), TextOf(ts[j]));
    CountOfWanted(ts, i, TextOf(ts[i]));
    CountOfWanted(ts, j, TextOf(ts[j]));
  }

  lemma TakenHasWanted(ts: seq<Token>)
    ensures multiset(Taken(ts, |ts|)) == multiset(WantedBefore(ts, |ts|))
  {
    assert ts[..|ts|] == ts;
    forall s: GoString ensures multiset(Taken(ts, |ts|))[s] == multiset(WantedBefore(ts, |ts|))[s] {
      CountOfPicked(ts, |ts|, Positionals(ts), s);
      CountOfWanted(ts, |ts|, s);
      WordsSplit(ts, |ts|, s);
    }
  }

  /** The place in the wanted list of a token that is wanted. */
  lemma WantedPlace(ts: seq<Token>, i: nat)
    requires i < |ts| && !ts[i].Other?
    ensures |WantedBefore(ts, i)| < |WantedBefore(ts, |ts|)|
    ensures WantedBefore(ts, |ts|)[|WantedBefore(ts, i)|] == TextOf(ts[i])
    ensures WantedBefore(ts, |ts|)[..|WantedBefore(ts, i)|] == WantedBefore(ts, i)
  {
    ChosenIsElement(ts, Wanted(ts), i);
  }

  lemma WantedPlacesOrdered(ts: seq<Token>, i: nat, j: nat)
    requires i < j < |ts| && !ts[i].Other?
    ensures |WantedBefore(ts, i)| < |WantedBefore(ts, j)|
  {
    TextsPrefix(ts, Wanted(ts), i + 1, j);
  }

  lemma TakenPlace(ts: seq<Token>, c: nat)
    requires c <= |ts|
    ensures |Taken(ts, c)| <= |Taken(ts, |ts|)| && Taken(ts, |ts|)[..|Taken(ts, c)|] == Taken(ts, c)
  {
    TextsPrefix(ts, PickFlags(ts, Positionals(ts)), c, |ts|);
  }

  lemma OvertakingIsInversion(ts: seq<Token>, i: nat, j: nat, c: nat)
    requires i < j < |ts| && c <= |ts| && Overtakes(ts, i, j, c)
    ensures Taken(ts, |ts|) != WantedBefore(ts, |ts|)
  {
    var xs, ys := Taken(ts, |ts|), WantedBefore(ts, |ts|);
    var a, b, k := |WantedBefore(ts, i)|, |WantedBefore(ts, j)|, |Taken(ts, c)|;
    WantedPlace(ts, i);
    WantedPlace(ts, j);
    WantedPlacesOrdered(ts, i, j);
    TakenPlace(ts, c);
    OvertakesCounted(ts, i, j, c);
    assert Inverted(xs, ys, a, b, k);
    if xs == ys { EqualNotInverted(ys, a, b, k); }
  }

  lemma InversionIsOvertaking(ts: seq<Token>, a: nat, b: nat, k: nat) returns (i: nat, j: nat, c: nat)
    requires a < b < |WantedBefore(ts, |ts|)| && k <= |Taken(ts, |ts|)|
    requires Inverted(Taken(ts, |ts|), WantedBefore(ts, |ts|), a, b, k)
    ensures i < j < |ts| && c <= |ts| && Overtakes(ts, i, j, c)
  {
    i := ElementIsChosen(ts, Wanted(ts), |ts|, a);
    j := ElementIsChosen(ts, Wanted(ts), |ts|, b);
    c := PrefixIsCut(ts, PickFlags(ts, Positionals(ts)), k);
    ChosenIsElement(ts, Wanted(ts), i);
    ChosenIsElement(ts, Wanted(ts), j);
    if j <= i { TextsPrefix(ts, Wanted(ts), j, i); }
    OvertakesCounted(ts, i, j, c);
  }

  /** Nothing overtakes exactly when what is taken is what is wanted, in order. */
  lemma InOrderIff(ts: seq<Token>)
    ensures NoOvertaking(ts) <==> Taken(ts, |ts|) == WantedBefore(ts, |ts|)
  {
    if Taken(ts, |ts|) == WantedBefore(ts, |ts|) {
      forall i, j, c | 0 <= i < j < |ts| && 0 <= c <= |ts| ensures !Overtakes(ts, i, j, c) {
        if Overtakes(ts, i, j, c) { OvertakingIsInversion(ts, i, j, c); }
      }
    } else {
      TakenHasWanted(ts);
      var a, b, k := DifferentIsInverted(Taken(ts, |ts|), WantedBefore(ts, |ts|));
      var i, j, c := InversionIsOvertaking(ts, a, b, k);
    }
  }

  // ----- the promise -----

  lemma {:induction false} PickedAreTexts(ts: seq<Token>, k: nat, rem: multiset<GoString>)
    requires k <= |ts|
    ensures Texts(ts, PickFlags(ts, rem), k) + PickedFrom(ts, k, rem) == Texts(ts, PickFlags(ts, rem), |ts|)
    decreases |ts| - k
  {
    if k < |ts| {
      PickedAreTexts(ts, k + 1, rem);
      var found := if Picked(ts, k, rem) then [TextOf(ts[k])] else [];
      Assoc(Texts(ts, PickFlags(ts, rem), k), found, PickedFrom(ts, k + 1, rem));
    }
  }

  lemma {:induction false} ExpectedAreTexts(ts: seq<Token>, k: nat)
    requires k <= |ts|
    ensures Texts(ts, Wanted(ts), k) + Expected(ts[k..]) == Texts(ts, Wanted(ts), |ts|)
    decreases |ts| - k
  {
    if k < |ts| {
      ExpectedAreTexts(ts, k + 1);
      assert ts[k..][0] == ts[k] && ts[k..][1..] == ts[k + 1..];
      Assoc(Texts(ts, Wanted(ts), k), if ts[k].Other? then [] else [TextOf(ts[k])], Expected(ts[k + 1..]));
    }
  }

  /** Without a twin behind the terminator, the arguments there do not matter to the picks. */
  lemma PicksWithoutTail(ts: seq<Token>, tail: seq<GoString>, rem: multiset<GoString>)
    requires Remaining(rem, ts, tail) && NoTwinBehind(ts, tail)
    ensures PickFlags(ts, rem) == PickFlags(ts, Positionals(ts))
  {
    forall i | 0 <= i < |ts| ensures Picked(ts, i, rem) <==> Picked(ts, i, Positionals(ts)) {
      if ts[i].Positional? || ts[i].Other? {
        var s := ts[i].word;
        if s in BehindTerminator(tail) {
          assert Other(s) !in ts by {
            assert forall k :: 0 <= k < |ts| && ts[k].Other? ==> ts[k].word != s;
          }
          WordsSplit(ts, |ts|, s);
          WordsSplit(ts, i, s);
          PositionalsAt(ts, i, s);
          assert Other(s) !in ts[..i];
        } else {
          assert multiset(BehindTerminator(tail))[s] == 0;
        }
      }
    }
  }

  /** With one, the scan picks more than was asked for. */
  lemma TwinBehindAddsOne(ts: seq<Token>, tail: seq<GoString>, rem: multiset<GoString>)
    requires Remaining(rem, ts, tail) && !NoTwinBehind(ts, tail)
    ensures Texts(ts, PickFlags(ts, rem), |ts|) != Texts(ts, Wanted(ts), |ts|)
  {
    var i :| 0 <= i < |ts| && ts[i].Other? && ts[i].word in BehindTerminator(tail);
    var s := ts[i].word;
    assert ts[..|ts|] == ts && Other(s) in ts;
    WordsSplit(ts, |ts|, s);
    assert rem[s] > Positionals(ts)[s] by { assert multiset(BehindTerminator(tail))[s] >= 1; }
    CountOfPicked(ts, |ts|, rem, s);
    CountOfWanted(ts, |ts|, s);
  }

  lemma SameBehind<T>(xs: seq<T>, ys: seq<T>, zs: seq<T>)
    ensures xs + zs == ys + zs <==> xs == ys
  {
    if xs + zs == ys + zs {
      assert |xs| == |ys|;
      assert (xs + zs)[..|xs|] == xs && (ys + zs)[..|ys|] == ys;
    }
  }

  lemma ScanInOrderIff(ts: seq<Token>, tail: seq<GoString>, rem: multiset<GoString>)
    requires WellFormed(ts) && Tail(tail) && Remaining(rem, ts, tail)
    ensures Scan(Render(ts) + tail, rem).0 == Expected(ts) + BehindTerminator(tail)
      <==> NoTwinBehind(ts, tail) && NoOvertaking(ts)
    ensures Scan(Render(ts) + tail, rem).1 <==> tail != [] && tail[0] == "--"
  {
    ScanPicksEarliest(ts, tail, rem);
    assert ts[0..] == ts;
    PickedAreTexts(ts, 0, rem);
    ExpectedAreTexts(ts, 0);
    var xs, ys := PickedFrom(ts, 0, rem), Expected(ts);
    assert xs == Texts(ts, PickFlags(ts, rem), |ts|) && ys == Texts(ts, Wanted(ts), |ts|);
    SameBehind(xs, ys, BehindTerminator(tail));
    if NoTwinBehind(ts, tail) {
      PicksWithoutTail(ts, tail, rem);
      InOrderIff(ts);
    } else {
      TwinBehindAddsOne(ts, tail, rem);
    }
  }

  lemma ScanFindsSomething(ts: seq<Token>, tail: seq<GoString>, rem: multiset<GoString>)
    requires WellFormed(ts) && Tail(tail) && Remaining(rem, ts, tail) && BehindTerminator(tail) == []
    ensures Scan(Render(ts) + tail, rem).0 == [] <==> Expected(ts) == []
  {
    ScanPicksEarliest(ts, tail, rem);
    assert ts[0..] == ts;
    PickedAreTexts(ts, 0, rem);
    ExpectedAreTexts(ts, 0);
    PicksWithoutTail(ts, tail, rem);
    TakenHasWanted(ts);
    assert |multiset(Taken(ts, |ts|))| == |Taken(ts, |ts|)|;
    assert |multiset(WantedBefore(ts, |ts|))| == |WantedBefore(ts, |ts|)|;
    assert PickedFrom(ts, 0, rem) == Taken(ts, |ts|) && Expected(ts) == WantedBefore(ts, |ts|);
  }

  /** Command-line order, exactly. The URL values and positional arguments come in the order
      written, then verbatim all behind the terminator, if and only if no word of another option
      has the text of an argument behind the terminator and nothing overtakes. Where nothing was
      asked for before a terminator that is not there, the flag library's lists are used. */
  lemma OrderPreserved(ts: seq<Token>, tail: seq<GoString>, remaining: seq<GoString>, urlFlags: seq<GoString>)
    requires WellFormed(ts) && Tail(tail) && Remaining(multiset(remaining), ts, tail)
    ensures Expected(ts) != [] || (tail != [] && tail[0] == "--") ==>
      (Collect(Render(ts) + tail, urlFlags, remaining) == Expected(ts) + BehindTerminator(tail)
       <==> NoTwinBehind(ts, tail) && NoOvertaking(ts))
    ensures Expected(ts) == [] && (tail == [] || tail[0] != "--") ==>
      Collect(Render(ts) + tail, urlFlags, remaining) == urlFlags + remaining
  {
    ScanInOrderIff(ts, tail, multiset(remaining));
    if BehindTerminator(tail) == [] {
      ScanFindsSomething(ts, tail, multiset(remaining));
    }
  }

  /** It is enough that no namesake comes early. */
  lemma NoEarlyTwinSuffices(ts: seq<Token>, tail: seq<GoString>)
    requires NoEarlyTwin(ts, tail)
    ensures NoTwinBehind(ts, tail) && NoOvertaking(ts)
  {
    var rem := Positionals(ts) + multiset(BehindTerminator(tail));
    PicksPositionalsIff(ts, tail, rem);
    PicksWithoutTail(ts, tail, rem);
    assert PickFlags(ts, rem) == Wanted(ts);
    InOrderIff(ts);
  }

  /** gocurl -o u --url v u, as the loop cuts it. */
  const TWINS := [Other("-o"), Other("u"), UrlSpaced("v"), Positional("u")]

  lemma TwinsCut()
    ensures TWINS[1..] == [Other("u"), UrlSpaced("v"), Positional("u")]
    ensures TWINS[2..] == [UrlSpaced("v"), Positional("u")]
    ensures TWINS[3..] == [Positional("u")]
  {
  }

  lemma TwinsExpected()
    ensures WellFormed(TWINS) && !NoEarlyTwin(TWINS, [])
    ensures Expected(TWINS) == ["v", "u"]
    ensures Positionals(TWINS) == multiset{"u"}
  {
    TwinsCut();
    assert TWINS[1].Other? && TWINS[3] == Positional(TWINS[1].word);
    assert TWINS[3..][1..] == [] && TWINS[2..][1..] == TWINS[3..] && TWINS[1..][1..] == TWINS[2..];
    assert Positionals(TWINS[3..]) == multiset{"u"} + Positionals([]);
    assert Expected(TWINS[3..]) == ["u"] + [] && Positionals(TWINS[3..]) == multiset{"u"};
    assert Expected(TWINS[2..]) == ["v", "u"] && Positionals(TWINS[2..]) == multiset{"u"};
    assert Expected(TWINS[1..]) == ["v", "u"] && Positionals(TWINS[1..]) == multiset{"u"};
  }

  lemma TwinsScanned()
    ensures Scan(Render(TWINS), multiset{"u"}) == (["u", "v"], false)
  {
    TwinsCut();
    assert TWINS[3..][1..] == [] && TWINS[2..][1..] == TWINS[3..] && TWINS[1..][1..] == TWINS[2..];
    ScanToken(TWINS[0], Render(TWINS[1..]), multiset{"u"});
    ScanToken(TWINS[1], Render(TWINS[2..]), multiset{"u"});
    ScanToken(TWINS[2], Render(TWINS[3..]), multiset{});
    ScanToken(TWINS[3], Render([]), multiset{});
    assert multiset{"u"} - multiset{"u"} == multiset{};
    assert Render(TWINS[3..]) == RenderToken(TWINS[3]) + Render([]);
    assert Scan(Render(TWINS[3..]), multiset{}) == ([], false);
    assert Render(TWINS[2..]) == RenderToken(TWINS[2]) + Render(TWINS[3..]);
    assert ["v"] + Scan(Render(TWINS[3..]), multiset{}).0 == ["v"];
    assert Scan(Render(TWINS[2..]), multiset{}) == (["v"], false);
    assert Render(TWINS[1..]) == RenderToken(TWINS[1]) + Render(TWINS[2..]);
    assert ["u"] + Scan(Render(TWINS[2..]), multiset{}).0 == ["u", "v"];
  }

  /** A namesake does break the promise: the value u of another option is taken for the
      positional u behind it, and the two URLs change places. */
  lemma OrderCanChange()
    ensures WellFormed(TWINS) && Remaining(multiset(["u"]), TWINS, []) && !NoEarlyTwin(TWINS, [])
    ensures Expected(TWINS) == ["v", "u"]
    ensures Collect(Render(TWINS), ["v"], ["u"]) == ["u", "v"]
    ensures !NoOvertaking(TWINS)
  {
    TwinsExpected();
    TwinsScanned();
    assert multiset(["u"]) == multiset{"u"};
    assert Render(TWINS) + [] == Render(TWINS);
    OrderPreserved(TWINS, [], ["u"], ["v"]);
    assert ["u", "v"][0] != ["v", "u"][0] by { assert "u"[0] != "v"[0]; }
  }

  /** An early namesake alone does no harm: in gocurl -o u u it is taken for the positional
      argument, but the list is the same. */
  lemma EarlyTwinCanBeHarmless(remaining: seq<GoString>, urlFlags: seq<GoString>)
    requires Remaining(multiset(remaining), [Other("-o"), Other("u"), Positional("u")], [])
    ensures
      var ts := [Other("-o"), Other("u"), Positional("u")];
      && !NoEarlyTwin(ts, [])
      && Collect(Render(ts), urlFlags, remaining) == Expected(ts)
  {
    var ts := [Other("-o"), Other("u"), Positional("u")];
    assert ts[1].Other? && ts[2] == Positional(ts[1].word);
    assert Expected(ts[1..][1..]) != [];
    assert Render(ts) + [] == Render(ts) && Expected(ts) + [] == Expected(ts);
    OrderPreserved(ts, [], remaining, urlFlags);
  }

  function TwinBehind(u: GoString): seq<Token> {
    [Other("-o"), Other(u)]
  }

  lemma TwinBehindScanned(u: GoString)
    requires Eligible(u) && u != "-o"
    ensures Scan(Render(TwinBehind(u)) + ["--", u], multiset([u])) == ([u, u], true)
  {
    var ts, tail, rem := TwinBehind(u), ["--", u], multiset([u]);
    assert ts[1..] == [Other(u)] && ts[1..][1..] == [];
    ScanToken(ts[0], [u] + tail, rem);
    ScanToken(ts[1], tail, rem);
    assert tail[1..] == [u];
    assert Scan(tail, rem - multiset{u}) == ([u], true);
    assert [u] + [u] == [u, u];
    assert Render(ts[1..]) == [u] && Render(ts) + tail == ["-o"] + ([u] + tail);
  }

  lemma TwinBehindExpected(u: GoString)
    ensures Expected(TwinBehind(u)) == [] && Positionals(TwinBehind(u)) == multiset{}
  {
    var ts := TwinBehind(u);
    var rest := ts[1..];
    assert rest == [Other(u)] && rest[1..] == [];
    assert Expected(rest) == [] + Expected(rest[1..]) && Expected(ts) == [] + Expected(rest);
    assert Positionals(rest) == multiset{} + Positionals(rest[1..]);
  }

  /** A namesake in front of a terminator is requested in addition: gocurl -o u -- u. */
  lemma TwinBehindIsAdded(u: GoString)
    requires Eligible(u) && u != "-o"
    ensures Remaining(multiset([u]), TwinBehind(u), ["--", u])
    ensures Expected(TwinBehind(u)) + BehindTerminator(["--", u]) == [u]
    ensures !NoTwinBehind(TwinBehind(u), ["--", u])
    ensures Collect(Render(TwinBehind(u)) + ["--", u], [], [u]) == [u, u]
  {
    TwinBehindExpected(u);
    assert BehindTerminator(["--", u]) == [u];
    assert TwinBehind(u)[1] == Other(u);
    TwinBehindScanned(u);
  }
}
