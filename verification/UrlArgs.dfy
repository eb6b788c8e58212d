/** internal/config/options.go: collectURLs, which rescans the arguments to find the URLs in
    command-line order.

    What the flag library returns (the --url values and the remaining arguments) is an input. */
module UrlArgs {
  import opened Seqs
  import opened GoStrings

  type Counts = map<GoString, int>

  /** Reading a Go map of counters: a missing key counts zero. */
  function CountOf(m: Counts, s: GoString): int {
    if s in m then m[s] else 0
  }

  /** The counters stand for a multiset; none is negative. */
  ghost predicate Represents(m: Counts, rem: multiset<GoString>) {
    forall s :: CountOf(m, s) == rem[s]
  }

  function Prepend(url: GoString, r: (seq<GoString>, bool)): (seq<GoString>, bool) {
    ([url] + r.0, r.1)
  }

  /** The loop of collectURLs: the URLs found and whether a terminator was reached. */
  function Scan(args: seq<GoString>, rem: multiset<GoString>): (seq<GoString>, bool) {
    if args == [] then ([], false)
    else if args[0] == "--" then (args[1..], true)
    else if args[0] == "--url" then
      if |args| == 1 then ([], false)
      else Prepend(args[1], Scan(args[2..], rem))
    else if HasPrefix(args[0], "--url=") then Prepend(args[0][6..], Scan(args[1..], rem))
    else if rem[args[0]] > 0 then Prepend(args[0], Scan(args[1..], rem - multiset{args[0]}))
    else Scan(args[1..], rem)
  }

  /** The result: the scan, or, when it found nothing and no terminator, the two lists of the
      flag library. */
  function Collect(args: seq<GoString>, urlFlags: seq<GoString>, remaining: seq<GoString>): seq<GoString> {
    var (urls, reached) := Scan(args, multiset(remaining));
    if reached || urls != [] then urls else urlFlags + remaining
  }

  /** Having found these URLs before index i with these counters left, the whole scan is them
      followed by the scan from i. */
  ghost predicate Continues(args: seq<GoString>, initial: multiset<GoString>,
                            urls: seq<GoString>, i: nat, rem: multiset<GoString>)
    requires i <= |args|
  {
    Scan(args, initial) == (urls + Scan(args[i..], rem).0, Scan(args[i..], rem).1)
  }

  lemma ScanStep(args: seq<GoString>, initial: multiset<GoString>,
                 urls: seq<GoString>, i: nat, rem: multiset<GoString>)
    requires i < |args| && Continues(args, initial, urls, i, rem)
    ensures
      var arg := args[i];
      if arg == "--" then Scan(args, initial) == (urls + args[i + 1..], true)
      else if arg == "--url" then
        if i + 1 < |args| then Continues(args, initial, urls + [args[i + 1]], i + 2, rem)
        else Continues(args, initial, urls, i + 1, rem)
      else if HasPrefix(arg, "--url=") then Continues(args, initial, urls + [arg[6..]], i + 1, rem)
      else if rem[arg] > 0 then Continues(args, initial, urls + [arg], i + 1, rem - multiset{arg})
      else Continues(args, initial, urls, i + 1, rem)
  {
    var arg, rest := args[i], args[i..];
    assert rest[0] == arg && rest[1..] == args[i + 1..];
    if arg == "--url" {
      if i + 1 < |args| {
        assert rest[2..] == args[i + 2..];
        Assoc(urls, [args[i + 1]], Scan(args[i + 2..], rem).0);
      }
    } else if HasPrefix(arg, "--url=") {
      Assoc(urls, [arg[6..]], Scan(args[i + 1..], rem).0);
    } else if rem[arg] > 0 {
      Assoc(urls, [arg], Scan(args[i + 1..], rem - multiset{arg}).0);
    }
  }

  lemma ScanStarts(args: seq<GoString>, initial: multiset<GoString>)
    ensures Continues(args, initial, [], 0, initial)
  {
    assert args[0..] == args && [] + Scan(args, initial).0 == Scan(args, initial).0;
  }

  lemma ScanEnds(args: seq<GoString>, urlFlags: seq<GoString>, remaining: seq<GoString>,
                 urls: seq<GoString>, rem: multiset<GoString>)
    requires Continues(args, multiset(remaining), urls, |args|, rem)
    ensures Collect(args, urlFlags, remaining) == if |urls| == 0 then urls + urlFlags + remaining else urls
  {
    assert args[|args|..] == [] && urls + [] == urls;
    assert urls == [] ==> urls + urlFlags == urlFlags;
  }

  /** The arguments that may be picked positionally. */
  predicate Eligible(arg: GoString) {
    arg != "--" && arg != "--url" && !HasPrefix(arg, "--url=")
  }

  /** The body of the loop: i ends up at the last argument consumed. */
  method ReadArgument(args: seq<GoString>, ghost initial: multiset<GoString>, urls0: seq<GoString>, i0: nat,
                      remMap0: Counts, ghost rem0: multiset<GoString>)
    returns (urls: seq<GoString>, i: nat, remMap: Counts, ghost rem: multiset<GoString>)
    requires i0 < |args| && args[i0] != "--"
    requires Represents(remMap0, rem0) && Continues(args, initial, urls0, i0, rem0)
    ensures i0 <= i < |args|
    ensures Represents(remMap, rem) && Continues(args, initial, urls, i + 1, rem)
  {
    var arg := args[i0];
    urls, i, remMap, rem := urls0, i0, remMap0, rem0;
    ScanStep(args, initial, urls, i, rem);
    if arg == "--url" {
      if i + 1 < |args| {
        urls := urls + [args[i + 1]];
        i := i + 1;
      }
    } else if HasPrefix(arg, "--url=") {
      urls := urls + [arg[6..]];
    } else if CountOf(remMap, arg) > 0 {
      urls := urls + [arg];
      remMap := remMap[arg := CountOf(remMap, arg) - 1];
      rem := rem - multiset{arg};
    }
  }

  /** The loop behind a terminator. */
  method AppendRest(args: seq<GoString>, from: nat, before: seq<GoString>) returns (urls: seq<GoString>)
    requires from <= |args|
    ensures urls == before + args[from..]
  {
    urls := before;
    var j := from;
    while j < |args|
      invariant from <= j <= |args|
      invariant urls == before + args[from..j]
    {
      urls := urls + [args[j]];
      j := j + 1;
    }
  }

  method CountAll(remaining: seq<GoString>) returns (remMap: Counts)
    ensures Represents(remMap, multiset(remaining))
  {
    remMap := map[];
    for i := 0 to |remaining|
      invariant Represents(remMap, multiset(remaining[..i]))
    {
      var arg := remaining[i];
      assert remaining[..i + 1] == remaining[..i] + [arg];
      remMap := remMap[arg := CountOf(remMap, arg) + 1];
    }
    assert remaining[..|remaining|] == remaining;
  }

  method CollectURLs(args: seq<GoString>, urlFlags: seq<GoString>, remaining: seq<GoString>)
    returns (urls: seq<GoString>)
    ensures urls == Collect(args, urlFlags, remaining)
  {
    var remMap := CountAll(remaining);
    ghost var rem := multiset(remaining);
    urls := [];
    var i := 0;
    ScanStarts(args, rem);
    while i < |args|
      invariant 0 <= i <= |args|
      invariant Represents(remMap, rem)
      invariant Continues(args, multiset(remaining), urls, i, rem)
    {
      if args[i] == "--" {
        ScanStep(args, multiset(remaining), urls, i, rem);
        urls := AppendRest(args, i + 1, urls);
        return urls;
      }
      urls, i, remMap, rem := ReadArgument(args, multiset(remaining), urls, i, remMap, rem);
      i := i + 1;
    }
    ScanEnds(args, urlFlags, remaining, urls, rem);
    if |urls| == 0 {
      urls := urls + urlFlags;
      urls := urls + remaining;
    }
  }

  // ----- the scan as a choice of tokens -----

  /** The arguments as the loop cuts them: a URL in either spelling, a positional argument, or
      a word of some other option (the option or its value). */
  datatype Token =
    | UrlSpaced(url: GoString)
    | UrlJoined(url: GoString)
    | Positional(word: GoString)
    | Other(word: GoString)

  predicate WellFormed(ts: seq<Token>) {
    forall t :: t in ts && (t.Positional? || t.Other?) ==> Eligible(t.word)
  }

  predicate IsWord(t: Token, s: GoString) {
    (t.Positional? || t.Other?) && t.word == s
  }

  function RenderToken(t: Token): seq<GoString> {
    match t
    case UrlSpaced(url) => ["--url", url]
    case UrlJoined(url) => ["--url=" + url]
    case Positional(w) => [w]
    case Other(w) => [w]
  }

  function Render(ts: seq<Token>): seq<GoString> {
    if ts == [] then [] else RenderToken(ts[0]) + Render(ts[1..])
  }

  /** Nothing, a --url that lacks its value, or a terminator and what is behind it. */
  predicate Tail(tail: seq<GoString>) {
    tail == [] || tail == ["--url"] || tail[0] == "--"
  }

  function BehindTerminator(tail: seq<GoString>): seq<GoString> {
    if tail != [] && tail[0] == "--" then tail[1..] else []
  }

  /** How often the word s occurs among the first k tokens. */
  function Words(ts: seq<Token>, k: nat, s: GoString): nat
    requires k <= |ts|
  {
    if k == 0 then 0 else Words(ts, k - 1, s) + if IsWord(ts[k - 1], s) then 1 else 0
  }

  /** Token i is picked: it is a URL, or a word that occurs fewer times before it than its
      counter allows. Nothing here depends on a run. */
  predicate Picked(ts: seq<Token>, i: nat, rem: multiset<GoString>)
    requires i < |ts|
  {
    match ts[i]
    case UrlSpaced(_) => true
    case UrlJoined(_) => true
    case Positional(w) => Words(ts, i, w) < rem[w]
    case Other(w) => Words(ts, i, w) < rem[w]
  }

  function TextOf(t: Token): GoString {
    match t
    case UrlSpaced(url) => url
    case UrlJoined(url) => url
    case Positional(w) => w
    case Other(w) => w
  }

  /** The texts of the picked tokens from index k on, in order. */
  function PickedFrom(ts: seq<Token>, k: nat, rem: multiset<GoString>): seq<GoString>
    requires k <= |ts|
    decreases |ts| - k
  {
    if k == |ts| then []
    else (if Picked(ts, k, rem) then [TextOf(ts[k])] else []) + PickedFrom(ts, k + 1, rem)
  }

  /** Every argument list is the rendering of tokens and a tail, with every word an Other. */
  lemma {:induction false} EveryArgvIsPrinted(args: seq<GoString>)
    returns (ts: seq<Token>, tail: seq<GoString>)
    ensures WellFormed(ts) && Tail(tail) && args == Render(ts) + tail
    decreases |args|
  {
    if Tail(args) {
      ts, tail := [], args;
    } else {
      var t: Token, w: nat;
      if args[0] == "--url" {
        t, w := UrlSpaced(args[1]), 2;
        assert args[..2] == [args[0], args[1]];
      } else if HasPrefix(args[0], "--url=") {
        t, w := UrlJoined(args[0][6..]), 1;
        assert args[0] == "--url=" + args[0][6..];
      } else {
        t, w := Other(args[0]), 1;
      }
      ts, tail := EveryArgvIsPrinted(args[w..]);
      var all := [t] + ts;
      assert all[1..] == ts && args == args[..w] + args[w..];
      assert Render(all) == args[..w] + Render(ts);
      assert args[..w] + (Render(ts) + tail) == Render(all) + tail;
      ts := all;
    }
  }

  /** The counter of s that is left when the first k tokens have been scanned. */
  function Left(ts: seq<Token>, k: nat, rem: multiset<GoString>, s: GoString): nat
    requires k <= |ts|
  {
    if k == 0 then rem[s]
    else
      var before := Left(ts, k - 1, rem, s);
      if IsWord(ts[k - 1], s) && before > 0 then before - 1 else before
  }

  /** n, but no more than the cap. */
  function AtMost(cap: nat, n: nat): nat {
    if n < cap then n else cap
  }

  /** No counter goes below zero: what is left is the initial count less the words seen. */
  lemma {:induction false} LeftCounts(ts: seq<Token>, k: nat, rem: multiset<GoString>, s: GoString)
    requires k <= |ts|
    ensures Left(ts, k, rem, s) == rem[s] - AtMost(rem[s], Words(ts, k, s))
  {
    if k > 0 {
      LeftCounts(ts, k - 1, rem, s);
    }
  }

  lemma PickedStep(ts: seq<Token>, k: nat, rem: multiset<GoString>, behind: seq<GoString>)
    requires k < |ts|
    ensures Picked(ts, k, rem) ==>
      PickedFrom(ts, k, rem) + behind == [TextOf(ts[k])] + (PickedFrom(ts, k + 1, rem) + behind)
    ensures !Picked(ts, k, rem) ==> PickedFrom(ts, k, rem) == PickedFrom(ts, k + 1, rem)
  {
  }

  lemma RenderStep(ts: seq<Token>, tail: seq<GoString>, rest: seq<GoString>)
    requires ts != [] && rest == Render(ts[1..]) + tail
    ensures Render(ts) + tail == RenderToken(ts[0]) + rest
  {
  }

  lemma ScanToken(t: Token, rest: seq<GoString>, rem: multiset<GoString>)
    requires t.Positional? || t.Other? ==> Eligible(t.word)
    ensures t.UrlSpaced? || t.UrlJoined? ==> Scan(RenderToken(t) + rest, rem) == Prepend(t.url, Scan(rest, rem))
    ensures (t.Positional? || t.Other?) && rem[t.word] > 0 ==>
      Scan(RenderToken(t) + rest, rem) == Prepend(t.word, Scan(rest, rem - multiset{t.word}))
    ensures (t.Positional? || t.Other?) && rem[t.word] == 0 ==> Scan(RenderToken(t) + rest, rem) == Scan(rest, rem)
  {
    var args := RenderToken(t) + rest;
    if t.UrlSpaced? {
      assert args[2..] == rest;
    } else {
      assert args[1..] == rest;
      if t.UrlJoined? { assert args[0][5] == '=' && args[0][6..] == t.url; }
    }
  }

  lemma LeftStep(ts: seq<Token>, k: nat, rem: multiset<GoString>, left: multiset<GoString>)
    requires k < |ts| && forall s :: left[s] == Left(ts, k, rem, s)
    ensures
      var picked := (ts[k].Positional? || ts[k].Other?) && left[ts[k].word] > 0;
      var left' := if picked then left - multiset{ts[k].word} else left;
      forall s :: left'[s] == Left(ts, k + 1, rem, s)
  {
  }

  lemma ScanTail(tail: seq<GoString>, left: multiset<GoString>)
    requires Tail(tail)
    ensures Scan(tail, left) == (BehindTerminator(tail), tail != [] && tail[0] == "--")
  {
    if tail == ["--url"] { assert tail[0] == "--url" && |tail[0]| == 5; }
  }

  /** Behind k tokens the scan goes on with the counters that are left. */
  lemma {:induction false} ScanFrom(ts: seq<Token>, k: nat, tail: seq<GoString>,
                                    rem: multiset<GoString>, left: multiset<GoString>)
    requires WellFormed(ts) && Tail(tail) && k <= |ts|
    requires forall s :: left[s] == Left(ts, k, rem, s)
    ensures Scan(Render(ts[k..]) + tail, left) ==
      (PickedFrom(ts, k, rem) + BehindTerminator(tail), tail != [] && tail[0] == "--")
    decreases |ts| - k
  {
    if k == |ts| {
      assert Render(ts[k..]) + tail == tail;
      assert [] + BehindTerminator(tail) == BehindTerminator(tail);
      ScanTail(tail, left);
    } else {
      var t, rest := ts[k], Render(ts[k + 1..]) + tail;
      assert ts[k..][0] == t && ts[k..][1..] == ts[k + 1..];
      var picked := (t.Positional? || t.Other?) && left[t.word] > 0;
      LeftStep(ts, k, rem, left);
      ScanFrom(ts, k + 1, tail, rem, if picked then left - multiset{t.word} else left);
      RenderStep(ts[k..], tail, rest);
      ScanToken(t, rest, left);
      if t.Positional? || t.Other? { LeftCounts(ts, k, rem, t.word); }
      PickedStep(ts, k, rem, BehindTerminator(tail));
    }
  }

  /** The scan picks exactly the picked tokens: every URL, and every word at its earliest
      eligible occurrences, as often as its counter allows; then all behind the terminator. */
  lemma ScanPicksEarliest(ts: seq<Token>, tail: seq<GoString>, rem: multiset<GoString>)
    requires WellFormed(ts) && Tail(tail)
    ensures Scan(Render(ts) + tail, rem) ==
      (PickedFrom(ts, 0, rem) + BehindTerminator(tail), tail != [] && tail[0] == "--")
  {
    assert ts[0..] == ts;
    ScanFrom(ts, 0, tail, rem, rem);
  }

  /** How often s is picked positionally among the first k tokens. */
  function Picks(ts: seq<Token>, k: nat, rem: multiset<GoString>, s: GoString): nat
    requires k <= |ts|
  {
    if k == 0 then 0
    else Picks(ts, k - 1, rem, s) + if IsWord(ts[k - 1], s) && Picked(ts, k - 1, rem) then 1 else 0
  }

  /** Exact counting: at every point the counter and the picks add up to the initial count, and
      in the end s has been picked as often as the smaller of its count and its occurrences. */
  lemma {:induction false} PicksAreExact(ts: seq<Token>, k: nat, rem: multiset<GoString>, s: GoString)
    requires k <= |ts|
    ensures Left(ts, k, rem, s) + Picks(ts, k, rem, s) == rem[s]
    ensures Picks(ts, k, rem, s) == AtMost(rem[s], Words(ts, k, s))
  {
    LeftCounts(ts, k, rem, s);
    if k > 0 {
      PicksAreExact(ts, k - 1, rem, s);
    }
  }
}
