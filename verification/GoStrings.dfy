/** Go strings, and the functions of package strings that the program calls.

    A Go string is a sequence of bytes; a byte is modelled as a character below 256, so that
    the literals of the program can be written as literals here. */
module GoStrings {
  import opened Seqs

  type Byte = c: char | c as int < 256 witness '\0'

  type GoString = seq<Byte>

  /** strings.HasPrefix */
  predicate HasPrefix(s: GoString, prefix: GoString) {
    prefix <= s
  }

  /** strings.Index for a one-byte substring: the first occurrence, or -1. */
  function Index(s: GoString, c: Byte): (i: int)
    ensures -1 <= i < |s|
    ensures i == -1 <==> c !in s
    ensures i >= 0 ==> s[i] == c && c !in s[..i]
  {
    if s == [] then -1
    else if s[0] == c then 0
    else
      var rest := Index(s[1..], c);
      assert s == [s[0]] + s[1..];
      if rest == -1 then -1 else
      assert s[..rest + 1] == [s[0]] + s[1..][..rest];
      rest + 1
  }

  /** strings.SplitN for a one-byte separator and a positive bound. */
  function SplitN(s: GoString, sep: Byte, n: nat): seq<GoString>
    requires n > 0
    decreases n
  {
    var i := Index(s, sep);
    if n == 1 || i == -1 then [s] else [s[..i]] + SplitN(s[i + 1..], sep, n - 1)
  }

  /** strings.Split for a one-byte separator. */
  function Split(s: GoString, sep: Byte): seq<GoString>
    decreases |s|
  {
    var i := Index(s, sep);
    if i == -1 then [s] else [s[..i]] + Split(s[i + 1..], sep)
  }

  /** strings.Join for a one-byte separator. */
  function Join(parts: seq<GoString>, sep: Byte): GoString {
    if parts == [] then []
    else if |parts| == 1 then parts[0]
    else parts[0] + [sep] + Join(parts[1..], sep)
  }

  /** Every field but the last is free of the separator. */
  predicate LeadingFieldsFree(fields: seq<GoString>, sep: Byte) {
    forall i :: 0 <= i < |fields| - 1 ==> sep !in fields[i]
  }

  /** A string cut at its first separator. */
  lemma CutAtIndex(s: GoString, sep: Byte) returns (a: GoString, b: GoString)
    requires sep in s
    ensures sep !in a && s == a + [sep] + b
    ensures a == s[..Index(s, sep)] && b == s[Index(s, sep) + 1..]
  {
    var i := Index(s, sep);
    a, b := s[..i], s[i + 1..];
    assert s == s[..i] + [s[i]] + s[i + 1..];
  }

  lemma IndexAfterFree(a: GoString, c: Byte, b: GoString)
    requires c !in a
    ensures Index(a + [c] + b, c) == |a|
    ensures (a + [c] + b)[..|a|] == a
    ensures (a + [c] + b)[|a| + 1..] == b
  {
    var s := a + [c] + b;
    var i := Index(s, c);
    assert s[|a|] == c;
    assert s[..|a|] == a && s[|a| + 1..] == b;
    assert forall j :: 0 <= j < i ==> s[j] == s[..i][j];
  }

  lemma SplitNStep(a: GoString, sep: Byte, b: GoString, n: nat)
    requires sep !in a && n > 1
    ensures SplitN(a + [sep] + b, sep, n) == [a] + SplitN(b, sep, n - 1)
  {
    IndexAfterFree(a, sep, b);
  }

  lemma SplitStep(a: GoString, sep: Byte, b: GoString)
    requires sep !in a
    ensures Split(a + [sep] + b, sep) == [a] + Split(b, sep)
  {
    IndexAfterFree(a, sep, b);
  }

  lemma JoinStep(a: GoString, rest: seq<GoString>, sep: Byte)
    requires rest != []
    ensures Join([a] + rest, sep) == a + [sep] + Join(rest, sep)
  {
    assert ([a] + rest)[1..] == rest;
  }

  lemma LeadingFieldsStep(a: GoString, rest: seq<GoString>, sep: Byte)
    requires rest != []
    ensures LeadingFieldsFree([a] + rest, sep) <==> sep !in a && LeadingFieldsFree(rest, sep)
  {
    var all := [a] + rest;
    assert all[0] == a;
    assert forall i :: 0 <= i < |rest| ==> all[i + 1] == rest[i];
    if LeadingFieldsFree(all, sep) {
      forall i | 0 <= i < |rest| - 1 ensures sep !in rest[i] { assert sep !in all[i + 1]; }
    }
    if sep !in a && LeadingFieldsFree(rest, sep) {
      forall i | 0 <= i < |all| - 1 ensures sep !in all[i] {
        if i > 0 { assert all[i] == rest[i - 1]; }
      }
    }
  }

  /** The pieces join back to the string, and only the last may hold the separator; it does so
      only when the bound was reached. */
  predicate Pieces(parts: seq<GoString>, s: GoString, sep: Byte, n: nat) {
    && 1 <= |parts| <= n
    && Join(parts, sep) == s
    && LeadingFieldsFree(parts, sep)
    && (|parts| < n ==> sep !in parts[|parts| - 1])
  }

  lemma PiecesStep(a: GoString, rest: seq<GoString>, b: GoString, sep: Byte, n: nat)
    requires sep !in a && n > 0 && Pieces(rest, b, sep, n - 1)
    ensures Pieces([a] + rest, a + [sep] + b, sep, n)
  {
    JoinStep(a, rest, sep);
    LeadingFieldsStep(a, rest, sep);
    assert ([a] + rest)[|rest|] == rest[|rest| - 1];
  }

  lemma {:induction false} SplitNPieces(s: GoString, sep: Byte, n: nat)
    requires n > 0
    ensures Pieces(SplitN(s, sep, n), s, sep, n)
    decreases n
  {
    if n > 1 && sep in s {
      var a, b := CutAtIndex(s, sep);
      SplitNPieces(b, sep, n - 1);
      SplitNStep(a, sep, b, n);
      PiecesStep(a, SplitN(b, sep, n - 1), b, sep, n);
    }
  }

  lemma {:induction false} SplitNOfJoin(fields: seq<GoString>, sep: Byte)
    requires fields != [] && LeadingFieldsFree(fields, sep)
    ensures SplitN(Join(fields, sep), sep, |fields|) == fields
  {
    if |fields| > 1 {
      var a, rest := fields[0], fields[1..];
      assert fields == [a] + rest;
      LeadingFieldsStep(a, rest, sep);
      SplitNOfJoin(rest, sep);
      JoinStep(a, rest, sep);
      SplitNStep(a, sep, Join(rest, sep), |fields|);
    }
  }

  /** A bounded split inverts joining exactly on the lists whose leading fields are free of the
      separator; the last field is arbitrary. */
  lemma {:induction false} SplitNInvertsJoin(fields: seq<GoString>, sep: Byte)
    requires fields != []
    ensures SplitN(Join(fields, sep), sep, |fields|) == fields <==> LeadingFieldsFree(fields, sep)
  {
    if LeadingFieldsFree(fields, sep) {
      SplitNOfJoin(fields, sep);
    } else {
      SplitNPieces(Join(fields, sep), sep, |fields|);
    }
  }

  /** A split has at least one piece; one piece exactly when the separator does not occur. */
  lemma {:induction false} SplitPieces(s: GoString, sep: Byte)
    ensures |Split(s, sep)| >= 1
    ensures |Split(s, sep)| == 1 <==> sep !in s
    ensures sep !in s ==> Split(s, sep) == [s]
    decreases |s|
  {
    var i := Index(s, sep);
    if i != -1 {
      SplitPieces(s[i + 1..], sep);
    }
  }

  lemma CutTwice(first: GoString, rest: GoString, sep: Byte, b: GoString)
    ensures (first + [sep] + rest) + [sep] + b == first + [sep] + (rest + [sep] + b)
  {
  }

  lemma {:induction false} SplitAroundSeparator(a: GoString, sep: Byte, b: GoString)
    ensures Split(a + [sep] + b, sep) == Split(a, sep) + Split(b, sep)
    decreases |a|
  {
    if sep !in a {
      SplitStep(a, sep, b);
    } else {
      var first, rest := CutAtIndex(a, sep);
      calc {
        Split(a + [sep] + b, sep);
        { CutTwice(first, rest, sep, b); }
        Split(first + [sep] + (rest + [sep] + b), sep);
        { SplitStep(first, sep, rest + [sep] + b); }
        [first] + Split(rest + [sep] + b, sep);
        { SplitAroundSeparator(rest, sep, b); }
        [first] + (Split(rest, sep) + Split(b, sep));
        { Assoc([first], Split(rest, sep), Split(b, sep)); }
        ([first] + Split(rest, sep)) + Split(b, sep);
        { SplitStep(first, sep, rest); }
        Split(a, sep) + Split(b, sep);
      }
    }
  }

  /** Splitting a joined list never gives fewer pieces than parts, and gives the parts
      themselves exactly when none of them holds the separator. */
  lemma {:induction false} SplitInvertsJoin(parts: seq<GoString>, sep: Byte)
    requires parts != []
    ensures |Split(Join(parts, sep), sep)| >= |parts|
    ensures |Split(Join(parts, sep), sep)| == |parts| <==> forall p :: p in parts ==> sep !in p
    ensures (forall p :: p in parts ==> sep !in p) ==> Split(Join(parts, sep), sep) == parts
  {
    SplitPieces(parts[0], sep);
    assert parts == [parts[0]] + parts[1..];
    if |parts| > 1 {
      SplitAroundSeparator(parts[0], sep, Join(parts[1..], sep));
      SplitInvertsJoin(parts[1..], sep);
    }
  }

  /** A bounded split has as many pieces as the bound and the separators allow. */
  lemma {:induction false} SplitNCount(s: GoString, sep: Byte, n: nat)
    requires n > 0
    ensures |SplitN(s, sep, n)| == if |Split(s, sep)| < n then |Split(s, sep)| else n
    decreases n
  {
    if n == 1 || sep !in s {
      SplitPieces(s, sep);
    } else {
      var a, b := CutAtIndex(s, sep);
      SplitNCount(b, sep, n - 1);
      assert |SplitN(s, sep, n)| == 1 + |SplitN(b, sep, n - 1)| by { SplitNStep(a, sep, b, n); }
      assert |Split(s, sep)| == 1 + |Split(b, sep)| by { SplitStep(a, sep, b); }
    }
  }
}
