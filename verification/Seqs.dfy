/** Small helpers shared by every module: optional values, results and flattening. */
module Seqs {
  /** A byte of network data. */
  type Octet = x: int | 0 <= x < 256

  datatype Option<+T> = None | Some(value: T)

  datatype Result<+T, +E> = Ok(value: T) | Err(error: E)

  /** Concatenation of a list of lists, in order. */
  function Flatten<T>(xss: seq<seq<T>>): seq<T> {
    if xss == [] then [] else xss[0] + Flatten(xss[1..])
  }

  lemma FlattenFirst<T>(first: seq<T>, rest: seq<seq<T>>)
    ensures Flatten([first] + rest) == first + Flatten(rest)
  {
    assert ([first] + rest)[1..] == rest;
  }

  /** Re-associating a concatenation; solvers need to be told. */
  lemma Assoc<T>(a: seq<T>, b: seq<T>, c: seq<T>)
    ensures a + (b + c) == (a + b) + c
  {
  }

  /** A loop that converts every element and returns at the first error. */
  function Traverse<A, B, E>(f: A -> Result<B, E>, xs: seq<A>): Result<seq<B>, E> {
    if xs == [] then Ok([])
    else match f(xs[0])
      case Err(e) => Err(e)
      case Ok(y) =>
        match Traverse(f, xs[1..])
        case Err(e) => Err(e)
        case Ok(ys) => Ok([y] + ys)
  }

  /** The loop accepts exactly the lists whose elements all convert, and converts each. */
  lemma {:induction false} TraversePointwise<A, B, E>(f: A -> Result<B, E>, xs: seq<A>)
    ensures Traverse(f, xs).Ok? <==> forall x :: x in xs ==> f(x).Ok?
    ensures Traverse(f, xs).Ok? ==>
      |Traverse(f, xs).value| == |xs| &&
      forall i :: 0 <= i < |xs| ==> f(xs[i]) == Ok(Traverse(f, xs).value[i])
  {
    if xs != [] {
      assert xs == [xs[0]] + xs[1..];
      TraversePointwise(f, xs[1..]);
      if f(xs[0]).Ok? && Traverse(f, xs[1..]).Ok? {
        var ys := Traverse(f, xs[1..]).value;
        forall i | 0 <= i < |xs| ensures f(xs[i]) == Ok(Traverse(f, xs).value[i]) {
          if i > 0 { assert f(xs[1..][i - 1]) == Ok(ys[i - 1]); }
        }
      }
    }
  }

  lemma TraverseOk<A(!new), B, E>(f: A -> Result<B, E>, xs: seq<A>, ys: seq<B>)
    requires |xs| == |ys| && forall i :: 0 <= i < |xs| ==> f(xs[i]) == Ok(ys[i])
    ensures Traverse(f, xs) == Ok(ys)
  {
    TraversePointwise(f, xs);
    assert forall i :: 0 <= i < |xs| ==> f(xs[i]).Ok?;
    assert Traverse(f, xs).value == ys;
  }

  lemma {:induction false} TraverseAppend<A, B, E>(f: A -> Result<B, E>, xs: seq<A>, ys: seq<A>)
    requires Traverse(f, xs).Ok? && Traverse(f, ys).Ok?
    ensures Traverse(f, xs + ys) == Ok(Traverse(f, xs).value + Traverse(f, ys).value)
  {
    if xs == [] {
      assert xs + ys == ys && [] + Traverse(f, ys).value == Traverse(f, ys).value;
    } else {
      assert (xs + ys)[1..] == xs[1..] + ys;
      TraverseAppend(f, xs[1..], ys);
      Assoc([f(xs[0]).value], Traverse(f, xs[1..]).value, Traverse(f, ys).value);
    }
  }

  /** Otherwise it reports the first element that does not convert. */
  lemma {:induction false} TraverseFirstError<A, B, E>(f: A -> Result<B, E>, xs: seq<A>) returns (k: nat)
    requires Traverse(f, xs).Err?
    ensures k < |xs| && f(xs[k]) == Err(Traverse(f, xs).error)
    ensures forall j :: 0 <= j < k ==> f(xs[j]).Ok?
  {
    if f(xs[0]).Err? {
      k := 0;
    } else {
      var m := TraverseFirstError(f, xs[1..]);
      k := m + 1;
      forall j | 0 <= j < k ensures f(xs[j]).Ok? {
        if j > 0 { assert xs[j] == xs[1..][j - 1]; }
      }
    }
  }

  /** And whichever element is the first that does not convert, its error is reported. */
  lemma {:induction false} TraverseErrorAt<A, B, E>(f: A -> Result<B, E>, xs: seq<A>, k: nat)
    requires k < |xs| && f(xs[k]).Err? && forall j :: 0 <= j < k ==> f(xs[j]).Ok?
    ensures Traverse(f, xs) == Err(f(xs[k]).error)
  {
    if k > 0 {
      assert f(xs[0]).Ok?;
      assert forall j :: 0 <= j < k - 1 ==> xs[1..][j] == xs[j + 1];
      TraverseErrorAt(f, xs[1..], k - 1);
    }
  }

  /** One more iteration of the loop. */
  lemma {:induction false} TraverseSnoc<A, B, E>(f: A -> Result<B, E>, xs: seq<A>, x: A)
    requires Traverse(f, xs).Ok?
    ensures f(x).Err? ==> Traverse(f, xs + [x]) == Err(f(x).error)
    ensures f(x).Ok? ==> Traverse(f, xs + [x]) == Ok(Traverse(f, xs).value + [f(x).value])
  {
    if xs == [] {
      assert xs + [x] == [x] && [x][1..] == [];
      if f(x).Ok? { assert [f(x).value] + [] == [] + [f(x).value]; }
    } else {
      assert (xs + [x])[1..] == xs[1..] + [x];
      TraverseSnoc(f, xs[1..], x);
      if f(x).Ok? { Assoc([f(xs[0]).value], Traverse(f, xs[1..]).value, [f(x).value]); }
    }
  }

  lemma {:induction false} TraversePrefixFails<A, B, E>(f: A -> Result<B, E>, xs: seq<A>, rest: seq<A>)
    requires Traverse(f, xs).Err?
    ensures Traverse(f, xs + rest) == Traverse(f, xs)
  {
    assert (xs + rest)[1..] == xs[1..] + rest;
    if f(xs[0]).Ok? {
      TraversePrefixFails(f, xs[1..], rest);
    }
  }

  /** The loop at index i: the elements before it all converted. */
  lemma TraverseStep<A, B, E>(f: A -> Result<B, E>, xs: seq<A>, i: nat)
    requires i < |xs| && Traverse(f, xs[..i]).Ok?
    ensures f(xs[i]).Err? ==> Traverse(f, xs) == Err(f(xs[i]).error)
    ensures f(xs[i]).Ok? ==> Traverse(f, xs[..i + 1]) == Ok(Traverse(f, xs[..i]).value + [f(xs[i]).value])
  {
    TraverseSnoc(f, xs[..i], xs[i]);
    assert xs[..i] + [xs[i]] == xs[..i + 1];
    if f(xs[i]).Err? {
      TraversePrefixFails(f, xs[..i + 1], xs[i + 1..]);
      assert xs[..i + 1] + xs[i + 1..] == xs;
    }
  }

  /** The lists that f gives for the elements, concatenated in order. */
  function FlatMap<A, B>(f: A -> seq<B>, xs: seq<A>): seq<B> {
    if xs == [] then [] else f(xs[0]) + FlatMap(f, xs[1..])
  }

  lemma {:induction false} FlatMapAppend<A, B>(f: A -> seq<B>, xs: seq<A>, ys: seq<A>)
    ensures FlatMap(f, xs + ys) == FlatMap(f, xs) + FlatMap(f, ys)
  {
    if xs == [] {
      assert xs + ys == ys;
    } else {
      assert (xs + ys)[1..] == xs[1..] + ys;
      FlatMapAppend(f, xs[1..], ys);
      Assoc(f(xs[0]), FlatMap(f, xs[1..]), FlatMap(f, ys));
    }
  }

  /** The loop at index i. */
  lemma FlatMapStep<A, B>(f: A -> seq<B>, xs: seq<A>, i: nat)
    requires i < |xs|
    ensures FlatMap(f, xs[..i + 1]) == FlatMap(f, xs[..i]) + f(xs[i])
  {
    assert xs[..i + 1] == xs[..i] + [xs[i]];
    FlatMapAppend(f, xs[..i], [xs[i]]);
    assert [xs[i]][1..] == [];
    assert FlatMap(f, [xs[i]]) == f(xs[i]) + [];
  }

  lemma FlatMapOne<A, B>(f: A -> seq<B>, x: A)
    ensures FlatMap(f, [x]) == f(x)
  {
    assert [x][1..] == [];
    assert f(x) + [] == f(x);
  }

  /** Membership in the concatenation. */
  lemma {:induction false} FlatMapMembers<A(!new), B>(f: A -> seq<B>, xs: seq<A>, y: B)
    ensures y in FlatMap(f, xs) <==> exists x :: x in xs && y in f(x)
  {
    if xs != [] {
      assert xs == [xs[0]] + xs[1..];
      FlatMapMembers(f, xs[1..], y);
    }
  }
}
