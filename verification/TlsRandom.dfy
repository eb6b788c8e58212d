/** internal/client/clientdialer.go: tlsRandomReader, which hands out the bytes given on the
    command line first and the bytes of the system's entropy source from then on.

    The entropy source is one infinite stream of bytes; how many bytes a call obtains before it
    fails is up to an oracle. */
module TlsRandom {
  import opened Seqs

  /** The entropy stream, by position. */
  type Stream = nat -> Octet

  /** How many bytes the source grants to its i-th call, which asks for n. */
  type Supply = (nat, nat) -> nat

  function Granted(supply: Supply, call: nat, n: nat): (g: nat)
    ensures g <= n
  {
    if supply(call, n) <= n then supply(call, n) else n
  }

  function Window(stream: Stream, from: nat, n: nat): (w: seq<Octet>)
    ensures |w| == n
    ensures forall i :: 0 <= i < n ==> w[i] == stream(from + i)
  {
    seq(n, i requires 0 <= i => stream(from + i))
  }

  /** crypto/rand.Reader: io.ReadFull and rand.Read both fill the buffer or report an error. From
      Go 1.24 on, rand.Read does not return an error but ends the program; the failing branch
      behind the data covers more than such a program can do. */
  class Entropy {
    const stream: Stream
    const supply: Supply
    var taken: nat
    var calls: nat

    constructor (stream: Stream, supply: Supply)
      ensures this.stream == stream && this.supply == supply && taken == 0 && calls == 0
    {
      this.stream := stream;
      this.supply := supply;
      taken, calls := 0, 0;
    }

    /** Fills p[from..]; n bytes are read, and fewer than asked for exactly on failure. */
    method ReadFull(p: array<Octet>, from: nat) returns (n: nat, failed: bool)
      requires from <= p.Length
      modifies this, p
      ensures n == Granted(supply, old(calls), p.Length - from) && (failed <==> n < p.Length - from)
      ensures p[..from + n] == old(p[..from]) + Window(stream, old(taken), n)
      ensures taken == old(taken) + n && calls == old(calls) + 1
    {
      n := Granted(supply, calls, p.Length - from);
      for i := 0 to n
        invariant p[..from + i] == old(p[..from]) + Window(stream, taken, i)
        invariant taken == old(taken) && calls == old(calls)
        modifies p
      {
        p[from + i] := stream(taken + i);
        assert p[..from + i + 1] == p[..from + i] + [stream(taken + i)];
      }
      failed := n < p.Length - from;
      taken, calls := taken + n, calls + 1;
    }
  }

  /** Go's copy of src[from..from + n] into p. */
  method Copy(p: array<Octet>, src: array<Octet>, from: nat, n: nat)
    requires p != src && from + n <= src.Length && n <= p.Length
    modifies p
    ensures p[..n] == src[from..from + n]
  {
    for i := 0 to n
      invariant p[..i] == src[from..from + i]
    {
      p[i] := src[from + i];
    }
  }

  // ----- one Read as a function -----

  datatype Source = Source(data: seq<Octet>, stream: Stream, supply: Supply)

  /** The reader's position, and how far the entropy source has been used. */
  datatype State = State(pos: nat, taken: nat, calls: nat)

  datatype ReadResult = ReadResult(state: State, out: seq<Octet>, failed: bool)

  function ReadStep(src: Source, st: State, want: nat): ReadResult
    requires st.pos <= |src.data|
  {
    var left := |src.data| - st.pos;
    var copied := if left < want then left else want;
    var head := src.data[st.pos..st.pos + copied];
    if left > 0 && copied == want then
      ReadResult(State(st.pos + copied, st.taken, st.calls), head, false)
    else
      var g := Granted(src.supply, st.calls, want - copied);
      ReadResult(State(st.pos + copied, st.taken + g, st.calls + 1),
                 head + Window(src.stream, st.taken, g),
                 g < want - copied)
  }

  class TlsRandomReader {
    const data: array<Octet>
    var pos: nat

    constructor (data: array<Octet>)
      ensures this.data == data && pos == 0
    {
      this.data := data;
      pos := 0;
    }

    /** The buffer is the caller's own: it is not the slice that the reader was made from. */
    method Read(p: array<Octet>, rand: Entropy) returns (n: nat, failed: bool)
      requires pos <= data.Length && p != data
      modifies this`pos, p, rand
      ensures pos <= data.Length && data[..] == old(data[..])
      ensures
        var after := ReadStep(Source(data[..], rand.stream, rand.supply),
                              State(old(pos), old(rand.taken), old(rand.calls)), p.Length);
        && State(pos, rand.taken, rand.calls) == after.state
        && n == |after.out| && failed == after.failed
        && p[..n] == after.out
    {
      ghost var after := ReadStep(Source(data[..], rand.stream, rand.supply),
                                  State(pos, rand.taken, rand.calls), p.Length);
      if pos < data.Length {
        var toCopy := data.Length - pos;
        if toCopy > p.Length {
          toCopy := p.Length;
        }
        Copy(p, data, pos, toCopy);
        assert p[..toCopy] == data[..][pos..pos + toCopy];
        pos := pos + toCopy;
        if toCopy < p.Length {
          var nn: nat;
          nn, failed := rand.ReadFull(p, toCopy);
          return toCopy + nn, failed;
        }
        return toCopy, false;
      }
      assert data[..][pos..pos] == p[..0];
      n, failed := rand.ReadFull(p, 0);
    }
  }

  // ----- the stream that the reader stands for -----

  /** Byte i of the given data followed by the entropy stream. */
  function At(src: Source, i: nat): Octet {
    if i < |src.data| then src.data[i] else src.stream(i - |src.data|)
  }

  function Slice(src: Source, from: nat, n: nat): (w: seq<Octet>)
    ensures |w| == n
    ensures forall i :: 0 <= i < n ==> w[i] == At(src, from + i)
  {
    seq<Octet>(n, i requires 0 <= i => At(src, from + i))
  }

  /** The entropy source is used only when the data has been handed out. */
  predicate Coherent(src: Source, st: State) {
    st.pos <= |src.data| && (st.taken > 0 ==> st.pos == |src.data|)
  }

  /** The number of bytes handed out so far. */
  function Offset(st: State): nat {
    st.pos + st.taken
  }

  /** A Read hands out the bytes that come next, all that were asked for unless it fails. */
  lemma ReadAdvances(src: Source, st: State, want: nat)
    requires Coherent(src, st)
    ensures
      var r := ReadStep(src, st, want);
      && Coherent(src, r.state)
      && |r.out| <= want && (r.failed <==> |r.out| < want)
      && Offset(r.state) == Offset(st) + |r.out|
      && r.out == Slice(src, Offset(st), |r.out|)
      && (st.pos < |src.data| && want <= |src.data| - st.pos ==> r.state.calls == st.calls)
  {
  }

  /** The data is handed out even by a Read that fails: what it could copy is copied and counted. */
  lemma FailureKeepsData(src: Source, st: State, want: nat)
    requires Coherent(src, st) && ReadStep(src, st, want).failed
    ensures
      var r := ReadStep(src, st, want);
      && r.state.pos == |src.data|
      && |r.out| >= |src.data| - st.pos
      && r.out[..|src.data| - st.pos] == src.data[st.pos..]
  {
  }

  // ----- whole runs -----

  function Outputs(src: Source, st: State, wants: seq<nat>): seq<seq<Octet>>
    requires st.pos <= |src.data|
    decreases |wants|
  {
    if wants == [] then []
    else
      var r := ReadStep(src, st, wants[0]);
      [r.out] + Outputs(src, r.state, wants[1..])
  }

  function Final(src: Source, st: State, wants: seq<nat>): State
    requires st.pos <= |src.data|
    decreases |wants|
  {
    if wants == [] then st else Final(src, ReadStep(src, st, wants[0]).state, wants[1..])
  }

  function Sum(ns: seq<nat>): nat {
    if ns == [] then 0 else ns[0] + Sum(ns[1..])
  }

  lemma SlicesMeet(src: Source, from: nat, a: seq<Octet>, b: seq<Octet>)
    requires a == Slice(src, from, |a|) && b == Slice(src, from + |a|, |b|)
    ensures a + b == Slice(src, from, |a + b|)
  {
  }

  lemma {:induction false} RunStaysCoherent(src: Source, st: State, wants: seq<nat>)
    requires Coherent(src, st)
    ensures Coherent(src, Final(src, st, wants))
    ensures Offset(Final(src, st, wants)) == Offset(st) + |Flatten(Outputs(src, st, wants))|
    decreases |wants|
  {
    if wants != [] {
      var r := ReadStep(src, st, wants[0]);
      ReadAdvances(src, st, wants[0]);
      RunStaysCoherent(src, r.state, wants[1..]);
      FlattenFirst(r.out, Outputs(src, r.state, wants[1..]));
    }
  }

  /** The reader refines the stream. Over every sequence of Reads of any sizes, failures
      included, the concatenated output is the next piece of the data followed by entropy. */
  lemma {:induction false} RunReadsStream(src: Source, st: State, wants: seq<nat>)
    requires Coherent(src, st)
    ensures Flatten(Outputs(src, st, wants)) ==
      Slice(src, Offset(st), |Flatten(Outputs(src, st, wants))|)
    decreases |wants|
  {
    if wants != [] {
      var r := ReadStep(src, st, wants[0]);
      var rest := Outputs(src, r.state, wants[1..]);
      ReadAdvances(src, st, wants[0]);
      RunReadsStream(src, r.state, wants[1..]);
      FlattenFirst(r.out, rest);
      SlicesMeet(src, Offset(st), r.out, Flatten(rest));
    }
  }

  /** The position is the smaller of the data's length and the bytes asked for, and no more
      bytes are handed out than were asked for. */
  lemma {:induction false} RunPosition(src: Source, st: State, wants: seq<nat>)
    requires Coherent(src, st)
    ensures |Flatten(Outputs(src, st, wants))| <= Sum(wants)
    ensures Final(src, st, wants).pos ==
      if st.pos + Sum(wants) < |src.data| then st.pos + Sum(wants) else |src.data|
    decreases |wants|
  {
    if wants != [] {
      var r := ReadStep(src, st, wants[0]);
      ReadAdvances(src, st, wants[0]);
      RunPosition(src, r.state, wants[1..]);
      FlattenFirst(r.out, Outputs(src, r.state, wants[1..]));
    }
  }

  ghost predicate NeverFails(supply: Supply) {
    forall call, n :: supply(call, n) >= n
  }

  lemma {:induction false} FullRun(src: Source, st: State, wants: seq<nat>)
    requires Coherent(src, st) && NeverFails(src.supply)
    ensures |Flatten(Outputs(src, st, wants))| == Sum(wants)
    decreases |wants|
  {
    if wants != [] {
      var r := ReadStep(src, st, wants[0]);
      ReadAdvances(src, st, wants[0]);
      assert |r.out| == wants[0] by {
        var left := |src.data| - st.pos;
        var copied := if left < wants[0] then left else wants[0];
        assert src.supply(st.calls, wants[0] - copied) >= wants[0] - copied;
      }
      FullRun(src, r.state, wants[1..]);
      FlattenFirst(r.out, Outputs(src, r.state, wants[1..]));
    }
  }

  /** How the Reads are cut is irrelevant: over a source that does not fail, any two sequences of
      buffer sizes with the same total give the same bytes and leave the reader, and the entropy
      stream, at the same place. */
  lemma ChunkingIsIrrelevant(src: Source, st: State, wants1: seq<nat>, wants2: seq<nat>)
    requires Coherent(src, st) && NeverFails(src.supply)
    requires Sum(wants1) == Sum(wants2)
    ensures Flatten(Outputs(src, st, wants1)) == Flatten(Outputs(src, st, wants2))
    ensures Final(src, st, wants1).pos == Final(src, st, wants2).pos
    ensures Final(src, st, wants1).taken == Final(src, st, wants2).taken
  {
    RunReadsStream(src, st, wants1);
    RunReadsStream(src, st, wants2);
    RunStaysCoherent(src, st, wants1);
    RunStaysCoherent(src, st, wants2);
    RunPosition(src, st, wants1);
    RunPosition(src, st, wants2);
    FullRun(src, st, wants1);
    FullRun(src, st, wants2);
  }
}
