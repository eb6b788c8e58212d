/** internal/client/splittls/splittls.go: a connection that cuts a TLS ClientHello in two.

    The base connection is any writer that keeps the promise of Go's io.Writer; what it answers
    may depend on how often it was called and on the bytes. Its writes, and the pauses between
    them, go to an append-only trace. */
module SplitTls {
  import opened Seqs

  type ErrorCode = nat

  /** What a Write returns: the count and the error, if any. */
  datatype Reply = Reply(n: nat, err: Option<ErrorCode>)

  type Responder = (nat, seq<Octet>) -> Reply

  /** io.Writer: at most the given bytes are written, and fewer only with an error. */
  ghost predicate KeepsWriterPromise(respond: Responder) {
    forall i, b :: respond(i, b).n <= |b| && (respond(i, b).n < |b| ==> respond(i, b).err.Some?)
  }

  datatype Event = Sent(data: seq<Octet>, reply: Reply) | Pause(milliseconds: int)

  /** The base writes in a trace. */
  function Writes(trace: seq<Event>): (n: nat)
    ensures n <= |trace|
  {
    if trace == [] then 0 else (if trace[0].Sent? then 1 else 0) + Writes(trace[1..])
  }

  function Pauses(trace: seq<Event>): nat {
    |trace| - Writes(trace)
  }

  /** The bytes that an event put on the wire. */
  function WireOf(e: Event): seq<Octet> {
    match e
    case Sent(data, reply) => if reply.n <= |data| then data[..reply.n] else data
    case Pause(_) => []
  }

  function Wire(trace: seq<Event>): seq<Octet> {
    FlatMap(WireOf, trace)
  }

  lemma {:induction false} TraceAppend(a: seq<Event>, b: seq<Event>)
    ensures Writes(a + b) == Writes(a) + Writes(b)
    ensures Wire(a + b) == Wire(a) + Wire(b)
  {
    FlatMapAppend(WireOf, a, b);
    if a == [] {
      assert a + b == b;
    } else {
      assert (a + b)[1..] == a[1..] + b;
      TraceAppend(a[1..], b);
    }
  }

  class BaseConn {
    const respond: Responder
    var trace: seq<Event>

    constructor (respond: Responder)
      ensures this.respond == respond && trace == []
    {
      this.respond := respond;
      trace := [];
    }

    method Write(b: seq<Octet>) returns (n: nat, err: Option<ErrorCode>)
      modifies this
      ensures Reply(n, err) == respond(Writes(old(trace)), b)
      ensures trace == old(trace) + [Sent(b, Reply(n, err))]
    {
      var reply := respond(CountWrites(), b);
      trace := trace + [Sent(b, reply)];
      return reply.n, reply.err;
    }

    /** time.Sleep, which leaves a mark here instead of taking time. */
    method Sleep(milliseconds: int)
      modifies this
      ensures trace == old(trace) + [Pause(milliseconds)]
    {
      trace := trace + [Pause(milliseconds)];
    }

    function CountWrites(): nat
      reads this
    {
      Writes(trace)
    }
  }

  /** The outcome of one Write. A chunk size beyond the end of the buffer makes Go panic: the
      second slice, which starts there, is out of range. */
  datatype Outcome = Returned(n: nat, err: Option<ErrorCode>) | Panicked

  /** Handshake record (section 5.1 of RFC 8446) that starts with a client_hello (section 4). */
  predicate LooksLikeClientHello(b: seq<Octet>) {
    |b| >= 6 && b[0] == 0x16 && b[1] == 0x03 && b[5] == 0x01
  }

  /** The shortest buffer taken for a ClientHello. */
  const HELLO: seq<Octet> := [0x16, 0x03, 0x01, 0x00, 0x02, 0x01]

  /** The settings of one connection. */
  datatype Link = Link(size: int, delay: int, respond: Responder)

  // ----- one Write as a function -----

  /** The Write splits: it is one of the first five and looks like a ClientHello. */
  predicate Splits(cnt: nat, b: seq<Octet>) {
    cnt < 5 && LooksLikeClientHello(b)
  }

  function PauseOf(delay: int): seq<Event> {
    if delay > 0 then [Pause(delay)] else []
  }

  /** The base write of the first chunk. */
  function Head(link: Link, calls: nat, b: seq<Octet>): Event
    requires 0 < link.size <= |b|
  {
    Sent(b[..link.size], link.respond(calls, b[..link.size]))
  }

  /** The base write of the second chunk. */
  function Second(link: Link, calls: nat, b: seq<Octet>): Event
    requires 0 < link.size <= |b|
  {
    Sent(b[link.size..], link.respond(calls + 1, b[link.size..]))
  }

  lemma WritesBehindHead(before: seq<Event>, first: Event, delay: int)
    requires first.Sent?
    ensures Writes(before + ([first] + PauseOf(delay))) == Writes(before) + 1
  {
    TraceAppend(before, [first] + PauseOf(delay));
    TraceAppend([first], PauseOf(delay));
    assert [first][1..] == [];
    if delay > 0 { assert PauseOf(delay)[1..] == []; }
  }

  /** What a Write adds to the trace, given the Writes before it and the base writes so far. */
  function EventsOf(link: Link, cnt: nat, calls: nat, b: seq<Octet>): seq<Event>
    requires link.size > 0
  {
    if !Splits(cnt, b) then [Sent(b, link.respond(calls, b))]
    else if link.size > |b| then []
    else
      var first := Head(link, calls, b);
      if first.reply.err.Some? then [first]
      else [first] + PauseOf(link.delay) + [Second(link, calls, b)]
  }

  function OutcomeOf(link: Link, cnt: nat, calls: nat, b: seq<Octet>): Outcome
    requires link.size > 0
  {
    if !Splits(cnt, b) then Returned(link.respond(calls, b).n, link.respond(calls, b).err)
    else if link.size > |b| then Panicked
    else
      var first := Head(link, calls, b).reply;
      if first.err.Some? then Returned(0, first.err)
      else
        var second := Second(link, calls, b).reply;
        if second.err.Some? then Returned(first.n, second.err) else Returned(first.n + second.n, None)
  }

  class SplitTLSConn {
    const baseConn: BaseConn
    const firstChunkSize: int
    const delay: int
    var writeCnt: nat
    var splitDone: bool

    /** Only CreateDialFunc makes one, and createDialFunc calls it for a positive size only. */
    constructor (baseConn: BaseConn, firstChunkSize: int, delay: int)
      requires firstChunkSize > 0
      ensures this.baseConn == baseConn && this.firstChunkSize == firstChunkSize && this.delay == delay
      ensures Valid() && writeCnt == 0
    {
      this.baseConn := baseConn;
      this.firstChunkSize := firstChunkSize;
      this.delay := delay;
      writeCnt := 0;
      splitDone := false;
    }

    ghost predicate Valid()
      reads this
    {
      firstChunkSize > 0 && !splitDone
    }

    function AsLink(): Link {
      Link(firstChunkSize, delay, baseConn.respond)
    }

    predicate IsClientHello(b: seq<Octet>)
      reads this
    {
      if writeCnt > 5 || splitDone || |b| < 6 then false
      else if b[0] != 0x16 then false
      else if b[1] != 0x03 then false
      else if b[5] != 0x01 then false
      else true
    }

    method Write(b: seq<Octet>) returns (r: Outcome)
      requires Valid()
      modifies this, baseConn
      ensures Valid() && writeCnt == old(writeCnt) + 1
      ensures r == OutcomeOf(AsLink(), old(writeCnt), Writes(old(baseConn.trace)), b)
      ensures baseConn.trace ==
        old(baseConn.trace) + EventsOf(AsLink(), old(writeCnt), Writes(old(baseConn.trace)), b)
    {
      writeCnt := writeCnt + 1;
      if IsClientHello(b) {
        if firstChunkSize > |b| {
          return Panicked;
        }
        var chunks := [b[..firstChunkSize], b[firstChunkSize..]];
        var n: nat, err := 0, None;
        ghost var before, calls := baseConn.trace, Writes(baseConn.trace);
        ghost var first := Head(AsLink(), calls, b);
        ghost var between := [first] + PauseOf(delay);
        WritesBehindHead(before, first, delay);
        for i := 0 to |chunks|
          invariant Valid() && writeCnt == old(writeCnt) + 1 && err == None
          invariant i == 0 ==> n == 0 && baseConn.trace == before
          invariant i >= 1 ==> first.reply.err == None
          invariant i == 1 ==> n == first.reply.n && baseConn.trace == before + between
          invariant i == 2 ==> (
            var second := Second(AsLink(), calls, b);
            && second.reply.err == None && n == first.reply.n + second.reply.n
            && baseConn.trace == before + between + [second])
        {
          var l: nat;
          l, err := baseConn.Write(chunks[i]);
          if err != None {
            return Returned(n, err);
          }
          n := n + l;
          if delay > 0 && i < |chunks| - 1 {
            baseConn.Sleep(delay);
          }
        }
        return Returned(n, err);
      }
      var n, err := baseConn.Write(b);
      return Returned(n, err);
    }
  }

  // ----- what the peer sees of one Write -----

  /** The reply of the last base write that a Write makes. */
  function LastReply(link: Link, cnt: nat, calls: nat, b: seq<Octet>): Reply
    requires link.size > 0 && !OutcomeOf(link, cnt, calls, b).Panicked?
  {
    if !Splits(cnt, b) then link.respond(calls, b)
    else if Head(link, calls, b).reply.err.Some? then Head(link, calls, b).reply
    else Second(link, calls, b).reply
  }

  lemma WireOfSent(data: seq<Octet>, reply: Reply, rest: seq<Event>)
    requires reply.n <= |data|
    ensures Wire([Sent(data, reply)] + rest) == data[..reply.n] + Wire(rest)
  {
    assert ([Sent(data, reply)] + rest)[1..] == rest;
  }

  lemma WireOfSecond(link: Link, calls: nat, b: seq<Octet>)
    requires 0 < link.size <= |b| && KeepsWriterPromise(link.respond)
    ensures Wire(PauseOf(link.delay) + [Second(link, calls, b)]) == b[link.size..][..Second(link, calls, b).reply.n]
  {
    var second := Second(link, calls, b);
    TraceAppend(PauseOf(link.delay), [second]);
    assert link.respond(calls + 1, b[link.size..]).n <= |b[link.size..]|;
    assert [second] == [Sent(second.data, second.reply)] + [];
    WireOfSent(second.data, second.reply, []);
    if link.delay > 0 { assert PauseOf(link.delay)[1..] == []; }
  }

  /** A Write puts a prefix of its buffer on the wire: all of it, fully counted, when it
      succeeds, and never less than it reports when it fails. What it reports on failure is
      exact except when a split loses the partial count of the base write that failed. */
  lemma WriteDelivers(link: Link, cnt: nat, calls: nat, b: seq<Octet>)
    requires link.size > 0 && KeepsWriterPromise(link.respond)
    ensures Wire(EventsOf(link, cnt, calls, b)) <= b
    ensures OutcomeOf(link, cnt, calls, b).Panicked? ==> Wire(EventsOf(link, cnt, calls, b)) == []
    ensures
      var o := OutcomeOf(link, cnt, calls, b);
      o.Returned? && o.err == None ==> o.n == |b| && Wire(EventsOf(link, cnt, calls, b)) == b
    ensures
      var o := OutcomeOf(link, cnt, calls, b);
      o.Returned? ==> o.n <= |Wire(EventsOf(link, cnt, calls, b))|
    ensures
      var o := OutcomeOf(link, cnt, calls, b);
      o.Returned? && o.err.Some? ==>
        (o.n == |Wire(EventsOf(link, cnt, calls, b))|
         <==> (Splits(cnt, b) ==> LastReply(link, cnt, calls, b).n == 0))
  {
    var events := EventsOf(link, cnt, calls, b);
    if !Splits(cnt, b) {
      assert link.respond(calls, b).n <= |b|;
      assert events == [Sent(b, link.respond(calls, b))] + [];
      WireOfSent(b, link.respond(calls, b), []);
    } else if link.size <= |b| {
      var first := Head(link, calls, b);
      assert link.respond(calls, b[..link.size]).n <= link.size;
      if first.reply.err.Some? {
        assert events == [Sent(first.data, first.reply)] + [];
        WireOfSent(first.data, first.reply, []);
      } else {
        assert first.reply.n == link.size;
        WireOfSecond(link, calls, b);
        var rest := PauseOf(link.delay) + [Second(link, calls, b)];
        assert events == [Sent(first.data, first.reply)] + rest;
        WireOfSent(first.data, first.reply, rest);
        assert link.respond(calls + 1, b[link.size..]).n <= |b[link.size..]|;
        assert b == b[..link.size] + b[link.size..];
      }
    }
  }

  /** A Write that returns reports as many bytes as it put on the wire. */
  predicate CountIsExact(link: Link, cnt: nat, calls: nat, b: seq<Octet>)
    requires link.size > 0
  {
    var o := OutcomeOf(link, cnt, calls, b);
    o.Returned? ==> o.n == |Wire(EventsOf(link, cnt, calls, b))|
  }

  /** A base connection that takes one byte and fails. */
  const TAKES_ONE: Responder := (i: nat, b: seq<Octet>) => if b == [] then Reply(0, None) else Reply(1, Some(0))

  lemma FirstChunkLosesOne(size: int, delay: int, cnt: nat, b: seq<Octet>)
    requires 0 < size <= |b| && Splits(cnt, b)
    ensures !CountIsExact(Link(size, delay, TAKES_ONE), cnt, 0, b)
  {
    var link := Link(size, delay, TAKES_ONE);
    assert EventsOf(link, cnt, 0, b) == [Head(link, 0, b)];
    FlatMapOne(WireOf, Head(link, 0, b));
  }

  /** What a caller can tell before a Write: its count can be relied on, whatever the base
      connection does, if and only if the Write does not split, or panics for want of bytes. */
  lemma CountIsExactIff(size: int, delay: int, cnt: nat, b: seq<Octet>)
    requires size > 0
    ensures (forall respond: Responder, calls: nat ::
               KeepsWriterPromise(respond) ==> CountIsExact(Link(size, delay, respond), cnt, calls, b))
      <==> !Splits(cnt, b) || size > |b|
  {
    if Splits(cnt, b) && size <= |b| {
      FirstChunkLosesOne(size, delay, cnt, b);
      assert KeepsWriterPromise(TAKES_ONE);
    } else {
      forall respond: Responder, calls: nat | KeepsWriterPromise(respond)
        ensures CountIsExact(Link(size, delay, respond), cnt, calls, b)
      {
        WriteDelivers(Link(size, delay, respond), cnt, calls, b);
      }
    }
  }

  /** A base connection that takes the first chunk, then one byte more, and fails. */
  const FAILS_LATE: Responder := (i: nat, b: seq<Octet>) =>
    if i == 0 then Reply(|b|, None) else Reply(if b == [] then 0 else 1, Some(0))

  /** A failing Write whose count is too low: three bytes are sent, two are reported. */
  lemma PartialCountIsLost()
    ensures
      var link := Link(2, 0, FAILS_LATE);
      && KeepsWriterPromise(link.respond)
      && OutcomeOf(link, 0, 0, HELLO) == Returned(2, Some(0))
      && Wire(EventsOf(link, 0, 0, HELLO)) == HELLO[..3]
  {
    var link := Link(2, 0, FAILS_LATE);
    var first, second := Head(link, 0, HELLO), Second(link, 0, HELLO);
    assert EventsOf(link, 0, 0, HELLO) == [first] + ([] + [second]);
    FlatMapAppend(WireOf, [first], [second]);
    FlatMapOne(WireOf, first);
    FlatMapOne(WireOf, second);
    assert HELLO[..2] + HELLO[2..][..1] == HELLO[..3];
  }

  /** A completed split is two base writes, of the first size bytes and of the others, with one
      pause between them exactly when a delay is set. */
  lemma CompletedSplit(link: Link, cnt: nat, calls: nat, b: seq<Octet>)
    requires link.size > 0 && KeepsWriterPromise(link.respond)
    requires Splits(cnt, b) && OutcomeOf(link, cnt, calls, b) == Returned(|b|, None)
    ensures link.size <= |b|
    ensures EventsOf(link, cnt, calls, b) ==
      [Sent(b[..link.size], Reply(link.size, None))] +
      (if link.delay > 0 then [Pause(link.delay)] else []) +
      [Sent(b[link.size..], Reply(|b| - link.size, None))]
  {
    assert link.respond(calls, b[..link.size]).n <= link.size;
    assert link.respond(calls + 1, b[link.size..]).n <= |b[link.size..]|;
  }

  /** The bytes of a TLS record (section 5.1 of RFC 8446) with a handshake message in it. */
  function Record(kind: Octet, major: Octet, minor: Octet, length: (Octet, Octet), message: Octet, rest: seq<Octet>)
    : seq<Octet>
  {
    [kind, major, minor, length.0, length.1, message] + rest
  }

  /** Every buffer of six bytes or more is such a text. */
  lemma EveryBufferIsARecord(b: seq<Octet>)
    requires |b| >= 6
    ensures b == Record(b[0], b[1], b[2], (b[3], b[4]), b[5], b[6..])
  {
  }

  /** What a Write does is decided by three bytes, of whatever record, and by its number. A
      handshake record of major version 3 with a client_hello among the first five Writes is cut,
      or panics where it is shorter than the first chunk; every other buffer is passed on. */
  lemma RecordDecides(link: Link, cnt: nat, calls: nat, kind: Octet, major: Octet, minor: Octet,
                      length: (Octet, Octet), message: Octet, rest: seq<Octet>)
    requires link.size > 0
    ensures
      var b := Record(kind, major, minor, length, message, rest);
      var events, o := EventsOf(link, cnt, calls, b), OutcomeOf(link, cnt, calls, b);
      if kind == 22 && major == 3 && message == 1 && cnt < 5 then
        if |b| < link.size then events == [] && o == Panicked
        else events != [] && events[0] == Sent(b[..link.size], link.respond(calls, b[..link.size]))
      else
        var reply := link.respond(calls, b);
        events == [Sent(b, reply)] && o == Returned(reply.n, reply.err)
  {
  }

  lemma ShortBufferIsPassedOn(link: Link, cnt: nat, calls: nat, b: seq<Octet>)
    requires link.size > 0 && |b| < 6
    ensures
      var reply := link.respond(calls, b);
      && EventsOf(link, cnt, calls, b) == [Sent(b, reply)]
      && OutcomeOf(link, cnt, calls, b) == Returned(reply.n, reply.err)
  {
  }

  /** A base connection that takes everything. */
  const TAKES_ALL: Responder := (i: nat, b: seq<Octet>) => Reply(|b|, None)

  lemma EventsPerWrite(link: Link, cnt: nat, calls: nat, b: seq<Octet>)
    requires link.size > 0
    ensures
      var events := EventsOf(link, cnt, calls, b);
      var extra := if Splits(cnt, b) then 1 else 0;
      && Writes(events) <= 1 + extra && Pauses(events) <= extra
      && (OutcomeOf(link, cnt, calls, b).Returned? && OutcomeOf(link, cnt, calls, b).err == None ==>
            Writes(events) == 1 + extra && Pauses(events) == if link.delay > 0 then extra else 0)
  {
    var events := EventsOf(link, cnt, calls, b);
    if !Splits(cnt, b) {
      assert events[1..] == [];
    } else if link.size <= |b| {
      var first := Head(link, calls, b);
      if first.reply.err.Some? {
        assert events[1..] == [];
      } else {
        var second := Second(link, calls, b);
        WritesBehindHead([], first, link.delay);
        TraceAppend([first] + PauseOf(link.delay), [second]);
        assert [] + ([first] + PauseOf(link.delay)) == [first] + PauseOf(link.delay);
        assert [second][1..] == [];
      }
    }
  }

  /** Over a base connection that takes everything, and with a size that fits, there are two base
      writes exactly for such a record, with the configured pause between them. */
  lemma TwoWritesIff(size: int, delay: int, cnt: nat, calls: nat, kind: Octet, major: Octet, minor: Octet,
                     length: (Octet, Octet), message: Octet, rest: seq<Octet>)
    requires 0 < size <= 6 + |rest|
    ensures
      var b := Record(kind, major, minor, length, message, rest);
      var events := EventsOf(Link(size, delay, TAKES_ALL), cnt, calls, b);
      var hello := kind == 22 && major == 3 && message == 1 && cnt < 5;
      var cut := [Sent(b[..size], Reply(size, None))] +
                 (if delay > 0 then [Pause(delay)] else []) +
                 [Sent(b[size..], Reply(|b| - size, None))];
      && (Writes(events) == 2 <==> hello) && (Writes(events) == 1 <==> !hello)
      && events == (if hello then cut else [Sent(b, Reply(|b|, None))])
  {
    var link := Link(size, delay, TAKES_ALL);
    var b := Record(kind, major, minor, length, message, rest);
    EventsPerWrite(link, cnt, calls, b);
    RecordDecides(link, cnt, calls, kind, major, minor, length, message, rest);
    if kind == 22 && major == 3 && message == 1 && cnt < 5 {
      assert OutcomeOf(link, cnt, calls, b) == Returned(|b|, None);
      CompletedSplit(link, cnt, calls, b);
    }
  }

  /** The error is that of the last base write; none is made after one that failed. */
  lemma ErrorIsOfTheLastWrite(link: Link, cnt: nat, calls: nat, b: seq<Octet>)
    requires link.size > 0 && OutcomeOf(link, cnt, calls, b).Returned?
    ensures
      var events := EventsOf(link, cnt, calls, b);
      && events != [] && events[|events| - 1].Sent?
      && OutcomeOf(link, cnt, calls, b).err == events[|events| - 1].reply.err
      && forall i :: 0 <= i < |events| - 1 && events[i].Sent? ==> events[i].reply.err == None
  {
  }

  // ----- whole runs -----

  datatype State = State(cnt: nat, trace: seq<Event>)

  function Step(link: Link, st: State, b: seq<Octet>): State
    requires link.size > 0
  {
    State(st.cnt + 1, st.trace + EventsOf(link, st.cnt, Writes(st.trace), b))
  }

  function StepOutcome(link: Link, st: State, b: seq<Octet>): Outcome
    requires link.size > 0
  {
    OutcomeOf(link, st.cnt, Writes(st.trace), b)
  }

  /** The outcomes of a sequence of Writes on one connection; a panic ends the run. */
  function Outcomes(link: Link, st: State, bs: seq<seq<Octet>>): seq<Outcome>
    requires link.size > 0
    decreases |bs|
  {
    if bs == [] then []
    else if StepOutcome(link, st, bs[0]).Panicked? then [Panicked]
    else [StepOutcome(link, st, bs[0])] + Outcomes(link, Step(link, st, bs[0]), bs[1..])
  }

  function Final(link: Link, st: State, bs: seq<seq<Octet>>): State
    requires link.size > 0
    decreases |bs|
  {
    if bs == [] then st
    else if StepOutcome(link, st, bs[0]).Panicked? then Step(link, st, bs[0])
    else Final(link, Step(link, st, bs[0]), bs[1..])
  }

  /** What each Write of the run puts on the wire. */
  function Delivered(link: Link, st: State, bs: seq<seq<Octet>>): seq<seq<Octet>>
    requires link.size > 0
    decreases |bs|
  {
    if bs == [] then []
    else
      var sent := Wire(EventsOf(link, st.cnt, Writes(st.trace), bs[0]));
      if StepOutcome(link, st, bs[0]).Panicked? then [sent]
      else [sent] + Delivered(link, Step(link, st, bs[0]), bs[1..])
  }

  /** Delivery of one Write: a prefix of the buffer, no shorter than the count returned, and all
      of it, exactly counted, on success. */
  predicate DeliveredWell(o: Outcome, b: seq<Octet>, sent: seq<Octet>) {
    && sent <= b
    && (o.Panicked? ==> sent == [])
    && (o.Returned? ==> o.n <= |sent|)
    && (o.Returned? && o.err == None ==> o.n == |b| && sent == b)
  }

  /** Splitting is invisible. In every run, over every base connection, the wire grows by the
      deliveries of the Writes, in order and with nothing between them. */
  lemma {:induction false} RunDelivers(link: Link, st: State, bs: seq<seq<Octet>>)
    requires link.size > 0 && KeepsWriterPromise(link.respond)
    ensures |Delivered(link, st, bs)| == |Outcomes(link, st, bs)| <= |bs|
    ensures Wire(Final(link, st, bs).trace) == Wire(st.trace) + Flatten(Delivered(link, st, bs))
    ensures forall i :: 0 <= i < |Outcomes(link, st, bs)| ==>
      DeliveredWell(Outcomes(link, st, bs)[i], bs[i], Delivered(link, st, bs)[i])
    decreases |bs|
  {
    if bs != [] {
      WriteDelivers(link, st.cnt, Writes(st.trace), bs[0]);
      TraceAppend(st.trace, EventsOf(link, st.cnt, Writes(st.trace), bs[0]));
      var next := Step(link, st, bs[0]);
      var sent := Wire(EventsOf(link, st.cnt, Writes(st.trace), bs[0]));
      if StepOutcome(link, st, bs[0]).Panicked? {
        FlattenFirst(sent, []);
      } else {
        RunDelivers(link, next, bs[1..]);
        var rest := Delivered(link, next, bs[1..]);
        FlattenFirst(sent, rest);
        Assoc(Wire(st.trace), sent, Flatten(rest));
      }
    }
  }

  /** When every Write succeeds, the peer receives the concatenation of the buffers. */
  lemma {:induction false} SuccessfulRunIsTransparent(link: Link, st: State, bs: seq<seq<Octet>>)
    requires link.size > 0 && KeepsWriterPromise(link.respond)
    requires |Outcomes(link, st, bs)| == |bs|
    requires forall o :: o in Outcomes(link, st, bs) ==> o.Returned? && o.err == None
    ensures Wire(Final(link, st, bs).trace) == Wire(st.trace) + Flatten(bs)
    ensures forall i :: 0 <= i < |bs| ==> Outcomes(link, st, bs)[i] == Returned(|bs[i]|, None)
  {
    RunDelivers(link, st, bs);
    assert forall i :: 0 <= i < |bs| ==> Outcomes(link, st, bs)[i] in Outcomes(link, st, bs);
    assert Delivered(link, st, bs) == bs;
  }

  /** How many of the Writes split. */
  function SplitCount(cnt: nat, bs: seq<seq<Octet>>): nat
    decreases |bs|
  {
    if bs == [] then 0 else (if Splits(cnt, bs[0]) then 1 else 0) + SplitCount(cnt + 1, bs[1..])
  }

  lemma {:induction false} SplitBound(cnt: nat, bs: seq<seq<Octet>>)
    ensures SplitCount(cnt, bs) <= if cnt < 5 then 5 - cnt else 0
    decreases |bs|
  {
    if bs != [] {
      SplitBound(cnt + 1, bs[1..]);
    }
  }

  /** Over a whole run at most five Writes split (fewer when some were made before), and the base
      connection sees at most one write more, and one pause, for each of them. */
  lemma {:induction false} RunBounds(link: Link, st: State, bs: seq<seq<Octet>>)
    requires link.size > 0
    ensures SplitCount(st.cnt, bs) <= if st.cnt < 5 then 5 - st.cnt else 0
    ensures Writes(Final(link, st, bs).trace) <= Writes(st.trace) + |bs| + SplitCount(st.cnt, bs)
    ensures Pauses(Final(link, st, bs).trace) <= Pauses(st.trace) + SplitCount(st.cnt, bs)
    decreases |bs|
  {
    SplitBound(st.cnt, bs);
    if bs != [] {
      EventsPerWrite(link, st.cnt, Writes(st.trace), bs[0]);
      TraceAppend(st.trace, EventsOf(link, st.cnt, Writes(st.trace), bs[0]));
      RunBounds(link, Step(link, st, bs[0]), bs[1..]);
    }
  }

  /** When every Write succeeds the counts are exact. */
  lemma {:induction false} SuccessfulRunCounts(link: Link, st: State, bs: seq<seq<Octet>>)
    requires link.size > 0 && |Outcomes(link, st, bs)| == |bs|
    requires forall i :: 0 <= i < |bs| ==> Outcomes(link, st, bs)[i].Returned? && Outcomes(link, st, bs)[i].err == None
    ensures Writes(Final(link, st, bs).trace) == Writes(st.trace) + |bs| + SplitCount(st.cnt, bs)
    ensures Pauses(Final(link, st, bs).trace) ==
      Pauses(st.trace) + if link.delay > 0 then SplitCount(st.cnt, bs) else 0
    decreases |bs|
  {
    if bs != [] {
      var next := Step(link, st, bs[0]);
      assert Outcomes(link, st, bs)[0] == StepOutcome(link, st, bs[0]);
      EventsPerWrite(link, st.cnt, Writes(st.trace), bs[0]);
      TraceAppend(st.trace, EventsOf(link, st.cnt, Writes(st.trace), bs[0]));
      assert Outcomes(link, st, bs)[1..] == Outcomes(link, next, bs[1..]);
      forall i | 0 <= i < |bs[1..]|
        ensures Outcomes(link, next, bs[1..])[i].Returned? && Outcomes(link, next, bs[1..])[i].err == None
      {
        assert Outcomes(link, next, bs[1..])[i] == Outcomes(link, st, bs)[i + 1];
      }
      SuccessfulRunCounts(link, next, bs[1..]);
    }
  }

  /** The trace of the same Writes made on the base connection directly. */
  function DirectTrace(respond: Responder, calls: nat, bs: seq<seq<Octet>>): seq<Event>
    decreases |bs|
  {
    if bs == [] then [] else [Sent(bs[0], respond(calls, bs[0]))] + DirectTrace(respond, calls + 1, bs[1..])
  }

  function DirectOutcomes(respond: Responder, calls: nat, bs: seq<seq<Octet>>): seq<Outcome>
    decreases |bs|
  {
    if bs == [] then []
    else [Returned(respond(calls, bs[0]).n, respond(calls, bs[0]).err)] + DirectOutcomes(respond, calls + 1, bs[1..])
  }

  /** Where no Write splits, the connection is the base connection: the same base writes, the
      same answers. */
  lemma {:induction false} WithoutSplitsDirect(link: Link, st: State, bs: seq<seq<Octet>>)
    requires link.size > 0 && SplitCount(st.cnt, bs) == 0
    ensures Final(link, st, bs).trace == st.trace + DirectTrace(link.respond, Writes(st.trace), bs)
    ensures Outcomes(link, st, bs) == DirectOutcomes(link.respond, Writes(st.trace), bs)
    decreases |bs|
  {
    if bs != [] {
      var sent := [Sent(bs[0], link.respond(Writes(st.trace), bs[0]))];
      var next := Step(link, st, bs[0]);
      assert next.trace == st.trace + sent;
      TraceAppend(st.trace, sent);
      assert sent[1..] == [];
      WithoutSplitsDirect(link, next, bs[1..]);
      assert (st.trace + sent) + DirectTrace(link.respond, Writes(next.trace), bs[1..]) ==
        st.trace + (sent + DirectTrace(link.respond, Writes(next.trace), bs[1..]));
    }
  }

  /** From the sixth Write on, nothing splits. */
  lemma FromTheSixthDirect(link: Link, st: State, bs: seq<seq<Octet>>)
    requires link.size > 0 && st.cnt >= 5
    ensures Final(link, st, bs).trace == st.trace + DirectTrace(link.respond, Writes(st.trace), bs)
    ensures Outcomes(link, st, bs) == DirectOutcomes(link.respond, Writes(st.trace), bs)
  {
    SplitBound(st.cnt, bs);
    WithoutSplitsDirect(link, st, bs);
  }

  /** A run panics exactly when some Write that splits is shorter than the first chunk. */
  lemma {:induction false} PanicsExactly(link: Link, st: State, bs: seq<seq<Octet>>)
    requires link.size > 0
    ensures Panicked in Outcomes(link, st, bs) <==>
      exists i | 0 <= i < |bs| :: Splits(st.cnt + i, bs[i]) && |bs[i]| < link.size
    decreases |bs|
  {
    if bs != [] {
      if StepOutcome(link, st, bs[0]).Panicked? {
        assert Splits(st.cnt + 0, bs[0]) && |bs[0]| < link.size;
      } else {
        var next := Step(link, st, bs[0]);
        PanicsExactly(link, next, bs[1..]);
        if i :| 0 <= i < |bs| && Splits(st.cnt + i, bs[i]) && |bs[i]| < link.size {
          assert Splits(next.cnt + (i - 1), bs[1..][i - 1]);
        }
        if i :| 0 <= i < |bs[1..]| && Splits(next.cnt + i, bs[1..][i]) && |bs[1..][i]| < link.size {
          assert Splits(st.cnt + (i + 1), bs[i + 1]);
        }
      }
    }
  }

  /** The field comment says that splitting ends with the first ClientHello, but splitDone is
      never set. At most one Write splits exactly when the first five hold at most one
      ClientHello. */
  lemma {:induction false} SplitsOnceIff(cnt: nat, bs: seq<seq<Octet>>)
    ensures SplitCount(cnt, bs) == 0 <==> forall i :: 0 <= i < |bs| ==> !Splits(cnt + i, bs[i])
    ensures SplitCount(cnt, bs) <= 1 <==>
      forall i, j :: 0 <= i < j < |bs| && cnt + j < 5 ==> !LooksLikeClientHello(bs[i]) || !LooksLikeClientHello(bs[j])
    decreases |bs|
  {
    if bs != [] {
      var rest := bs[1..];
      SplitsOnceIff(cnt + 1, rest);
      assert forall i :: 0 <= i < |rest| ==> rest[i] == bs[i + 1];
      if !Splits(cnt, bs[0]) && cnt < 5 {
        assert forall i :: 0 <= i < |rest| ==> (Splits(cnt + 1 + i, rest[i]) <==> Splits(cnt + (i + 1), bs[i + 1]));
      }
    }
  }

  lemma {:induction false} SplitHellos(cnt: nat, n: nat)
    ensures SplitCount(cnt, seq(n, _ => HELLO)) == if cnt >= 5 then 0 else if cnt + n < 5 then n else 5 - cnt
    decreases n
  {
    if n > 0 {
      assert seq(n, _ => HELLO)[1..] == seq(n - 1, _ => HELLO);
      SplitHellos(cnt + 1, n - 1);
    }
  }

  /** So a second ClientHello is split as well, and the bound of five is reached. */
  lemma SplitsMoreThanOnce()
    ensures SplitCount(0, [HELLO, HELLO]) == 2
    ensures SplitCount(0, [HELLO, HELLO, HELLO, HELLO, HELLO, HELLO]) == 5
  {
    SplitHellos(0, 2);
    SplitHellos(0, 6);
    assert seq(2, _ => HELLO) == [HELLO, HELLO];
    assert seq(6, _ => HELLO) == [HELLO, HELLO, HELLO, HELLO, HELLO, HELLO];
  }
}
