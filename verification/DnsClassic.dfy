/**
 Classic DNS over UDP and TCP (section 4.2 of RFC 1035): the authority's answers, the
 executor's exchanges with their message IDs and counters, and both together.
 */
module DnsClassic {
  import opened Octets
  import opened Bits
  import opened Incremental
  import opened DnsResponse

  // ---------------------------------------------------------------- messages

  /** `withID`, and the normalisation of both sides with ID zero */
  function WithID(m: Bytes, id: nat): (r: Bytes)
    requires |m| >= 2
    ensures |r| == |m| && r[2..] == m[2..]
  {
    [id / 256 % 256, id % 256] + m[2..]
  }

  lemma IdReads(m: Bytes, id: nat)
    requires |m| >= 2 && id < 65536
    ensures Short(WithID(m, id), 0) == id
  {
  }

  lemma IdReplaced(m: Bytes, a: nat, b: nat)
    requires |m| >= 2
    ensures WithID(WithID(m, a), b) == WithID(m, b)
  {
  }

  lemma IdKept(m: Bytes)
    requires |m| >= 2
    ensures WithID(m, Short(m, 0)) == m
  {
  }

  /** The messages both sides carry, with message ID zero. */
  datatype Fixtures = Fixtures(aQuery: Bytes, aResponse: Bytes,
                               largeQuery: Bytes, truncated: Bytes, large: Bytes)
  {
    predicate Sound()
    {
      && |aQuery| == 27 && WithID(aQuery, 0) == aQuery
      && |largeQuery| == 45 && WithID(largeQuery, 0) == largeQuery
      && IsReply(aResponse) && IsReply(truncated) && IsReply(large)
      && Truncated(truncated) && !Truncated(aResponse)
    }
  }

  /** An authority's message with ID zero */
  predicate IsExpected(r: Bytes) { |r| >= 12 && WithID(r, 0) == r && Authoritative(r) }

  predicate IsReply(r: Bytes) { IsExpected(r) && |r| <= 65535 }

  /** AA set and RA clear */
  predicate Authoritative(r: Bytes)
    requires |r| >= 4
  {
    r[2] / 4 % 2 == 1 && !HighBit(r[3])
  }

  /** `r[2] & 0x02 != 0` */
  predicate Truncated(r: Bytes)
    requires |r| >= 4
  {
    r[2] / 2 % 2 == 1
  }

  // ---------------------------------------------------------------- the authority

  /** `responseFor`; the digests in its cases are those of the fixtures. */
  function ResponseFor(hash: Bytes -> Bytes, f: Fixtures, query: Bytes, udp: bool): Option<Bytes>
    requires f.Sound()
  {
    if |query| < 12 || Short(query, 0) == 0 then None
    else
      var digest, id := hash(WithID(query, 0)), Short(query, 0);
      if digest == hash(f.aQuery) then Some(WithID(f.aResponse, id))
      else if digest == hash(f.largeQuery) then Some(WithID(if udp then f.truncated else f.large, id))
      else None
  }

  /** One turn of `handleTCP`: a query taken off the connection becomes a framed response. */
  function NextQuery(hash: Bytes -> Bytes, f: Fixtures, b: Bytes): Step<Bytes>
    requires f.Sound()
  {
    if |b| < 2 then More
    else
      var length := Short(b, 0);
      if length != 27 && length != 45 then Refused
      else if |b| < 2 + length then More
      else
        var r := ResponseFor(hash, f, b[2..2 + length], false);
        if r.None? then Refused else Got(FrameOf(r.value), 2 + length)
  }

  function Authority(hash: Bytes -> Bytes, f: Fixtures): Bytes -> Step<Bytes>
    requires f.Sound()
  {
    (b: Bytes) => NextQuery(hash, f, b)
  }

  lemma AuthoritySteady(hash: Bytes -> Bytes, f: Fixtures)
    requires f.Sound()
    ensures Steady(Authority(hash, f))
  {
    var next := Authority(hash, f);
    forall b ensures Sized(next, b) { }
    forall b: Bytes, more ensures Stable(next, b, more) {
      if |b| >= 2 && |b| >= 2 + Short(b, 0) {
        assert (b + more)[2..2 + Short(b, 0)] == b[2..2 + Short(b, 0)];
      }
    }
  }

  /** A query with a fixture's digest and a nonzero ID, and no other, is answered by a fixture under its ID. */
  lemma {:induction false} AnswersExactlyWhen(hash: Bytes -> Bytes, f: Fixtures, query: Bytes, udp: bool)
    requires f.Sound()
    ensures ResponseFor(hash, f, query, udp).Some? <==>
            exists x, id :: |x| >= 12 && WithID(x, 0) == x && hash(x) in {hash(f.aQuery), hash(f.largeQuery)}
                            && 0 < id < 65536 && query == WithID(x, id)
    ensures ResponseFor(hash, f, query, udp).Some? ==>
              exists r :: r in {f.aResponse, f.truncated, f.large} &&
                          ResponseFor(hash, f, query, udp).value == WithID(r, Short(query, 0))
  {
    if ResponseFor(hash, f, query, udp).Some? {
      var x, id := WithID(query, 0), Short(query, 0);
      IdKept(query);
      IdReplaced(query, 0, id);
      IdReplaced(query, 0, 0);
      assert |x| >= 12 && WithID(x, 0) == x && query == WithID(x, id);
    }
    forall x, id | |x| >= 12 && WithID(x, 0) == x && hash(x) in {hash(f.aQuery), hash(f.largeQuery)}
                   && 0 < id < 65536 && query == WithID(x, id)
      ensures ResponseFor(hash, f, query, udp).Some?
    {
      IdReplaced(x, id, 0);
      IdReads(x, id);
    }
  }

  /** A query of one of the two lengths stands framed in front. */
  predicate FrontQuery(b: Bytes, q: Bytes) { (|q| == 27 || |q| == 45) && FrameOf(q) <= b }

  lemma {:induction false} FrontQueryIs(b: Bytes, q: Bytes)
    ensures FrontQuery(b, q) <==>
            && |b| >= 2 && (Short(b, 0) == 27 || Short(b, 0) == 45)
            && |b| >= 2 + Short(b, 0) && q == b[2..2 + Short(b, 0)]
  {
    if |q| == 27 || |q| == 45 {
      PrefixReads(q);
      if |b| >= 2 {
        FramedReads(q, b);
      }
    }
  }

  /** A turn of the loop answers exactly when a query that is answered is framed in front. */
  lemma {:induction false} TurnAnswersExactlyWhen(hash: Bytes -> Bytes, f: Fixtures, b: Bytes)
    requires f.Sound()
    ensures NextQuery(hash, f, b).Got? <==>
            exists q :: FrontQuery(b, q) && ResponseFor(hash, f, q, false).Some?
  {
    if NextQuery(hash, f, b).Got? {
      var q := b[2..2 + Short(b, 0)];
      FrontQueryIs(b, q);
    }
    forall q | FrontQuery(b, q) && ResponseFor(hash, f, q, false).Some? ensures NextQuery(hash, f, b).Got? {
      FrontQueryIs(b, q);
    }
  }

  /** It closes exactly when the length is neither of the two, or the query is there and refused. */
  lemma {:induction false} TurnClosesExactlyWhen(hash: Bytes -> Bytes, f: Fixtures, b: Bytes)
    requires f.Sound()
    ensures NextQuery(hash, f, b).Refused? <==>
            || (|b| >= 2 && Short(b, 0) != 27 && Short(b, 0) != 45)
            || (exists q :: FrontQuery(b, q) && ResponseFor(hash, f, q, false).None?)
  {
    if NextQuery(hash, f, b).Refused? && (Short(b, 0) == 27 || Short(b, 0) == 45) {
      var q := b[2..2 + Short(b, 0)];
      FrontQueryIs(b, q);
    }
    forall q | FrontQuery(b, q) && ResponseFor(hash, f, q, false).None? ensures NextQuery(hash, f, b).Refused? {
      FrontQueryIs(b, q);
    }
  }

  /** The authority's end of a connection: what it has buffered, and whether it still listens. */
  datatype Side = Side(pending: Bytes, open: bool)

  datatype Served = Served(written: Bytes, side: Side)

  /** What it writes while segments arrive one after another; once closed, nothing. */
  function Serve(next: Bytes -> Step<Bytes>, a: Side, segments: seq<Bytes>): Served
    decreases |segments|
  {
    if segments == [] || !a.open then Served([], a)
    else
      var d := Drain(next, a.pending + segments[0]);
      var r := Serve(next, Side(d.rest, !d.refused), segments[1..]);
      Served(Concat(d.items) + r.written, r.side)
  }

  /** `handleTCP`: a connection, from which segments arrive. */
  class AuthorityConn {
    const hash: Bytes -> Bytes
    const fixtures: Fixtures
    var pending: Bytes
    var open: bool

    constructor (hash: Bytes -> Bytes, fixtures: Fixtures)
      requires fixtures.Sound()
      ensures this.hash == hash && this.fixtures == fixtures && pending == [] && open
    {
      this.hash, this.fixtures := hash, fixtures;
      pending, open := [], true;
    }

    /** The loop, until it waits for more or closes. */
    method Receive(segment: Bytes) returns (written: Bytes)
      requires fixtures.Sound() && open
      modifies this
      ensures var d := Drain(Authority(hash, fixtures), old(pending) + segment);
              written == Concat(d.items) && pending == d.rest && open == !d.refused
    {
      ghost var next := Authority(hash, fixtures);
      ghost var whole := Drain(next, pending + segment);
      ghost var taken: seq<Bytes> := [];
      pending, written := pending + segment, [];
      Empty(whole.items);
      while |pending| >= 2
        invariant Underway(next, whole, taken, pending) && written == Concat(taken) && open
        decreases |pending|
      {
        var length := Short(pending, 0);
        if length != 27 && length != 45 {
          TakeNone(next, whole, taken, pending);
          open := false;
          return;
        }
        if |pending| < 2 + length {
          TakeNone(next, whole, taken, pending);
          return;
        }
        var response := ResponseFor(hash, fixtures, pending[2..2 + length], false);
        if response.None? {
          TakeNone(next, whole, taken, pending);
          open := false;
          return;
        }
        TakeOne(next, whole, taken, pending);
        ConcatSnoc(taken, FrameOf(response.value));
        taken := taken + [FrameOf(response.value)];
        written := written + FrameOf(response.value);
        pending := pending[2 + length..];
      }
      TakeNone(next, whole, taken, pending);
    }

    /** Segment after segment, until there are none or the authority closes. */
    method Deliver(segments: seq<Bytes>) returns (written: Bytes)
      requires fixtures.Sound()
      modifies this
      ensures Served(written, Side(pending, open)) ==
              Serve(Authority(hash, fixtures), old(Side(pending, open)), segments)
    {
      ghost var next := Authority(hash, fixtures);
      ghost var goal := Serve(next, Side(pending, open), segments);
      written := [];
      var k := 0;
      Empty(goal.written);
      assert segments[0..] == segments;
      while k < |segments| && open
        invariant k <= |segments|
        invariant var r := Serve(next, Side(pending, open), segments[k..]);
                  goal == Served(written + r.written, r.side)
      {
        ghost var r := Serve(next, Side(pending, open), segments[k..]);
        var more := Receive(segments[k]);
        assert segments[k..][1..] == segments[k + 1..];
        Assoc(written, more, Serve(next, Side(pending, open), segments[k + 1..]).written);
        written := written + more;
        k := k + 1;
      }
      Empty(written);
    }
  }

  // ---------------------------------------------------------------- message IDs

  /** `next += 2; if next == 0 { next = 1 }` in 16 bits */
  function IdAfter(id: nat): nat
  {
    var next := (id + 2) % 65536;
    if next == 0 then 1 else next
  }

  /** The ID of the TCP retry */
  function RetryId(id: nat): nat
  {
    var next := (id + 1) % 65536;
    if next == 0 then 1 else next
  }

  function IdAt(turn: nat): nat
  {
    if turn == 0 then 1 else IdAfter(IdAt(turn - 1))
  }

  /** Through every wrap-around the IDs are the odd numbers in turn. */
  lemma {:induction false} IdInRound(turn: nat, round: nat, r: nat)
    requires turn == 32768 * round + r && r < 32768
    ensures IdAt(turn) == 2 * r + 1
    decreases turn
  {
    if r > 0 {
      IdInRound(turn - 1, round, r - 1);
    } else if round > 0 {
      IdInRound(turn - 1, round - 1, 32767);
    }
  }

  lemma {:induction false} IdSequence(turn: nat)
    ensures IdAt(turn) == 2 * (turn % 32768) + 1
    ensures IdAt(turn) % 2 == 1 && 0 < IdAt(turn) < 65536
  {
    IdInRound(turn, turn / 32768, turn % 32768);
  }

  /** A retry has an ID of its own. */
  lemma {:induction false} RetryIdNew(turn: nat)
    ensures 0 < RetryId(IdAt(turn)) < 65536 && RetryId(IdAt(turn)) != IdAt(turn)
  {
    IdSequence(turn);
  }

  /** IDs come back after 32768 turns and not before. */
  lemma {:induction false} IdsDistinct(i: nat, j: nat)
    ensures IdAt(i) == IdAt(j) <==> i % 32768 == j % 32768
  {
    IdSequence(i);
    IdSequence(j);
  }

  // ---------------------------------------------------------------- the executor's exchanges

  datatype Fault = Malformed | TimedOut | Broken

  /** What becomes of a query: an answer, none, or not even sent. */
  datatype Datagram = Datagram(octets: Bytes) | NoDatagram(fault: Fault) | Unsent(fault: Fault)

  /** An exchange: octets transferred, and the fault if it failed. */
  datatype Exchanged = Exchanged(octets: nat, fault: Option<Fault>)

  /** `validate`, with the digests of the templates */
  predicate Validates(hash: Bytes -> Bytes, template: Bytes, expected: Bytes, query: Bytes, response: Bytes, id: nat)
    requires |query| >= 2
  {
    && |response| >= 12
    && hash(WithID(query, 0)) == hash(template)
    && Short(response, 0) == id
    && hash(WithID(response, 0)) == hash(expected)
    && Authoritative(response)
  }

  function ExchangeUDP(hash: Bytes -> Bytes, template: Bytes, expected: Bytes, id: nat, expectTC: bool,
                       received: Datagram): Exchanged
    requires |template| >= 2
  {
    var query := WithID(template, id);
    if received.Unsent? then Exchanged(0, Some(received.fault))
    else if received.NoDatagram? then Exchanged(|query|, Some(received.fault))
    else
      var response := received.octets;
      var transferred := |query| + |response|;
      if |response| != |expected| then Exchanged(transferred, Some(Malformed))
      else if !Validates(hash, template, expected, query, response, id) then Exchanged(transferred, Some(Malformed))
      else if Truncated(response) != expectTC then Exchanged(transferred, Some(Malformed))
      else Exchanged(transferred, None)
  }

  /** The same over a stream, and what is left of the stream for the next exchange. */
  datatype Streamed = Streamed(octets: nat, fault: Option<Fault>, rest: Bytes)

  /** `arrived` is everything on the stream, and `fault` why no more comes. */
  function ExchangeTCP(hash: Bytes -> Bytes, template: Bytes, expected: Bytes, id: nat,
                       arrived: Bytes, fault: Fault): Streamed
    requires |template| >= 2
  {
    var query := WithID(template, id);
    var framed := FrameOf(query);
    if |arrived| < 2 then Streamed(|framed|, Some(fault), [])
    else
      var length := Short(arrived, 0);
      if |arrived| < 2 + length then Streamed(|framed| + 2, Some(fault), [])
      else
        var response, rest := arrived[2..2 + length], arrived[2 + length..];
        var transferred := |framed| + 2 + length;
        if length != |expected| || !Validates(hash, template, expected, query, response, id) then
          Streamed(transferred, Some(Malformed), rest)
        else Streamed(transferred, None, rest)
  }

  /** A message the executor cannot tell from the fixture: the same length, digest and flags. */
  predicate Twin(hash: Bytes -> Bytes, expected: Bytes, x: Bytes)
    requires IsExpected(expected)
  {
    && |x| == |expected| && WithID(x, 0) == x && hash(x) == hash(expected)
    && Authoritative(x) && Truncated(x) == Truncated(expected)
  }

  predicate Accepted(hash: Bytes -> Bytes, template: Bytes, expected: Bytes, id: nat, octets: Bytes)
    requires |template| >= 2 && IsExpected(expected)
  {
    ExchangeUDP(hash, template, expected, id, Truncated(expected), Datagram(octets)).fault.None?
  }

  /** A datagram is accepted if and only if it is a twin of the fixture under the query's ID. */
  lemma {:induction false} AcceptsTwins(hash: Bytes -> Bytes, template: Bytes, expected: Bytes, id: nat, octets: Bytes)
    requires |template| >= 2 && WithID(template, 0) == template && IsExpected(expected) && id < 65536
    ensures Accepted(hash, template, expected, id, octets) <==>
            exists x :: Twin(hash, expected, x) && octets == WithID(x, id)
  {
    IdReplaced(template, id, 0);
    if Accepted(hash, template, expected, id, octets) {
      var x := WithID(octets, 0);
      IdKept(octets);
      IdReplaced(octets, 0, id);
      IdReplaced(octets, 0, 0);
      FlagsKept(octets, 0);
      assert Twin(hash, expected, x) && octets == WithID(x, id);
    }
    forall x | Twin(hash, expected, x) && octets == WithID(x, id)
      ensures Accepted(hash, template, expected, id, octets)
    {
      IdReplaced(x, id, 0);
      IdReads(x, id);
      FlagsKept(x, id);
    }
  }

  /** No other message has the digest and the flags of the fixture. */
  ghost predicate Distinguished(hash: Bytes -> Bytes, expected: Bytes)
    requires IsExpected(expected)
  {
    forall x :: Twin(hash, expected, x) ==> x == expected
  }

  lemma SameUnderId(a: Bytes, b: Bytes, id: nat)
    requires |a| == |b| >= 2 && WithID(a, 0) == a && WithID(b, 0) == b && WithID(a, id) == WithID(b, id)
    ensures a == b
  {
    IdReplaced(a, id, 0);
    IdReplaced(b, id, 0);
  }

  /**
   The executor accepts the fixture under the query's ID and no other datagram if and only if
   the digest distinguishes the fixture.
   */
  lemma {:induction false} AcceptsExactlyWhen(hash: Bytes -> Bytes, template: Bytes, expected: Bytes, id: nat)
    requires |template| >= 2 && WithID(template, 0) == template && IsExpected(expected) && id < 65536
    ensures (forall octets :: Accepted(hash, template, expected, id, octets) <==> octets == WithID(expected, id)) <==>
            Distinguished(hash, expected)
  {
    assert Twin(hash, expected, expected);
    if Distinguished(hash, expected) {
      forall octets ensures Accepted(hash, template, expected, id, octets) <==> octets == WithID(expected, id) {
        AcceptsTwins(hash, template, expected, id, octets);
      }
    }
    if forall octets :: Accepted(hash, template, expected, id, octets) <==> octets == WithID(expected, id) {
      forall x | Twin(hash, expected, x) ensures x == expected {
        AcceptsTwins(hash, template, expected, id, WithID(x, id));
        SameUnderId(x, expected, id);
      }
    }
  }

  /** What a UDP exchange transfers, and how it fails: nothing sent, sent in vain, or an answer it refuses. */
  lemma {:induction false} UdpOutcome(hash: Bytes -> Bytes, template: Bytes, expected: Bytes, id: nat,
                                      expectTC: bool, received: Datagram)
    requires |template| >= 2
    ensures var e := ExchangeUDP(hash, template, expected, id, expectTC, received);
            && (received.Unsent? ==> e == Exchanged(0, Some(received.fault)))
            && (received.NoDatagram? ==> e == Exchanged(|template|, Some(received.fault)))
            && (received.Datagram? ==>
                  e.octets == |template| + |received.octets| && (e.fault == None || e.fault == Some(Malformed)))
  {
  }

  /**
   A TCP exchange waits for two octets and then for as many as they announce; short of either
   it fails as the stream does, and otherwise it either succeeds or the answer is malformed.
   */
  lemma {:induction false} TcpOutcome(hash: Bytes -> Bytes, template: Bytes, expected: Bytes, id: nat,
                                      arrived: Bytes, fault: Fault)
    requires |template| >= 2
    ensures var t := ExchangeTCP(hash, template, expected, id, arrived, fault);
            && (|arrived| < 2 ==> t == Streamed(2 + |template|, Some(fault), []))
            && (|arrived| >= 2 ==>
                  var n := FromBE(arrived[..2]);
                  if |arrived| < 2 + n then t == Streamed(2 + |template| + 2, Some(fault), [])
                  else
                    && t.octets == 2 + |template| + 2 + n && t.rest == arrived[2 + n..]
                    && (t.fault == None || t.fault == Some(Malformed)))
  {
    PrefixReads(WithID(template, id));
    if |arrived| >= 2 {
      assert Short(arrived, 0) == U16(arrived[..2]);
    }
  }

  /** The flags by their bits: AA is bit 2 and TC bit 1 of the third octet, RA bit 7 of the fourth. */
  lemma {:induction false} FlagsMean(r: Bytes)
    requires |r| >= 4
    ensures Authoritative(r) <==> Bit(r[2], 2) == 1 && Bit(r[3], 7) == 0
    ensures Truncated(r) <==> Bit(r[2], 1) == 1
  {
    Powers();
  }

  /** What a stream cannot tell from the fixture: the TC flag is not looked at. */
  predicate StreamTwin(hash: Bytes -> Bytes, expected: Bytes, x: Bytes)
    requires IsExpected(expected)
  {
    |x| == |expected| && WithID(x, 0) == x && hash(x) == hash(expected) && Authoritative(x)
  }

  predicate AcceptedStream(hash: Bytes -> Bytes, template: Bytes, expected: Bytes, id: nat, arrived: Bytes)
    requires |template| >= 2
  {
    ExchangeTCP(hash, template, expected, id, arrived, Broken).fault.None?
  }

  /** `m` stands framed in front of the stream. */
  predicate Framed(m: Bytes, arrived: Bytes) { FrameOf(m) <= arrived }

  lemma {:induction false} FramedReads(m: Bytes, arrived: Bytes)
    requires |m| <= 65535 && |arrived| >= 2
    ensures Framed(m, arrived) <==>
            Short(arrived, 0) == |m| && |arrived| >= 2 + |m| && arrived[2..2 + |m|] == m
  {
    var f := FrameOf(m);
    PrefixReads(m);
    if Framed(m, arrived) {
      assert arrived[0] == f[0] && arrived[1] == f[1];
      assert arrived[2..2 + |m|] == f[2..];
    }
    if Short(arrived, 0) == |m| && |arrived| >= 2 + |m| && arrived[2..2 + |m|] == m {
      var front := arrived[..2 + |m|];
      assert front[2..] == m;
      FramedFrom(front);
    }
  }

  /** A stream is accepted if and only if a twin of the fixture stands framed in front, under the query's ID. */
  lemma {:induction false} AcceptsStreamTwins(hash: Bytes -> Bytes, template: Bytes, expected: Bytes,
                                              id: nat, arrived: Bytes)
    requires |template| >= 2 && WithID(template, 0) == template && IsReply(expected) && id < 65536
    ensures AcceptedStream(hash, template, expected, id, arrived) <==>
            exists x :: StreamTwin(hash, expected, x) && Framed(WithID(x, id), arrived)
  {
    IdReplaced(template, id, 0);
    if AcceptedStream(hash, template, expected, id, arrived) {
      var m := arrived[2..2 + |expected|];
      var x := WithID(m, 0);
      IdKept(m);
      IdReplaced(m, 0, id);
      IdReplaced(m, 0, 0);
      FlagsKept(m, 0);
      FramedReads(m, arrived);
      assert StreamTwin(hash, expected, x) && Framed(WithID(x, id), arrived);
    }
    forall x | StreamTwin(hash, expected, x) && Framed(WithID(x, id), arrived)
      ensures AcceptedStream(hash, template, expected, id, arrived)
    {
      PrefixReads(WithID(x, id));
      FramedReads(WithID(x, id), arrived);
      IdReplaced(x, id, 0);
      IdReads(x, id);
      FlagsKept(x, id);
    }
  }

  /** No other message has the digest of the fixture. */
  ghost predicate DistinguishedStream(hash: Bytes -> Bytes, expected: Bytes)
    requires IsExpected(expected)
  {
    forall x :: StreamTwin(hash, expected, x) ==> x == expected
  }

  /**
   The executor accepts the streams that open with the framed fixture under the query's ID, and
   no others, if and only if the digest distinguishes the fixture.
   */
  lemma {:induction false} AcceptsStreamExactlyWhen(hash: Bytes -> Bytes, template: Bytes, expected: Bytes, id: nat)
    requires |template| >= 2 && WithID(template, 0) == template && IsReply(expected) && id < 65536
    ensures (forall arrived :: AcceptedStream(hash, template, expected, id, arrived) <==>
                               Framed(WithID(expected, id), arrived)) <==>
            DistinguishedStream(hash, expected)
  {
    assert StreamTwin(hash, expected, expected);
    if DistinguishedStream(hash, expected) {
      forall arrived ensures AcceptedStream(hash, template, expected, id, arrived) <==>
                             Framed(WithID(expected, id), arrived)
      {
        AcceptsStreamTwins(hash, template, expected, id, arrived);
      }
    }
    if forall arrived :: AcceptedStream(hash, template, expected, id, arrived) <==>
                         Framed(WithID(expected, id), arrived)
    {
      forall x | StreamTwin(hash, expected, x) ensures x == expected {
        var arrived := FrameOf(WithID(x, id));
        AcceptsStreamTwins(hash, template, expected, id, arrived);
        SameFramed(WithID(x, id), WithID(expected, id));
        SameUnderId(x, expected, id);
      }
    }
  }

  lemma {:induction false} SameFramed(a: Bytes, b: Bytes)
    requires |a| == |b| && Framed(b, FrameOf(a))
    ensures a == b
  {
    var f, g := FrameOf(a), FrameOf(b);
    assert |f| == |g| && f == g;
    assert f[2..] == a && g[2..] == b;
  }

  // ---------------------------------------------------------------- phases

  datatype Scenario = Udp | Tcp | Retry

  /** What arrives on the connection in answer to the octets sent, if they could be, and what the peer becomes. */
  datatype Arrival<S> = Arrival(octets: Bytes, peer: S, fault: Fault) | Unwritten(peer: S, fault: Fault)

  /** What the network does in each turn; the peer of the connection has a state. */
  datatype Network<!S> = Network(udp: (nat, Bytes) -> Datagram, tcp: (nat, S, Bytes) -> Arrival<S>)

  /** The one connection of a phase: its peer, and what has arrived and is not yet read. */
  datatype Link<S> = Link(peer: S, unread: Bytes)

  datatype Summary = Summary(completed: nat, retries: nat, malformed: nat, timedOut: nat, failed: nat, octets: nat)

  const NOTHING := Summary(0, 0, 0, 0, 0, 0)

  /** What `exchange` returns, and the connection it leaves behind. */
  datatype Attempt<L> = Attempt(octets: nat, retries: nat, fault: Option<Fault>, link: L)

  /** One write and one read on the connection. */
  function OverTCP<S>(hash: Bytes -> Bytes, net: Network<S>, template: Bytes, expected: Bytes,
                      link: Link<S>, turn: nat, id: nat): Attempt<Link<S>>
    requires |template| >= 2
  {
    var a := net.tcp(turn, link.peer, FrameOf(WithID(template, id)));
    if a.Unwritten? then Attempt(0, 0, Some(a.fault), Link(a.peer, link.unread))
    else
      var t := ExchangeTCP(hash, template, expected, id, link.unread + a.octets, a.fault);
      Attempt(t.octets, 0, t.fault, Link(a.peer, t.rest))
  }

  /** `exchange` in one turn */
  function Exchange<S>(hash: Bytes -> Bytes, f: Fixtures, net: Network<S>, scenario: Scenario,
                       link: Link<S>, turn: nat, id: nat): Attempt<Link<S>>
    requires f.Sound()
  {
    match scenario
    case Udp =>
      var u := ExchangeUDP(hash, f.aQuery, f.aResponse, id, false, net.udp(turn, WithID(f.aQuery, id)));
      Attempt(u.octets, 0, u.fault, link)
    case Tcp => OverTCP(hash, net, f.aQuery, f.aResponse, link, turn, id)
    case Retry =>
      var u := ExchangeUDP(hash, f.largeQuery, f.truncated, id, true, net.udp(turn, WithID(f.largeQuery, id)));
      if u.fault.Some? then Attempt(u.octets, 0, u.fault, link)
      else
        var t := OverTCP(hash, net, f.largeQuery, f.large, link, turn, RetryId(id));
        Attempt(u.octets + t.octets, 1, t.fault, t.link)
  }

  /** An exchange over the connection that succeeds takes one framed message off the stream and no octet more. */
  lemma {:induction false} StreamConserved<S>(hash: Bytes -> Bytes, net: Network<S>, template: Bytes, expected: Bytes,
                                              link: Link<S>, turn: nat, id: nat)
    requires |template| >= 2 && |expected| <= 65535
    requires OverTCP(hash, net, template, expected, link, turn, id).fault.None?
    ensures var a, r := net.tcp(turn, link.peer, FrameOf(WithID(template, id))),
                        OverTCP(hash, net, template, expected, link, turn, id);
            && a.Arrival? && r.link.peer == a.peer
            && exists m :: |m| == |expected| && link.unread + a.octets == FrameOf(m) + r.link.unread
  {
    var a := net.tcp(turn, link.peer, FrameOf(WithID(template, id)));
    var arrived := link.unread + a.octets;
    var n := Short(arrived, 0);
    var front := arrived[..2 + n];
    assert front[2..] == arrived[2..2 + n];
    FramedFrom(front);
    assert arrived == front + arrived[2 + n..];
  }

  /** The query an exchange sends by UDP, if it does, and the one it sends over the connection. */
  function UdpQuery(f: Fixtures, scenario: Scenario, id: nat): Option<Bytes>
    requires f.Sound()
  {
    match scenario
    case Udp => Some(WithID(f.aQuery, id))
    case Tcp => None
    case Retry => Some(WithID(f.largeQuery, id))
  }

  function TcpQuery(f: Fixtures, scenario: Scenario, id: nat): Option<Bytes>
    requires f.Sound()
  {
    match scenario
    case Udp => None
    case Tcp => Some(FrameOf(WithID(f.aQuery, id)))
    case Retry => Some(FrameOf(WithID(f.largeQuery, RetryId(id))))
  }

  /**
   An exchange asks the network these queries and nothing else: networks that treat them alike
   give the same exchange.  A retry asks the same question again, under an ID of its own.
   */
  lemma {:induction false} AsksOnly<S>(hash: Bytes -> Bytes, f: Fixtures, a: Network<S>, b: Network<S>,
                                       scenario: Scenario, link: Link<S>, turn: nat, id: nat)
    requires f.Sound()
    requires UdpQuery(f, scenario, id).Some? ==>
               a.udp(turn, UdpQuery(f, scenario, id).value) == b.udp(turn, UdpQuery(f, scenario, id).value)
    requires TcpQuery(f, scenario, id).Some? ==>
               a.tcp(turn, link.peer, TcpQuery(f, scenario, id).value)
               == b.tcp(turn, link.peer, TcpQuery(f, scenario, id).value)
    ensures Exchange(hash, f, a, scenario, link, turn, id) == Exchange(hash, f, b, scenario, link, turn, id)
  {
  }

  /** A retry is counted exactly when the truncated answer was accepted, whatever becomes of the retry. */
  lemma {:induction false} RetryCountedExactlyWhen<S>(hash: Bytes -> Bytes, f: Fixtures, net: Network<S>,
                                                      scenario: Scenario, link: Link<S>, turn: nat, id: nat)
    requires f.Sound()
    ensures Exchange(hash, f, net, scenario, link, turn, id).retries ==
            if scenario.Retry? && ExchangeUDP(hash, f.largeQuery, f.truncated, id, true,
                                              net.udp(turn, WithID(f.largeQuery, id))).fault.None?
            then 1 else 0
  {
  }

  function Client<S>(hash: Bytes -> Bytes, f: Fixtures, net: Network<S>, scenario: Scenario)
    : (Link<S>, nat, nat) -> Attempt<Link<S>>
    requires f.Sound()
  {
    (link: Link<S>, turn: nat, id: nat) => Exchange(hash, f, net, scenario, link, turn, id)
  }

  function Counted<L>(s: Summary, e: Attempt<L>): Summary
  {
    var t := s.(octets := s.octets + e.octets, retries := s.retries + e.retries);
    if e.fault.None? then t.(completed := t.completed + 1)
    else
      match e.fault.value
      case Malformed => t.(malformed := t.malformed + 1)
      case TimedOut => t.(timedOut := t.timedOut + 1)
      case Broken => t.(failed := t.failed + 1)
  }

  /** Where a phase ends: its summary and its connection. */
  datatype End<L> = End(summary: Summary, link: L)

  /** A phase that is still on time for `turns` turns, from one turn on. */
  function Phase<L>(exchange: (L, nat, nat) -> Attempt<L>, s: Summary, link: L, turn: nat, turns: nat): End<L>
    requires turn <= turns
    decreases turns - turn
  {
    if turn == turns then End(s, link)
    else
      var e := exchange(link, turn, IdAt(turn));
      if e.fault.Some? then End(Counted(s, e), e.link)
      else Phase(exchange, Counted(s, e), e.link, turn + 1, turns)
  }

  /** `runPhase`: one exchange, or one after another while there is time, up to the first fault. */
  method RunPhase<L>(exchange: (L, nat, nat) -> Attempt<L>, first: L, once: bool, turns: nat)
    returns (s: Summary, link: L, ok: bool)
    ensures End(s, link) == Phase(exchange, NOTHING, first, 0, if once then 1 else turns)
    ensures ok <==> s.malformed + s.timedOut + s.failed == 0
  {
    s, link := NOTHING, first;
    var next, turn := 1, 0;
    ghost var last := if once then 1 else turns;
    while once || turn < turns
      invariant turn <= last && next == IdAt(turn) && s.malformed + s.timedOut + s.failed == 0
      invariant once ==> turn == 0
      invariant Phase(exchange, NOTHING, first, 0, last) == Phase(exchange, s, link, turn, last)
      decreases last - turn
    {
      var e := exchange(link, turn, next);
      s, link := Counted(s, e), e.link;
      if e.fault.Some? {
        return s, link, false;
      }
      if once {
        return s, link, true;
      }
      next := (next + 2) % 65536;
      if next == 0 {
        next := 1;
      }
      turn := turn + 1;
    }
    ok := true;
  }

  /** The fault that ends a phase, if one does. */
  function FirstFault<L>(exchange: (L, nat, nat) -> Attempt<L>, link: L, turn: nat, turns: nat): Option<Fault>
    requires turn <= turns
    decreases turns - turn
  {
    if turn == turns then None
    else
      var e := exchange(link, turn, IdAt(turn));
      if e.fault.Some? then e.fault else FirstFault(exchange, e.link, turn + 1, turns)
  }

  /** The attempts of a phase, the faulty one included. */
  function Attempts<L>(exchange: (L, nat, nat) -> Attempt<L>, link: L, turn: nat, turns: nat): seq<Attempt<L>>
    requires turn <= turns
    decreases turns - turn
  {
    if turn == turns then []
    else
      var e := exchange(link, turn, IdAt(turn));
      [e] + if e.fault.Some? then [] else Attempts(exchange, e.link, turn + 1, turns)
  }

  function TotalOctets<L>(attempts: seq<Attempt<L>>): nat
  {
    if attempts == [] then 0 else attempts[0].octets + TotalOctets(attempts[1..])
  }

  function TotalRetries<L>(attempts: seq<Attempt<L>>): nat
  {
    if attempts == [] then 0 else attempts[0].retries + TotalRetries(attempts[1..])
  }

  lemma {:induction false} PhaseCounts<L>(exchange: (L, nat, nat) -> Attempt<L>, s: Summary, link: L,
                                          turn: nat, turns: nat)
    requires turn <= turns
    ensures var e, fault := Phase(exchange, s, link, turn, turns).summary, FirstFault(exchange, link, turn, turns);
            var all := Attempts(exchange, link, turn, turns);
            && e.malformed == s.malformed + (if fault == Some(Malformed) then 1 else 0)
            && e.timedOut == s.timedOut + (if fault == Some(TimedOut) then 1 else 0)
            && e.failed == s.failed + (if fault == Some(Broken) then 1 else 0)
            && e.completed == s.completed + |all| - (if fault.Some? then 1 else 0)
            && e.octets == s.octets + TotalOctets(all) && e.retries == s.retries + TotalRetries(all)
    decreases turns - turn
  {
    if turn < turns {
      var e := exchange(link, turn, IdAt(turn));
      var all := Attempts(exchange, link, turn, turns);
      if e.fault.None? {
        PhaseCounts(exchange, Counted(s, e), e.link, turn + 1, turns);
        assert all[1..] == Attempts(exchange, e.link, turn + 1, turns);
      } else {
        assert all[1..] == [];
      }
    }
  }

  /**
   On every network the summary counts the fault that ended the phase under its own class, the
   turns before it as completed, and the octets and retries of all attempts.
   */
  lemma {:induction false} FaultsAreExact<L>(exchange: (L, nat, nat) -> Attempt<L>, link: L, turns: nat)
    ensures var e, fault := Phase(exchange, NOTHING, link, 0, turns).summary, FirstFault(exchange, link, 0, turns);
            var all := Attempts(exchange, link, 0, turns);
            && (e.malformed == 1 <==> fault == Some(Malformed)) && (e.timedOut == 1 <==> fault == Some(TimedOut))
            && (e.failed == 1 <==> fault == Some(Broken))
            && (e.malformed == 0 && e.timedOut == 0 && e.failed == 0 <==> fault == None)
            && e.malformed + e.timedOut + e.failed <= 1
            && e.completed == |all| - (if fault.Some? then 1 else 0)
            && e.octets == TotalOctets(all) && e.retries == TotalRetries(all)
  {
    PhaseCounts(exchange, NOTHING, link, 0, turns);
    var fault := FirstFault(exchange, link, 0, turns);
    assert fault.Some? ==> fault.value.Malformed? || fault.value.TimedOut? || fault.value.Broken?;
  }

  predicate RetriesRightly<L>(exchange: (L, nat, nat) -> Attempt<L>, retry: bool, link: L, turn: nat, id: nat)
  {
    var e := exchange(link, turn, id);
    if retry then e.retries <= 1 && (e.fault.None? ==> e.retries == 1) else e.retries == 0
  }

  ghost predicate AllRetryRightly<L(!new)>(exchange: (L, nat, nat) -> Attempt<L>, retry: bool)
  {
    forall link, turn, id :: RetriesRightly(exchange, retry, link, turn, id)
  }

  lemma ClientRetriesRightly<S(!new)>(hash: Bytes -> Bytes, f: Fixtures, net: Network<S>, scenario: Scenario)
    requires f.Sound()
    ensures AllRetryRightly(Client(hash, f, net, scenario), scenario.Retry?)
  {
  }

  lemma {:induction false} PhaseAddsUp<L(!new)>(exchange: (L, nat, nat) -> Attempt<L>, retry: bool,
                                               s: Summary, link: L, turn: nat, turns: nat)
    requires turn <= turns && s.malformed + s.timedOut + s.failed == 0 && AllRetryRightly(exchange, retry)
    requires s.completed == turn && s.retries == if retry then turn else 0
    ensures var e := Phase(exchange, s, link, turn, turns).summary;
            && e.malformed + e.timedOut + e.failed <= 1
            && (e.malformed + e.timedOut + e.failed == 0 <==> e.completed == turns)
            && e.completed <= turns
            && (if retry then e.completed <= e.retries <= e.completed + 1 else e.retries == 0)
    decreases turns - turn
  {
    if turn < turns {
      var e := exchange(link, turn, IdAt(turn));
      assert RetriesRightly(exchange, retry, link, turn, IdAt(turn));
      if e.fault.None? {
        PhaseAddsUp(exchange, retry, Counted(s, e), e.link, turn + 1, turns);
      }
    }
  }

  /** On every network: turns taken are completed or end the phase, and each is retried as it should. */
  lemma {:induction false} OutcomesAddUp<S(!new)>(hash: Bytes -> Bytes, f: Fixtures, net: Network<S>,
                                                  scenario: Scenario, link: Link<S>, turns: nat)
    requires f.Sound()
    ensures var e := Phase(Client(hash, f, net, scenario), NOTHING, link, 0, turns).summary;
            && e.malformed + e.timedOut + e.failed <= 1
            && (e.malformed + e.timedOut + e.failed == 0 <==> e.completed == turns)
            && e.completed <= turns
            && (if scenario.Retry? then e.completed <= e.retries <= e.completed + 1 else e.retries == 0)
  {
    ClientRetriesRightly(hash, f, net, scenario);
    PhaseAddsUp(Client(hash, f, net, scenario), scenario.Retry?, NOTHING, link, 0, turns);
  }

  // ---------------------------------------------------------------- against the authority

  /** How the segments of each write are cut: every octet arrives, once and in order. */
  type Cutting = (nat, Bytes) -> seq<Bytes>

  ghost predicate Lossless(cut: Cutting) { forall turn, sent :: Concat(cut(turn, sent)) == sent }

  /** The authority behind a network that loses nothing, on one connection for all turns. */
  function Wire(hash: Bytes -> Bytes, f: Fixtures, cut: Cutting): Network<Side>
    requires f.Sound()
  {
    Network((turn, q) => DatagramFor(hash, f, q), (turn, a, sent) => SegmentsFor(hash, f, a, cut(turn, sent)))
  }

  /** `serveUDP`: a query it refuses is answered by nothing. */
  function DatagramFor(hash: Bytes -> Bytes, f: Fixtures, q: Bytes): Datagram
    requires f.Sound()
  {
    var r := ResponseFor(hash, f, q, true);
    if r.None? then NoDatagram(TimedOut) else Datagram(r.value)
  }

  function SegmentsFor(hash: Bytes -> Bytes, f: Fixtures, a: Side, segments: seq<Bytes>): Arrival<Side>
    requires f.Sound()
  {
    var r := Serve(Authority(hash, f), a, segments);
    Arrival(r.written, r.side, if r.side.open then TimedOut else Broken)
  }

  /** Between two exchanges: the authority listens, and no octet is buffered or unread. */
  const AT_REST: Link<Side> := Link(Side([], true), [])

  lemma {:induction false} ServeIsFeedAll(next: Bytes -> Step<Bytes>, b: Bytes, segments: seq<Bytes>)
    requires !FeedAll(next, b, segments).refused
    ensures var d := FeedAll(next, b, segments);
            Serve(next, Side(b, true), segments) == Served(Concat(d.items), Side(d.rest, true))
    decreases |segments|
  {
    if segments != [] {
      var d := Drain(next, b + segments[0]);
      ServeIsFeedAll(next, d.rest, segments[1..]);
      ConcatAppend(d.items, FeedAll(next, d.rest, segments[1..]).items);
    }
  }

  lemma OneItem(x: Bytes)
    ensures Concat([x]) == x
  {
    assert [x][1..] == [];
    Empty(x);
  }

  /** However a query is cut, the authority writes one response, keeps the connection and buffers nothing. */
  lemma {:induction false} AuthorityAnswers(hash: Bytes -> Bytes, f: Fixtures, q: Bytes, segments: seq<Bytes>)
    requires f.Sound() && |q| in {27, 45} && ResponseFor(hash, f, q, false).Some?
    requires Concat(segments) == FrameOf(q)
    ensures Serve(Authority(hash, f), Side([], true), segments) ==
            Served(FrameOf(ResponseFor(hash, f, q, false).value), Side([], true))
  {
    var next, b := Authority(hash, f), FrameOf(q);
    var r := FrameOf(ResponseFor(hash, f, q, false).value);
    PrefixReads(q);
    assert b[2..2 + |q|] == q;
    assert next(b) == Got(r, |b|);
    assert b[|b|..] == [];
    assert Drain(next, []) == Drained([], [], false);
    assert Drain(next, b) == Drained([r], [], false);
    AuthoritySteady(hash, f);
    Empty(b);
    FeedAllFrom(next, [], segments);
    ServeIsFeedAll(next, [], segments);
    OneItem(r);
  }

  /** The octets of one exchange of a scenario. */
  function WireSize(f: Fixtures, scenario: Scenario): nat
  {
    match scenario
    case Udp => |f.aQuery| + |f.aResponse|
    case Tcp => 2 + |f.aQuery| + 2 + |f.aResponse|
    case Retry => |f.largeQuery| + |f.truncated| + 2 + |f.largeQuery| + 2 + |f.large|
  }

  lemma FlagsKept(m: Bytes, id: nat)
    requires |m| >= 4
    ensures Authoritative(WithID(m, id)) == Authoritative(m) && Truncated(WithID(m, id)) == Truncated(m)
  {
    var r := WithID(m, id);
    assert r[2] == r[2..][0] && r[3] == r[2..][1] && m[2] == m[2..][0] && m[3] == m[2..][1];
  }

  lemma ResponseValidates(hash: Bytes -> Bytes, template: Bytes, expected: Bytes, id: nat)
    requires |template| >= 12 && WithID(template, 0) == template && id < 65536
    requires |expected| >= 12 && WithID(expected, 0) == expected && Authoritative(expected)
    ensures Validates(hash, template, expected, WithID(template, id), WithID(expected, id), id)
  {
    IdReplaced(template, id, 0);
    IdReplaced(expected, id, 0);
    IdReads(expected, id);
    FlagsKept(expected, id);
  }

  /** What the authority answers to a query of the executor. */
  lemma {:induction false} Answered(hash: Bytes -> Bytes, f: Fixtures, id: nat, udp: bool)
    requires f.Sound() && 0 < id < 65536
    ensures ResponseFor(hash, f, WithID(f.aQuery, id), udp) == Some(WithID(f.aResponse, id))
    ensures ResponseFor(hash, f, WithID(f.largeQuery, id), udp) ==
            Some(WithID(if hash(f.aQuery) == hash(f.largeQuery) then f.aResponse
                        else if udp then f.truncated else f.large, id))
  {
    IdReplaced(f.aQuery, id, 0);
    IdReplaced(f.largeQuery, id, 0);
    IdReads(f.aQuery, id);
    IdReads(f.largeQuery, id);
  }

  /** The executor's read of a response that is on the stream alone. */
  lemma ReadsResponse(hash: Bytes -> Bytes, template: Bytes, expected: Bytes, id: nat, fault: Fault)
    requires |template| >= 12 && WithID(template, 0) == template && id < 65536
    requires IsExpected(expected) && |expected| <= 65535
    ensures ExchangeTCP(hash, template, expected, id, FrameOf(WithID(expected, id)), fault) ==
            Streamed(2 + |template| + 2 + |expected|, None, [])
  {
    var r := WithID(expected, id);
    var arrived := FrameOf(r);
    PrefixReads(r);
    PrefixReads(WithID(template, id));
    assert arrived[2..2 + |r|] == r && arrived[2 + |r|..] == [];
    ResponseValidates(hash, template, expected, id);
  }

  /** A connection at rest carries a query and its response, and is at rest again. */
  lemma TcpSucceeds(hash: Bytes -> Bytes, f: Fixtures, cut: Cutting, turn: nat, id: nat,
                    template: Bytes, expected: Bytes)
    requires f.Sound() && Lossless(cut) && id < 65536
    requires |template| in {27, 45} && WithID(template, 0) == template
    requires IsExpected(expected) && |expected| <= 65535
    requires ResponseFor(hash, f, WithID(template, id), false) == Some(WithID(expected, id))
    ensures OverTCP(hash, Wire(hash, f, cut), template, expected, AT_REST, turn, id) ==
            Attempt(2 + |template| + 2 + |expected|, 0, None, AT_REST)
  {
    var q, r := WithID(template, id), FrameOf(WithID(expected, id));
    AuthorityAnswers(hash, f, q, cut(turn, FrameOf(q)));
    Empty(r);
    ReadsResponse(hash, template, expected, id, TimedOut);
  }

  lemma UdpSucceeds(hash: Bytes -> Bytes, f: Fixtures, id: nat, template: Bytes, expected: Bytes)
    requires f.Sound() && id < 65536 && |template| >= 12 && WithID(template, 0) == template && IsExpected(expected)
    requires ResponseFor(hash, f, WithID(template, id), true) == Some(WithID(expected, id))
    ensures ExchangeUDP(hash, template, expected, id, Truncated(expected), DatagramFor(hash, f, WithID(template, id)))
            == Exchanged(|template| + |expected|, None)
  {
    ResponseValidates(hash, template, expected, id);
    FlagsKept(expected, id);
  }

  lemma RetrySucceeds(hash: Bytes -> Bytes, f: Fixtures, cut: Cutting, turn: nat, id: nat, retry: nat)
    requires f.Sound() && Lossless(cut) && hash(f.aQuery) != hash(f.largeQuery)
    requires 0 < id < 65536 && 0 < retry < 65536
    ensures ExchangeUDP(hash, f.largeQuery, f.truncated, id, true, DatagramFor(hash, f, WithID(f.largeQuery, id)))
            == Exchanged(|f.largeQuery| + |f.truncated|, None)
    ensures OverTCP(hash, Wire(hash, f, cut), f.largeQuery, f.large, AT_REST, turn, retry)
            == Attempt(2 + |f.largeQuery| + 2 + |f.large|, 0, None, AT_REST)
  {
    Answered(hash, f, id, true);
    UdpSucceeds(hash, f, id, f.largeQuery, f.truncated);
    Answered(hash, f, retry, false);
    TcpSucceeds(hash, f, cut, turn, retry, f.largeQuery, f.large);
  }

  /** The authority can tell the two queries apart, where that is needed. */
  predicate Told(hash: Bytes -> Bytes, f: Fixtures, scenario: Scenario)
  {
    scenario.Retry? ==> hash(f.aQuery) != hash(f.largeQuery)
  }

  /** Every exchange on a connection at rest validates, and leaves it at rest. */
  lemma {:induction false} ExchangeSucceeds(hash: Bytes -> Bytes, f: Fixtures, cut: Cutting,
                                             scenario: Scenario, turn: nat)
    requires f.Sound() && Lossless(cut) && Told(hash, f, scenario)
    ensures Exchange(hash, f, Wire(hash, f, cut), scenario, AT_REST, turn, IdAt(turn)) ==
            Attempt(WireSize(f, scenario), if scenario.Retry? then 1 else 0, None, AT_REST)
  {
    var id := IdAt(turn);
    IdSequence(turn);
    match scenario
    case Udp =>
      Answered(hash, f, id, true);
      UdpSucceeds(hash, f, id, f.aQuery, f.aResponse);
    case Tcp =>
      Answered(hash, f, id, false);
      TcpSucceeds(hash, f, cut, turn, id, f.aQuery, f.aResponse);
    case Retry =>
      RetryIdNew(turn);
      RetrySucceeds(hash, f, cut, turn, id, RetryId(id));
  }

  /** A query taken for the other one gets a response without the TC flag. */
  lemma MistakenFails(hash: Bytes -> Bytes, f: Fixtures, cut: Cutting, link: Link<Side>, turn: nat)
    requires f.Sound() && hash(f.aQuery) == hash(f.largeQuery)
    ensures Exchange(hash, f, Wire(hash, f, cut), Retry, link, turn, IdAt(turn)).fault == Some(Malformed)
  {
    var id := IdAt(turn);
    IdSequence(turn);
    Answered(hash, f, id, true);
    FlagsKept(f.aResponse, id);
  }

  /** The summary after `k` turns without a fault. */
  function Clean(size: nat, retry: bool, k: nat): Summary
  {
    Summary(k, if retry then k else 0, 0, 0, 0, k * size)
  }

  predicate Succeeds<L(==)>(exchange: (L, nat, nat) -> Attempt<L>, rest: L, size: nat, retry: bool, turn: nat)
  {
    exchange(rest, turn, IdAt(turn)) == Attempt(size, if retry then 1 else 0, None, rest)
  }

  lemma {:induction false} PhaseFrom<L>(exchange: (L, nat, nat) -> Attempt<L>, rest: L, size: nat, retry: bool,
                                        turn: nat, turns: nat)
    requires turn <= turns && forall t :: Succeeds(exchange, rest, size, retry, t)
    ensures Phase(exchange, Clean(size, retry, turn), rest, turn, turns) == End(Clean(size, retry, turns), rest)
    decreases turns - turn
  {
    if turn < turns {
      assert Succeeds(exchange, rest, size, retry, turn);
      NextMultiple(turn, size);
      PhaseFrom(exchange, rest, size, retry, turn + 1, turns);
    }
  }

  lemma NextMultiple(k: nat, n: nat)
    ensures (k + 1) * n == k * n + n
  {
  }

  lemma CleanPhase(hash: Bytes -> Bytes, f: Fixtures, cut: Cutting, scenario: Scenario, turns: nat)
    requires f.Sound() && Lossless(cut) && Told(hash, f, scenario)
    ensures Phase(Client(hash, f, Wire(hash, f, cut), scenario), NOTHING, AT_REST, 0, turns) ==
            End(Clean(WireSize(f, scenario), scenario.Retry?, turns), AT_REST)
  {
    var exchange, size := Client(hash, f, Wire(hash, f, cut), scenario), WireSize(f, scenario);
    forall t ensures Succeeds(exchange, AT_REST, size, scenario.Retry?, t) {
      ExchangeSucceeds(hash, f, cut, scenario, t);
    }
    PhaseFrom(exchange, AT_REST, size, scenario.Retry?, 0, turns);
  }

  /**
   On one connection to the authority, however its segments are cut, a phase of any number of
   turns completes every exchange, with one retry counted for each where there are retries,
   the octets a multiple of the wire size and the connection at rest again, if and only if
   the two queries have different digests where the scenario needs them told apart.
   */
  lemma {:induction false} LosslessPhase(hash: Bytes -> Bytes, f: Fixtures, cut: Cutting,
                                          scenario: Scenario, turns: nat)
    requires f.Sound() && Lossless(cut) && turns > 0
    ensures Phase(Client(hash, f, Wire(hash, f, cut), scenario), NOTHING, AT_REST, 0, turns) ==
              End(Clean(WireSize(f, scenario), scenario.Retry?, turns), AT_REST)
            <==> Told(hash, f, scenario)
  {
    if Told(hash, f, scenario) {
      CleanPhase(hash, f, cut, scenario, turns);
    } else {
      MistakenFails(hash, f, cut, AT_REST, 0);
    }
  }

  // ---------------------------------------------------------------- the committed fixtures

  const LARGE_QUESTION: Bytes :=
    [6, 100, 110, 115, 107, 101, 121, 4, 112, 108, 97, 98, 4, 116, 101, 115, 116, 0, 0, 48, 0, 1]
  const OPT_RECORD: Bytes := [0, 0, 41, 2, 0, 0, 0, 0x80, 0, 0, 0]

  function Key(b: byte): (r: Bytes)
    ensures |r| == 80
  {
    [0xc0, 12, 0, 48, 0, 1, 0, 0, 0, 0, 0, 68, 1, 1, 3, 13] + seq(64, _ => b)
  }

  function Signature(): (r: Bytes)
    ensures |r| == 105
  {
    [0xc0, 12, 0, 46, 0, 1, 0, 0, 0, 0, 0, 93, 0, 48, 13, 3, 0, 0, 0, 0,
     0x77, 0x35, 0x94, 0, 0x71, 0x3f, 0xb3, 0, 48, 57, 4, 112, 108, 97, 98, 4, 116, 101, 115, 116, 0]
    + seq(64, _ => 0xa5)
  }

  function AQuery(): (r: Bytes)
    ensures |r| == 27 && r[0] == 0 && r[1] == 0
  {
    [0, 0, 0, 0, 0, 1, 0, 0, 0, 0, 0, 0, 4, 112, 108, 97, 98, 4, 116, 101, 115, 116, 0, 0, 1, 0, 1]
  }

  function AResponse(): (r: Bytes)
    ensures |r| == 43 && r[0] == 0 && r[1] == 0 && r[2] == 0x84 && r[3] == 0
  {
    [0, 0, 0x84, 0, 0, 1, 0, 1, 0, 0, 0, 0, 4, 112, 108, 97, 98, 4, 116, 101, 115, 116, 0, 0, 1, 0, 1,
     0xc0, 12, 0, 1, 0, 1, 0, 0, 0, 0, 0, 4, 192, 0, 2, 1]
  }

  function LargeQuery(): (r: Bytes)
    ensures |r| == 45 && r[0] == 0 && r[1] == 0
  {
    [0, 0, 0, 0, 0, 1, 0, 0, 0, 0, 0, 1] + LARGE_QUESTION + OPT_RECORD
  }

  function TruncatedResponse(): (r: Bytes)
    ensures |r| == 45 && r[0] == 0 && r[1] == 0 && r[2] == 0x86 && r[3] == 0
  {
    [0, 0, 0x86, 0, 0, 1, 0, 0, 0, 0, 0, 1] + LARGE_QUESTION + OPT_RECORD
  }

  function LargeResponse(): (r: Bytes)
    ensures |r| == 630 && r[0] == 0 && r[1] == 0 && r[2] == 0x84 && r[3] == 0
  {
    [0, 0, 0x84, 0, 0, 1, 0, 7, 0, 0, 0, 1]
    + (LARGE_QUESTION + Key(1) + Key(2) + Key(3) + Key(4) + Key(5) + Key(6) + Signature() + OPT_RECORD)
  }

  function Committed(): Fixtures
  {
    Fixtures(AQuery(), AResponse(), LargeQuery(), TruncatedResponse(), LargeResponse())
  }

  lemma ReplyFits(r: Bytes)
    requires 12 <= |r| <= 65535 && r[0] == 0 && r[1] == 0 && Authoritative(r)
    ensures IsReply(r)
  {
    IdKept(r);
  }

  lemma SoundFrom(f: Fixtures)
    requires |f.aQuery| == 27 && Short(f.aQuery, 0) == 0 && |f.largeQuery| == 45 && Short(f.largeQuery, 0) == 0
    requires IsReply(f.aResponse) && IsReply(f.truncated) && IsReply(f.large)
    requires Truncated(f.truncated) && !Truncated(f.aResponse)
    ensures f.Sound()
  {
    IdKept(f.aQuery);
    IdKept(f.largeQuery);
  }

  /** The committed fixtures are sound; a retry exchange transfers 769 octets. */
  lemma {:induction false} CommittedSound()
    ensures Committed().Sound()
    ensures WireSize(Committed(), Udp) == 70 && WireSize(Committed(), Tcp) == 74
    ensures WireSize(Committed(), Retry) == 769
  {
    ReplyFits(AResponse());
    ReplyFits(TruncatedResponse());
    ReplyFits(LargeResponse());
    SoundFrom(Committed());
  }
}
