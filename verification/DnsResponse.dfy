/**
 The validators of DNS responses of the DoH and DoQ executors, against a reference parser
 of whole DNS messages (sections 4.1.1 to 4.1.4 of RFC 1035) that allows any compression.
 */
module DnsResponse {
  import opened Octets
  import opened DnsName

  // ---------------------------------------------------------------- the reference parser

  datatype Question = Question(name: Bytes, qtype: nat, qclass: nat)

  datatype Record = Record(owner: Bytes, rtype: nat, rclass: nat, ttl: nat, rdata: Bytes)

  datatype Message = Message(id: nat, flags: nat, questions: seq<Question>,
                             answers: seq<Record>, authorities: seq<Record>, additionals: seq<Record>)

  /** A value parsed, and the offset behind it. */
  datatype Parsed<+T> = Nothing | Parsed(value: T, end: nat)

  function ParseQuestion(m: Bytes, o: nat): Parsed<Question>
  {
    var n := Outcome(Resolve(m, o, 32));
    if n.Failed? || n.next + 4 > |m| then Nothing
    else Parsed(Question(n.name, Short(m, n.next), Short(m, n.next + 2)), n.next + 4)
  }

  function ParseRecord(m: Bytes, o: nat): Parsed<Record>
  {
    var n := Outcome(Resolve(m, o, 32));
    if n.Failed? || n.next + 10 > |m| then Nothing
    else
      var data, length := n.next + 10, Short(m, n.next + 8);
      if data + length > |m| then Nothing
      else
        Parsed(Record(n.name, Short(m, n.next), Short(m, n.next + 2), Long(m, n.next + 4),
                      m[data..data + length]),
               data + length)
  }

  /** `n` entries one behind the other. */
  function Entries<T>(one: (Bytes, nat) -> Parsed<T>, m: Bytes, o: nat, n: nat): Parsed<seq<T>>
    decreases n
  {
    if n == 0 then Parsed([], o)
    else
      var first := one(m, o);
      if first.Nothing? then Nothing
      else
        var rest := Entries(one, m, first.end, n - 1);
        if rest.Nothing? then Nothing else Parsed([first.value] + rest.value, rest.end)
  }

  /** A message whose questions and records are read by the given parsers, without anything behind it. */
  function MessageBy(question: (Bytes, nat) -> Parsed<Question>, record: (Bytes, nat) -> Parsed<Record>, m: Bytes)
    : Option<Message>
  {
    if |m| < 12 then None
    else
      var q := Entries(question, m, 12, Short(m, 4));
      if q.Nothing? then None
      else
        var an := Entries(record, m, q.end, Short(m, 6));
        if an.Nothing? then None
        else
          var ns := Entries(record, m, an.end, Short(m, 8));
          if ns.Nothing? then None
          else
            var ar := Entries(record, m, ns.end, Short(m, 10));
            if ar.Nothing? || ar.end != |m| then None
            else Some(Message(Short(m, 0), Short(m, 2), q.value, an.value, ns.value, ar.value))
  }

  /** The message a sequence of octets is, if it is one. */
  function ParseMessage(m: Bytes): Option<Message> { MessageBy(ParseQuestion, ParseRecord, m) }

  // ---------------------------------------------------------------- the expected response

  const PLAB: Bytes := [112, 108, 97, 98]
  const TEST: Bytes := [116, 101, 115, 116]
  const PLAB_TEST: Bytes := PLAB + [DOT] + TEST + [DOT]
  const ADDRESS: Bytes := [192, 0, 2, 1]

  const AUTHORITATIVE := 0x8400
  const RESOLVER := 0x8180

  function Expected(flags: nat): Message
  {
    Message(0, flags, [Question(PLAB_TEST, 1, 1)], [Record(PLAB_TEST, 1, 1, 0, ADDRESS)], [], [])
  }

  lemma {:induction false} EntriesCount<T>(one: (Bytes, nat) -> Parsed<T>, m: Bytes, o: nat, n: nat)
    ensures var e := Entries(one, m, o, n); e.Parsed? ==> |e.value| == n
    decreases n
  {
    if n > 0 && one(m, o).Parsed? {
      EntriesCount(one, m, one(m, o).end, n - 1);
    }
  }

  lemma OneEntry<T>(one: (Bytes, nat) -> Parsed<T>, m: Bytes, o: nat)
    ensures Entries(one, m, o, 1) ==
            var e := one(m, o); if e.Nothing? then Nothing else Parsed([e.value], e.end)
  {
    var e := one(m, o);
    if e.Parsed? {
      assert Entries(one, m, e.end, 0) == Parsed([], e.end);
      assert [e.value] + [] == [e.value];
    }
  }

  /** The sections of a message with the counts 1, 1, 0, 0. */
  lemma OneAnswer(m: Bytes)
    requires |m| >= 12
    requires Short(m, 4) == 1 && Short(m, 6) == 1 && Short(m, 8) == 0 && Short(m, 10) == 0
    ensures var q := ParseQuestion(m, 12);
            ParseMessage(m) ==
              if q.Nothing? then None else
                var a := ParseRecord(m, q.end);
                if a.Nothing? || a.end != |m| then None
                else Some(Message(Short(m, 0), Short(m, 2), [q.value], [a.value], [], []))
  {
    OneEntry(ParseQuestion, m, 12);
    var q := ParseQuestion(m, 12);
    if q.Parsed? {
      OneEntry(ParseRecord, m, q.end);
    }
  }

  /** A message parses to as many entries as its header announces. */
  lemma {:induction false} CountsAgree(m: Bytes)
    requires ParseMessage(m).Some?
    ensures |m| >= 12
    ensures var p := ParseMessage(m).value;
            && |p.questions| == Short(m, 4) && |p.answers| == Short(m, 6)
            && |p.authorities| == Short(m, 8) && |p.additionals| == Short(m, 10)
            && p.id == Short(m, 0) && p.flags == Short(m, 2)
  {
    var q := Entries(ParseQuestion, m, 12, Short(m, 4));
    EntriesCount(ParseQuestion, m, 12, Short(m, 4));
    var an := Entries(ParseRecord, m, q.end, Short(m, 6));
    EntriesCount(ParseRecord, m, q.end, Short(m, 6));
    var ns := Entries(ParseRecord, m, an.end, Short(m, 8));
    EntriesCount(ParseRecord, m, an.end, Short(m, 8));
    EntriesCount(ParseRecord, m, ns.end, Short(m, 10));
  }

  // ---------------------------------------------------------------- validateDNS

  /** What the checks of the validators add up to. */
  predicate Fits(raw: Bytes, flags: nat)
  {
    && |raw| >= 12 && Short(raw, 0) == 0 && Short(raw, 2) == flags
    && Short(raw, 4) == 1 && Short(raw, 6) == 1 && Short(raw, 8) == 0 && Short(raw, 10) == 0
    && var q := ParseQuestion(raw, 12);
    && q.Parsed? && q.value == Question(PLAB_TEST, 1, 1)
    && ParseRecord(raw, q.end) == Parsed(Record(PLAB_TEST, 1, 1, 0, ADDRESS), |raw|)
  }

  lemma FitsExactlyWhen(raw: Bytes, flags: nat)
    ensures Fits(raw, flags) <==> ParseMessage(raw) == Some(Expected(flags))
  {
    if ParseMessage(raw) == Some(Expected(flags)) {
      CountsAgree(raw);
      OneAnswer(raw);
    }
    if Fits(raw, flags) {
      OneAnswer(raw);
    }
  }

  method CheckQuestion(raw: Bytes) returns (accepted: bool, next: nat)
    ensures accepted <==> ParseQuestion(raw, 12).Parsed? && ParseQuestion(raw, 12).value == Question(PLAB_TEST, 1, 1)
    ensures accepted ==> next == ParseQuestion(raw, 12).end
  {
    var question := ReadName(raw, 12);
    if question.Failed? || question.name != PLAB_TEST {
      return false, 0;
    }
    next := question.next;
    if next + 4 > |raw| || Short(raw, next) != 1 || Short(raw, next + 2) != 1 {
      return false, 0;
    }
    return true, next + 4;
  }

  method CheckAnswer(raw: Bytes, start: nat) returns (accepted: bool)
    ensures accepted <==> ParseRecord(raw, start) == Parsed(Record(PLAB_TEST, 1, 1, 0, ADDRESS), |raw|)
  {
    var owner := ReadName(raw, start);
    if owner.Failed? || owner.name != PLAB_TEST {
      return false;
    }
    var next := owner.next;
    if next + 10 > |raw| {
      return false;
    }
    var rtype, rclass, ttl := Short(raw, next), Short(raw, next + 2), Long(raw, next + 4);
    var length := Short(raw, next + 8);
    next := next + 10;
    return !(rtype != 1 || rclass != 1 || ttl != 0 || length != 4 || next + 4 != |raw|
             || raw[next..next + 4] != ADDRESS);
  }

  /** The checks in the order of the source. */
  method CheckMessage(raw: Bytes, flags: nat) returns (accepted: bool)
    ensures accepted == Fits(raw, flags)
  {
    if |raw| < 12 || Short(raw, 0) != 0 {
      return false;
    }
    if Short(raw, 2) != flags {
      return false;
    }
    if Short(raw, 4) != 1 || Short(raw, 6) != 1 || Short(raw, 8) != 0 || Short(raw, 10) != 0 {
      return false;
    }
    var fits, next := CheckQuestion(raw);
    if !fits {
      return false;
    }
    accepted := CheckAnswer(raw, next);
  }

  /**
   `validateDNS`: a response is accepted exactly when the reference parser reads in it the
   canonical response and nothing more, whatever its names are compressed to.
   */
  method ValidateDNS(raw: Bytes, resolver: bool) returns (accepted: bool)
    ensures accepted <==> ParseMessage(raw) == Some(Expected(if resolver then RESOLVER else AUTHORITATIVE))
  {
    var flags := if resolver then RESOLVER else AUTHORITATIVE;
    accepted := CheckMessage(raw, flags);
    FitsExactlyWhen(raw, flags);
  }

  // ---------------------------------------------------------------- DoQ framing

  /** `frame`: the length, kept modulo 65536, in front of the message. */
  function FrameOf(message: Bytes): Bytes { ToBE(|message|, 2) + message }

  /** `validateDNSFrame`: the framed form, of the canonical response's length alone. */
  method ValidateDNSFrame(raw: Bytes) returns (accepted: bool)
    ensures accepted <==>
            exists m :: |m| == 43 && raw == FrameOf(m) && ParseMessage(m) == Some(Expected(AUTHORITATIVE))
  {
    if |raw| != 45 || Short(raw, 0) != 43 {
      forall m: Bytes | |m| == 43 ensures raw != FrameOf(m) {
        PrefixReads(m);
      }
      return false;
    }
    var message := raw[2..];
    FramedFrom(raw);
    forall m: Bytes | |m| == 43 && raw == FrameOf(m) ensures m == message {
      PrefixReads(m);
    }
    accepted := ValidateDNS(message, false);
  }

  /** The receiver finds length and message in a frame, for lengths its prefix can hold. */
  lemma {:induction false} PrefixReads(m: Bytes)
    ensures var f := FrameOf(m);
            && |f| == |m| + 2 && f[2..] == m
            && (Short(f, 0) == |m| <==> |m| <= 65535)
  {
    Widths();
    var f := FrameOf(m);
    assert f[..2] == ToBE(|m|, 2);
    if |m| <= 65535 {
      FromToBE(|m|, 2);
    }
    assert Short(f, 0) == U16(f[..2]);
  }

  lemma FramedFrom(raw: Bytes)
    requires |raw| >= 2 && Short(raw, 0) == |raw| - 2
    ensures raw == FrameOf(raw[2..])
  {
    ToFromBE(raw[..2]);
    assert Short(raw, 0) == U16(raw[..2]);
  }
}
