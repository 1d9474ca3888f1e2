/**
 The responses of 43 octets, the only length the DoQ validator takes: those it accepts are
 four, because one of the two names must be a pointer and the other one spelled out.
 */
module DnsShortest {
  import opened Octets
  import opened DnsName
  import opened DnsResponse
  import opened DnsSpelling

  predicate Spelled(x: Bytes) { x == SPELLED_OUT || x == ONE_LABEL }

  function Header(resolver: bool): (h: Bytes)
    ensures |h| == 12
  {
    [0, 0, if resolver then 0x81 else 0x84, if resolver then 0x80 else 0, 0, 1, 0, 1, 0, 0, 0, 0]
  }

  const TYPE_AND_CLASS: Bytes := [0, 1, 0, 1]

  /** The question spelled out, and the owner a pointer back to it. */
  function Backward(resolver: bool, x: Bytes): Bytes
  {
    Header(resolver) + x + TYPE_AND_CLASS + [0xc0, 12] + TAIL
  }

  /** The question a pointer forward, and the owner spelled out. */
  function Forward(resolver: bool, x: Bytes): Bytes
  {
    Header(resolver) + [0xc0, 18] + TYPE_AND_CLASS + x + TAIL
  }

  // ---------------------------------------------------------------- what a name takes up

  /** The name at an offset is the expected one. */
  predicate Names(m: Bytes, o: nat, visits: nat)
  {
    Resolve(m, o, visits).Some? && Dotted(Resolve(m, o, visits).value.labels) == PLAB_TEST
  }

  lemma NoLabelsLeft(m: Bytes, o: nat, visits: nat)
    requires Resolve(m, o, visits).Some? && Resolve(m, o, visits).value.labels == []
    ensures var next := Resolve(m, o, visits).value.next;
            (HopAt(m, o).End? && next == o + 1 && o < |m| && m[o] == 0) || (HopAt(m, o).Jump? && next == o + 2)
  {
  }

  /** A name that does not open with a pointer opens with its first label. */
  lemma FirstLabelHere(m: Bytes, o: nat, visits: nat, text: Bytes, rest: seq<Bytes>)
    requires Resolve(m, o, visits).Some? && Resolve(m, o, visits).value.labels == [text] + rest
    requires !HopAt(m, o).Jump?
    ensures visits > 0 && o + 1 + |text| <= |m| && 1 <= |text| && m[o] == |text|
    ensures m[o + 1..o + 1 + |text|] == text
    ensures var r := Resolve(m, o + 1 + |text|, visits - 1);
            r.Some? && r.value.labels == rest && r.value.next == Resolve(m, o, visits).value.next
  {
    var r := Resolve(m, HopAt(m, o).next, visits - 1).value;
    assert ([HopAt(m, o).text] + r.labels)[1..] == r.labels && ([text] + rest)[1..] == rest;
    assert ([HopAt(m, o).text] + r.labels)[0] == text;
  }

  lemma OneLabelSpan(m: Bytes, o: nat, visits: nat)
    requires Resolve(m, o, visits).Some? && Resolve(m, o, visits).value.labels == [PLAB + [DOT] + TEST]
    requires !HopAt(m, o).Jump?
    ensures var next := Resolve(m, o, visits).value.next;
            next == o + 12 || (next == o + 11 <= |m| && m[o..o + 11] == ONE_LABEL)
  {
    var text := PLAB + [DOT] + TEST;
    assert [text] == [text] + [];
    FirstLabelHere(m, o, visits, text, []);
    NoLabelsLeft(m, o + 10, visits - 1);
    if HopAt(m, o + 10).End? {
      assert m[o..o + 11] == [m[o]] + m[o + 1..o + 10] + [m[o + 10]];
    }
  }

  lemma TwoLabelsSpan(m: Bytes, o: nat, visits: nat)
    requires Resolve(m, o, visits).Some? && Resolve(m, o, visits).value.labels == [PLAB, TEST]
    requires !HopAt(m, o).Jump?
    ensures var next := Resolve(m, o, visits).value.next;
            next == o + 7 || next == o + 12 || (next == o + 11 <= |m| && m[o..o + 11] == SPELLED_OUT)
  {
    assert [PLAB, TEST] == [PLAB] + [TEST];
    FirstLabelHere(m, o, visits, PLAB, [TEST]);
    if !HopAt(m, o + 5).Jump? {
      assert [TEST] == [TEST] + [];
      FirstLabelHere(m, o + 5, visits - 1, TEST, []);
      NoLabelsLeft(m, o + 10, visits - 2);
      if HopAt(m, o + 10).End? {
        SpellsTwo(m, o);
      }
    }
  }

  lemma SpellsTwo(m: Bytes, o: nat)
    requires o + 11 <= |m| && m[o] == 4 && m[o + 1..o + 5] == PLAB
    requires m[o + 5] == 4 && m[o + 6..o + 10] == TEST && m[o + 10] == 0
    ensures m[o..o + 11] == SPELLED_OUT
  {
    assert m[o..o + 11] == [m[o]] + m[o + 1..o + 5] + [m[o + 5]] + m[o + 6..o + 10] + [m[o + 10]];
  }

  /** The expected name takes 2, 7, 11 or 12 octets in place: a pointer, or spelled out with or without one. */
  lemma NameSpan(m: Bytes, o: nat, visits: nat)
    requires Names(m, o, visits)
    ensures var next := Resolve(m, o, visits).value.next;
            if HopAt(m, o).Jump? then next == o + 2
            else next == o + 7 || next == o + 12 || (next == o + 11 <= |m| && Spelled(m[o..o + 11]))
  {
    var labels := Resolve(m, o, visits).value.labels;
    TwoReadings(labels);
    if !HopAt(m, o).Jump? {
      if labels == [PLAB, TEST] {
        TwoLabelsSpan(m, o, visits);
      } else {
        OneLabelSpan(m, o, visits);
      }
    }
  }

  // ---------------------------------------------------------------- where a pointer can point

  lemma NameOpens(m: Bytes, o: nat, visits: nat)
    requires Names(m, o, visits)
    ensures HopAt(m, o).Jump? || (o + 1 < |m| && m[o] < 64 && m[o + 1] == 112)
  {
    var labels := Resolve(m, o, visits).value.labels;
    TwoReadings(labels);
    if !HopAt(m, o).Jump? {
      assert labels == [labels[0]] + labels[1..];
      FirstLabelHere(m, o, visits, labels[0], labels[1..]);
      assert m[o + 1] == m[o + 1..o + 1 + |labels[0]|][0];
    }
  }

  /** Away from the pointer at `at`, one `p` and one octet that looks like a pointer, to the start. */
  predicate Landmarks(m: Bytes, at: nat, good: nat)
  {
    && |m| == 43 && m[0] == 0 && at < 39 && at + 1 < 39 && m[39] == 192 && m[40] == 0
    && forall k :: 0 <= k < 43 && k != at && k != at + 1 ==>
         (m[k] == 112 ==> k == good + 1) && (m[k] >= 192 ==> k == 39)
  }

  lemma PointerLands(m: Bytes, at: nat, good: nat, visits: nat)
    requires Landmarks(m, at, good) && Names(m, at, visits) && HopAt(m, at).Jump?
    ensures HopAt(m, at).next == good
  {
    var t := HopAt(m, at).next;
    NotItself(m, at, visits);
    var left := visits - 1;
    assert Names(m, t, left);
    NameOpens(m, t, left);
    NotZero(m, t, left);
  }

  lemma NotItself(m: Bytes, at: nat, visits: nat)
    requires Names(m, at, visits)
    ensures HopAt(m, at) != Jump(at)
  {
    if HopAt(m, at) == Jump(at) {
      assert Walk(m, at, [at], at) by { assert [at][1..] == []; }
      Loops(m, at, [at], at, visits);
    }
  }

  lemma NotZero(m: Bytes, t: nat, visits: nat)
    requires Names(m, t, visits) && |m| > 0 && m[0] == 0
    ensures HopAt(m, t) != Jump(0)
  {
    if HopAt(m, t) == Jump(0) {
      RootNamesNothing(m, t, visits);
      NoDots();
    }
  }

  lemma RootNamesNothing(m: Bytes, t: nat, visits: nat)
    requires Resolve(m, t, visits).Some? && HopAt(m, t) == Jump(0) && |m| > 0 && m[0] == 0
    ensures Resolve(m, t, visits).value.labels == []
  {
    assert HopAt(m, 0).End?;
    assert Resolve(m, 0, visits - 1).value.labels == [];
  }

  lemma NoDots()
    ensures Dotted([]) != PLAB_TEST
  {
  }

  // ---------------------------------------------------------------- the four

  /** Header, question and answer of a message, by their octets. */
  predicate Parts(m: Bytes, resolver: bool, n: nat)
  {
    && |m| == 43 && 12 <= n <= 25 && m[..12] == Header(resolver)
    && m[n..n + 4] == TYPE_AND_CLASS && m[29..] == TAIL
    && Names(m, 12, 32) && Resolve(m, 12, 32).value.next == n
    && Names(m, n + 4, 32) && Resolve(m, n + 4, 32).value.next == 29
  }

  lemma ShortOctets(m: Bytes, o: nat)
    requires o + 2 <= |m|
    ensures m[o] == Short(m, o) / 256 && m[o + 1] == Short(m, o) % 256
  {
  }

  lemma HeaderOctets(m: Bytes, resolver: bool)
    requires |m| >= 12
    ensures m[..12] == Header(resolver) <==>
            && Short(m, 0) == 0 && Short(m, 2) == Flags(resolver)
            && Short(m, 4) == 1 && Short(m, 6) == 1 && Short(m, 8) == 0 && Short(m, 10) == 0
  {
    var h := Header(resolver);
    assert forall k :: 0 <= k < 12 ==> m[..12][k] == m[k];
    ShortOctets(m, 0);
    ShortOctets(m, 2);
    ShortOctets(m, 4);
    ShortOctets(m, 6);
    ShortOctets(m, 8);
    ShortOctets(m, 10);
  }

  lemma QuestionOctets(m: Bytes, n: nat)
    requires n + 4 <= |m|
    ensures m[n..n + 4] == TYPE_AND_CLASS <==> Short(m, n) == 1 && Short(m, n + 2) == 1
  {
    var q := m[n..n + 4];
    assert q[0] == m[n] && q[1] == m[n + 1] && q[2] == m[n + 2] && q[3] == m[n + 3];
    ShortOctets(m, n);
    ShortOctets(m, n + 2);
  }

  lemma AnswerOctets(m: Bytes)
    requires |m| == 43 && Short(m, 29) == 1 && Short(m, 31) == 1 && Long(m, 33) == 0 && Short(m, 37) == 4
    requires m[39..43] == ADDRESS
    ensures m[29..] == TAIL
  {
    ShortOctets(m, 29);
    ShortOctets(m, 31);
    ShortOctets(m, 33);
    ShortOctets(m, 35);
    ShortOctets(m, 37);
    assert m[29..] == [m[29], m[30], m[31], m[32], m[33], m[34], m[35], m[36], m[37], m[38]] + m[39..43];
  }

  /** The question by the name in front of it; what the name resolves to does not matter here. */
  lemma QuestionBehind(m: Bytes, o: nat, name: Read)
    requires name == Outcome(Resolve(m, o, 32))
    requires ParseQuestion(m, o).Parsed? && ParseQuestion(m, o).value == Question(PLAB_TEST, 1, 1)
    ensures name.Good? && name.name == PLAB_TEST && name.next + 4 == ParseQuestion(m, o).end <= |m|
    ensures Short(m, name.next) == 1 && Short(m, name.next + 2) == 1
  {
  }

  lemma QuestionParts(m: Bytes, o: nat)
    requires ParseQuestion(m, o).Parsed? && ParseQuestion(m, o).value == Question(PLAB_TEST, 1, 1)
    ensures Names(m, o, 32)
    ensures var n := Resolve(m, o, 32).value.next;
            o < n && n + 4 == ParseQuestion(m, o).end <= |m| && m[n..n + 4] == TYPE_AND_CLASS
  {
    var name := Outcome(Resolve(m, o, 32));
    QuestionBehind(m, o, name);
    NextInRange(m, o, 32);
    QuestionOctets(m, name.next);
  }

  lemma AnswerParts(m: Bytes, o: nat)
    requires |m| == 43 && ParseRecord(m, o) == Parsed(Record(PLAB_TEST, 1, 1, 0, ADDRESS), |m|)
    ensures Names(m, o, 32) && Resolve(m, o, 32).value.next == 29 && o < 29 && m[29..] == TAIL
  {
    NextInRange(m, o, 32);
    AnswerOctets(m);
  }

  /** A message of 43 octets that fits has these parts. */
  lemma FitsHasParts(m: Bytes, resolver: bool) returns (n: nat)
    requires |m| == 43 && Fits(m, Flags(resolver))
    ensures Parts(m, resolver, n)
  {
    HeaderOctets(m, resolver);
    QuestionParts(m, 12);
    n := Resolve(m, 12, 32).value.next;
    AnswerParts(m, n + 4);
  }

  lemma PartsFit(m: Bytes, resolver: bool, n: nat)
    requires Parts(m, resolver, n)
    ensures Fits(m, Flags(resolver))
  {
    HeaderOctets(m, resolver);
    QuestionOctets(m, n);
    AnswerDecides(m, n + 4, 29);
  }

  /** Either the question is spelled out and the owner a pointer, or the other way round. */
  lemma PartsAre(m: Bytes, resolver: bool, n: nat)
    requires Parts(m, resolver, n)
    ensures (n == 23 && Spelled(m[12..23]) && HopAt(m, 27).Jump?)
            || (n == 14 && HopAt(m, 12).Jump? && Spelled(m[18..29]))
  {
    NameSpan(m, 12, 32);
    NameSpan(m, n + 4, 32);
  }

  lemma PointerOctets(m: Bytes, at: nat, t: nat)
    requires HopAt(m, at) == Jump(t) && t < 256
    ensures at + 2 <= |m| && m[at..at + 2] == [192, t]
  {
  }

  lemma BackwardIs(m: Bytes, resolver: bool)
    requires Parts(m, resolver, 23) && Spelled(m[12..23]) && HopAt(m, 27).Jump?
    ensures m == Backward(resolver, m[12..23])
  {
    var x := m[12..23];
    LandmarksBackward(m, resolver);
    PointerLands(m, 27, 12, 32);
    PointerOctets(m, 27, 12);
    assert m == m[..12] + x + m[23..27] + m[27..29] + m[29..];
  }

  lemma ForwardIs(m: Bytes, resolver: bool)
    requires Parts(m, resolver, 14) && Spelled(m[18..29]) && HopAt(m, 12).Jump?
    ensures m == Forward(resolver, m[18..29])
  {
    var x := m[18..29];
    LandmarksForward(m, resolver);
    PointerLands(m, 12, 18, 32);
    PointerOctets(m, 12, 18);
    assert m == m[..12] + m[12..14] + m[14..18] + x + m[29..];
  }

  /** In a piece of the message, only the octet behind `good` is a `p`, and only 39 looks like a pointer. */
  predicate Plain(part: Bytes, o: nat, good: nat)
  {
    forall k :: 0 <= k < |part| ==> (part[k] == 112 ==> o + k == good + 1) && (part[k] >= 192 ==> o + k == 39)
  }

  lemma PlainPieces(resolver: bool, x: Bytes, o: nat)
    requires Spelled(x)
    ensures Plain(Header(resolver), 0, o) && Plain(TYPE_AND_CLASS, 23, o) && Plain(TYPE_AND_CLASS, 14, o)
    ensures Plain(x, o, o) && Plain(TAIL, 29, o)
  {
  }

  lemma LandmarksBackward(m: Bytes, resolver: bool)
    requires Parts(m, resolver, 23) && Spelled(m[12..23])
    ensures Landmarks(m, 27, 12)
  {
    PlainPieces(resolver, m[12..23], 12);
    assert m[0] == m[..12][0] && m[39] == m[29..][10] && m[40] == m[29..][11];
    forall k | 0 <= k < 43 && k != 27 && k != 28
      ensures (m[k] == 112 ==> k == 13) && (m[k] >= 192 ==> k == 39)
    {
      if k < 12 {
        assert m[k] == m[..12][k];
      } else if k < 23 {
        assert m[k] == m[12..23][k - 12];
      } else if k < 27 {
        assert m[k] == m[23..27][k - 23];
      } else {
        assert m[k] == m[29..][k - 29];
      }
    }
  }

  lemma LandmarksForward(m: Bytes, resolver: bool)
    requires Parts(m, resolver, 14) && Spelled(m[18..29])
    ensures Landmarks(m, 12, 18)
  {
    PlainPieces(resolver, m[18..29], 18);
    assert m[0] == m[..12][0] && m[39] == m[29..][10] && m[40] == m[29..][11];
    forall k | 0 <= k < 43 && k != 12 && k != 13
      ensures (m[k] == 112 ==> k == 19) && (m[k] >= 192 ==> k == 39)
    {
      if k < 12 {
        assert m[k] == m[..12][k];
      } else if k < 18 {
        assert m[k] == m[14..18][k - 14];
      } else if k < 29 {
        assert m[k] == m[18..29][k - 18];
      } else {
        assert m[k] == m[29..][k - 29];
      }
    }
  }

  // ---------------------------------------------------------------- and back

  lemma SpelledResolves(m: Bytes, o: nat, visits: nat)
    requires o + 11 <= |m| && Spelled(m[o..o + 11]) && visits >= 3
    ensures Names(m, o, visits) && Resolve(m, o, visits).value.next == o + 11
  {
    TwoReadings([PLAB, TEST]);
    TwoReadings([PLAB + [DOT] + TEST]);
    if m[o..o + 11] == SPELLED_OUT {
      SpelledOutResolves(m, o, visits);
    } else {
      OneLabelResolves(m, o, visits);
    }
  }

  lemma PointerResolves(m: Bytes, at: nat, o: nat)
    requires at + 2 <= |m| && o < 256 && m[at..at + 2] == [192, o]
    requires o + 11 <= |m| && Spelled(m[o..o + 11])
    ensures Names(m, at, 32) && Resolve(m, at, 32).value.next == at + 2
  {
    assert m[at] == m[at..at + 2][0] && m[at + 1] == m[at..at + 2][1];
    assert HopAt(m, at) == Jump(o);
    SpelledResolves(m, o, 31);
  }

  lemma BackwardFits(resolver: bool, x: Bytes)
    requires Spelled(x)
    ensures Fits(Backward(resolver, x), Flags(resolver)) && |Backward(resolver, x)| == 43
  {
    var m := Backward(resolver, x);
    assert m[..12] == Header(resolver) && m[12..23] == x && m[23..27] == TYPE_AND_CLASS;
    assert m[27..29] == [192, 12] && m[29..] == TAIL;
    SpelledResolves(m, 12, 32);
    PointerResolves(m, 27, 12);
    PartsFit(m, resolver, 23);
  }

  lemma ForwardFits(resolver: bool, x: Bytes)
    requires Spelled(x)
    ensures Fits(Forward(resolver, x), Flags(resolver)) && |Forward(resolver, x)| == 43
  {
    var m := Forward(resolver, x);
    assert m[..12] == Header(resolver) && m[12..14] == [192, 18] && m[14..18] == TYPE_AND_CLASS;
    assert m[18..29] == x && m[29..] == TAIL;
    SpelledResolves(m, 18, 32);
    PointerResolves(m, 12, 18);
    PartsFit(m, resolver, 14);
  }

  /**
   The messages of 43 octets that parse to the canonical response are four: a spelled-out name,
   in one label or two, as the question with a pointer back to it, or as the owner with a
   pointer forward to it.
   */
  lemma {:induction false} FourMessages(m: Bytes, resolver: bool)
    requires |m| == 43
    ensures ParseMessage(m) == Some(Expected(Flags(resolver))) <==>
            m in {Backward(resolver, SPELLED_OUT), Backward(resolver, ONE_LABEL),
                  Forward(resolver, SPELLED_OUT), Forward(resolver, ONE_LABEL)}
  {
    FitsExactlyWhen(m, Flags(resolver));
    if Fits(m, Flags(resolver)) {
      var n := FitsHasParts(m, resolver);
      PartsAre(m, resolver, n);
      if n == 23 {
        BackwardIs(m, resolver);
      } else {
        ForwardIs(m, resolver);
      }
    }
    BackwardFits(resolver, SPELLED_OUT);
    BackwardFits(resolver, ONE_LABEL);
    ForwardFits(resolver, SPELLED_OUT);
    ForwardFits(resolver, ONE_LABEL);
  }

  /** So the DoQ validator, whose frames hold 43 octets, accepts four frames. */
  lemma {:induction false} FourFrames(raw: Bytes)
    ensures (exists m :: |m| == 43 && raw == FrameOf(m) && ParseMessage(m) == Some(Expected(AUTHORITATIVE))) <==>
            raw in {FrameOf(Backward(false, SPELLED_OUT)), FrameOf(Backward(false, ONE_LABEL)),
                    FrameOf(Forward(false, SPELLED_OUT)), FrameOf(Forward(false, ONE_LABEL))}
  {
    forall m | |m| == 43 && raw == FrameOf(m) && ParseMessage(m) == Some(Expected(AUTHORITATIVE))
      ensures raw in {FrameOf(Backward(false, SPELLED_OUT)), FrameOf(Backward(false, ONE_LABEL)),
                      FrameOf(Forward(false, SPELLED_OUT)), FrameOf(Forward(false, ONE_LABEL))}
    {
      FourMessages(m, false);
    }
    forall x | Spelled(x)
      ensures |Backward(false, x)| == 43 && ParseMessage(Backward(false, x)) == Some(Expected(AUTHORITATIVE))
      ensures |Forward(false, x)| == 43 && ParseMessage(Forward(false, x)) == Some(Expected(AUTHORITATIVE))
    {
      BackwardFits(false, x);
      FitsExactlyWhen(Backward(false, x), AUTHORITATIVE);
      ForwardFits(false, x);
      FitsExactlyWhen(Forward(false, x), AUTHORITATIVE);
    }
    assert Spelled(SPELLED_OUT) && Spelled(ONE_LABEL);
  }
}
