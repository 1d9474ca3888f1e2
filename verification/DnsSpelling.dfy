/**
 What the validators of DNS responses take for the canonical response: every spelling of
 the owner name within the bound, and, because names are compared as dotted strings, one
 label that holds the dot.
 */
module DnsSpelling {
  import opened Octets
  import opened DnsName
  import opened DnsResponse

  // ---------------------------------------------------------------- dotted names

  predicate DotFree(text: Bytes) { forall i :: 0 <= i < |text| ==> text[i] != DOT }

  lemma HeadLabel(a: Bytes, b: Bytes, x: Bytes, y: Bytes)
    requires DotFree(a) && DotFree(b) && a + [DOT] + x == b + [DOT] + y
    ensures a == b && x == y
  {
    var s := a + [DOT] + x;
    assert s[|a|] == DOT && s[|b|] == DOT;
    assert forall k :: 0 <= k < |a| ==> s[k] == a[k];
    assert forall k :: 0 <= k < |b| ==> s[k] == b[k];
    assert a == s[..|a|] && b == s[..|b|];
    assert x == s[|a| + 1..] && y == s[|b| + 1..];
  }

  lemma DottedLonger(labels: seq<Bytes>)
    requires labels != [] && forall l :: l in labels ==> l != []
    ensures |Dotted(labels)| >= 2
  {
    assert labels[0] in labels;
  }

  /** On labels that hold no dot, the dotted string names the labels. */
  lemma {:induction false} DottedInjective(a: seq<Bytes>, b: seq<Bytes>)
    requires forall l :: l in a + b ==> l != [] && DotFree(l)
    requires Dotted(a) == Dotted(b)
    ensures a == b
    decreases |a|
  {
    assert forall l :: l in a ==> l in a + b;
    assert forall l :: l in b ==> l in a + b;
    if a == [] || b == [] {
      if a != [] { DottedLonger(a); }
      if b != [] { DottedLonger(b); }
    } else {
      var x, y := Behind(a), Behind(b);
      HeadLabel(a[0], b[0], x, y);
      if |a| > 1 && |b| > 1 {
        assert forall l :: l in a[1..] + b[1..] ==> l in a + b;
        DottedInjective(a[1..], b[1..]);
        assert a == [a[0]] + a[1..] && b == [b[0]] + b[1..];
      }
    }
  }

  /** What follows the first label and its dot. */
  function Behind(a: seq<Bytes>): (x: Bytes)
    requires a != []
    ensures Dotted(a) == a[0] + [DOT] + x
  {
    Empty(a[0] + [DOT]);
    if |a| == 1 then [] else Dotted(a[1..])
  }

  /** The one name a label holding the dot is taken for. */
  lemma {:induction false} TwoReadings(labels: seq<Bytes>)
    ensures Dotted(labels) == PLAB_TEST <==> labels == [PLAB, TEST] || labels == [PLAB + [DOT] + TEST]
  {
    assert Dotted([TEST]) == TEST + [DOT];
    assert [PLAB, TEST][1..] == [TEST];
    assert Dotted([PLAB, TEST]) == PLAB + [DOT] + (TEST + [DOT]);
    if Dotted(labels) == PLAB_TEST {
      if |labels| == 1 {
        assert labels[0] == (labels[0] + [DOT])[..9];
        assert labels[0] == PLAB_TEST[..9];
      } else if |labels| >= 2 {
        DotAt(labels[0], Dotted(labels[1..]));
        OneLabelLeft(labels[1..]);
      }
    }
  }

  lemma DotAt(a: Bytes, rest: Bytes)
    requires a + [DOT] + rest == PLAB_TEST && rest != []
    ensures a == PLAB && rest == TEST + [DOT]
  {
    var s := a + [DOT] + rest;
    assert s[|a|] == DOT && |s| == 10 && |a| < 9;
    assert PLAB_TEST[4] == DOT;
    assert |a| == 4 by {
      assert PLAB_TEST == [112, 108, 97, 98, 46, 116, 101, 115, 116, 46];
    }
    assert a == s[..4] && rest == s[5..];
  }

  lemma OneLabelLeft(labels: seq<Bytes>)
    requires Dotted(labels) == TEST + [DOT]
    ensures labels == [TEST]
  {
    InnerDot(labels);
    assert TEST + [DOT] == [116, 101, 115, 116, 46];
    if |labels| == 1 {
      assert labels[0] == (labels[0] + [DOT])[..4];
    }
  }

  lemma InnerDot(labels: seq<Bytes>)
    ensures |labels| >= 2 ==> exists i :: 0 <= i < |Dotted(labels)| - 1 && Dotted(labels)[i] == DOT
  {
    if |labels| >= 2 {
      var i, s := |labels[0]|, Dotted(labels);
      assert s == labels[0] + [DOT] + Dotted(labels[1..]);
      assert s[i] == DOT && |Dotted(labels[1..])| >= 1;
      assert 0 <= i < |Dotted(labels)| - 1 && Dotted(labels)[i] == DOT;
    }
  }

  // ---------------------------------------------------------------- spellings of the owner

  /** Header and question of the canonical response: 27 octets. */
  function Head(resolver: bool): Bytes
  {
    [0, 0] + (if resolver then [0x81, 0x80] else [0x84, 0]) + [0, 1, 0, 1, 0, 0, 0, 0]
    + [4, 112, 108, 97, 98, 4, 116, 101, 115, 116, 0] + [0, 1, 0, 1]
  }

  /** Everything behind the owner name: 14 octets. */
  const TAIL: Bytes := [0, 1, 0, 1, 0, 0, 0, 0, 0, 4, 192, 0, 2, 1]

  function Response(resolver: bool, owner: Bytes): Bytes { Head(resolver) + (owner + TAIL) }

  function Flags(resolver: bool): nat { if resolver then RESOLVER else AUTHORITATIVE }

  lemma AtLabel(m: Bytes, o: nat, text: Bytes, visits: nat, rest: Name)
    requires o + 1 + |text| <= |m| && 1 <= |text| < 64
    requires m[o..o + 1 + |text|] == [|text|] + text
    requires visits > 0 && Resolve(m, o + 1 + |text|, visits - 1) == Some(rest)
    ensures Resolve(m, o, visits) == Some(Name([text] + rest.labels, rest.next))
  {
    var here := m[o..o + 1 + |text|];
    assert m[o] == here[0];
    assert m[o + 1..o + 1 + |text|] == here[1..] == text;
    assert HopAt(m, o) == Label(text, o + 1 + |text|);
  }

  /** `m` holds `part` at `o`, and so every piece of it where it belongs. */
  lemma PieceOf(m: Bytes, o: nat, part: Bytes, i: nat, j: nat)
    requires o + |part| <= |m| && m[o..o + |part|] == part && i <= j <= |part|
    ensures m[o + i..o + j] == part[i..j]
  {
    var here, piece := m[o..o + |part|], m[o + i..o + j];
    forall k | 0 <= k < j - i ensures piece[k] == part[i..j][k] {
      assert piece[k] == m[o + (i + k)] == here[i + k];
    }
  }

  const SPELLED_OUT: Bytes := [4, 112, 108, 97, 98, 4, 116, 101, 115, 116, 0]
  const FIRST_LABEL: Bytes := [4, 112, 108, 97, 98, 0xc0, 0x11]
  const ONE_LABEL: Bytes := [9, 112, 108, 97, 98, 46, 116, 101, 115, 116, 0]

  lemma TestResolves(m: Bytes, o: nat, visits: nat)
    requires o + 6 <= |m| && m[o..o + 6] == [4, 116, 101, 115, 116, 0] && visits >= 2
    ensures Resolve(m, o, visits) == Some(Name([TEST], o + 6))
  {
    PieceOf(m, o, [4, 116, 101, 115, 116, 0], 0, 5);
    assert m[o + 5] == m[o..o + 6][5];
    assert Resolve(m, o + 5, visits - 1) == Some(Name([], o + 6));
    AtLabel(m, o, TEST, visits, Name([], o + 6));
    assert [TEST] + [] == [TEST];
  }

  /** The two labels spelled out. */
  lemma SpelledOutResolves(m: Bytes, o: nat, visits: nat)
    requires o + 11 <= |m| && m[o..o + 11] == SPELLED_OUT && visits >= 3
    ensures Resolve(m, o, visits) == Some(Name([PLAB, TEST], o + 11))
  {
    PieceOf(m, o, SPELLED_OUT, 5, 11);
    TestResolves(m, o + 5, visits - 1);
    PieceOf(m, o, SPELLED_OUT, 0, 5);
    assert SPELLED_OUT[0..5] == [4] + PLAB;
    AtLabel(m, o, PLAB, visits, Name([TEST], o + 11));
    assert [PLAB] + [TEST] == [PLAB, TEST];
  }

  /** The first label, and a pointer to the second. */
  lemma FirstLabelResolves(m: Bytes, o: nat, visits: nat)
    requires o + 7 <= |m| && m[o..o + 7] == FIRST_LABEL && visits >= 4
    requires |m| >= 23 && m[17..23] == [4, 116, 101, 115, 116, 0]
    ensures Resolve(m, o, visits) == Some(Name([PLAB, TEST], o + 7))
  {
    assert m[o + 5] == m[o..o + 7][5] && m[o + 6] == m[o..o + 7][6];
    assert HopAt(m, o + 5) == Jump(17);
    TestResolves(m, 17, visits - 2);
    assert Resolve(m, o + 5, visits - 1) == Some(Name([TEST], o + 7));
    PieceOf(m, o, FIRST_LABEL, 0, 5);
    AtLabel(m, o, PLAB, visits, Name([TEST], o + 7));
    assert [PLAB] + [TEST] == [PLAB, TEST];
  }

  /** One label that holds the dot. */
  lemma OneLabelResolves(m: Bytes, o: nat, visits: nat)
    requires o + 11 <= |m| && m[o..o + 11] == ONE_LABEL && visits >= 2
    ensures Resolve(m, o, visits) == Some(Name([PLAB + [DOT] + TEST], o + 11))
  {
    assert m[o + 10] == m[o..o + 11][10];
    assert Resolve(m, o + 10, visits - 1) == Some(Name([], o + 11));
    PieceOf(m, o, ONE_LABEL, 0, 10);
    AtLabel(m, o, PLAB + [DOT] + TEST, visits, Name([], o + 11));
    assert [PLAB + [DOT] + TEST] + [] == [PLAB + [DOT] + TEST];
  }

  lemma HeadFits(resolver: bool, rest: Bytes)
    ensures var m := Head(resolver) + rest;
            && (forall v :: 3 <= v ==> Resolve(m, 12, v) == Some(Name([PLAB, TEST], 23)))
            && ParseQuestion(m, 12) == Parsed(Question(PLAB_TEST, 1, 1), 27)
            && Short(m, 0) == 0 && Short(m, 2) == Flags(resolver)
            && Short(m, 4) == 1 && Short(m, 6) == 1 && Short(m, 8) == 0 && Short(m, 10) == 0
  {
    var m := Head(resolver) + rest;
    assert m[12..23] == SPELLED_OUT;
    forall v: nat | 3 <= v ensures Resolve(m, 12, v) == Some(Name([PLAB, TEST], 23)) {
      SpelledOutResolves(m, 12, v);
    }
    TwoReadings([PLAB, TEST]);
  }

  lemma TailFits(m: Bytes, n: nat)
    requires n + 14 == |m| && m[n..] == TAIL
    ensures Short(m, n) == 1 && Short(m, n + 2) == 1 && Long(m, n + 4) == 0 && Short(m, n + 8) == 4
    ensures m[n + 10..n + 14] == ADDRESS
  {
    assert forall k :: 0 <= k < 14 ==> m[n + k] == m[n..][k];
  }

  lemma AnswerDecides(m: Bytes, o: nat, n: nat)
    requires n + 14 == |m| && m[n..] == TAIL
    ensures ParseRecord(m, o) == Parsed(Record(PLAB_TEST, 1, 1, 0, ADDRESS), |m|) <==>
            Outcome(Resolve(m, o, 32)) == Good(PLAB_TEST, n)
  {
    TailFits(m, n);
  }

  /**
   Behind the canonical question, the octets of the owner name decide: the response is
   accepted exactly when they resolve to the name and end where they end.
   */
  lemma {:induction false} OwnerDecides(resolver: bool, owner: Bytes)
    ensures var m := Response(resolver, owner);
            ParseMessage(m) == Some(Expected(Flags(resolver))) <==>
            Outcome(Resolve(m, 27, 32)) == Good(PLAB_TEST, 27 + |owner|)
  {
    var m := Response(resolver, owner);
    FitsExactlyWhen(m, Flags(resolver));
    HeadFits(resolver, owner + TAIL);
    var n := 27 + |owner|;
    assert m[n..] == TAIL;
    AnswerDecides(m, 27, n);
  }

  /** The owner as a pointer to the question: the canonical response of 43 octets. */
  lemma {:induction false} CanonicalAccepted(resolver: bool)
    ensures var m := Response(resolver, [0xc0, 0x0c]);
            |m| == 43 && ParseMessage(m) == Some(Expected(Flags(resolver)))
  {
    var m := Response(resolver, [0xc0, 0x0c]);
    HeadFits(resolver, [0xc0, 0x0c] + TAIL);
    assert HopAt(m, 27) == Jump(12);
    TwoReadings([PLAB, TEST]);
    OwnerDecides(resolver, [0xc0, 0x0c]);
  }

  /**
   Spelling the owner out, or only its first label, or as one label that holds the dot,
   leaves the verdict of the DoH validator; only its length keeps it from the DoQ one.
   */
  lemma {:induction false} OtherSpellingsAccepted(resolver: bool, owner: Bytes)
    requires owner == SPELLED_OUT || owner == FIRST_LABEL || owner == ONE_LABEL
    ensures ParseMessage(Response(resolver, owner)) == Some(Expected(Flags(resolver)))
    ensures |Response(resolver, owner)| != 43
  {
    var m := Response(resolver, owner);
    assert m[27..27 + |owner|] == owner;
    TwoReadings([PLAB, TEST]);
    TwoReadings([PLAB + [DOT] + TEST]);
    OwnerDecides(resolver, owner);
    if owner == ONE_LABEL {
      OneLabelResolves(m, 27, 32);
    } else if owner == SPELLED_OUT {
      SpelledOutResolves(m, 27, 32);
    } else {
      assert m[17..23] == [4, 116, 101, 115, 116, 0];
      FirstLabelResolves(m, 27, 32);
    }
  }

  /** An owner that points at itself is refused. */
  lemma {:induction false} LoopRefused(resolver: bool)
    ensures ParseMessage(Response(resolver, [0xc0, 0x1b])) != Some(Expected(Flags(resolver)))
  {
    var m := Response(resolver, [0xc0, 0x1b]);
    assert HopAt(m, 27) == Jump(27);
    assert Walk(m, 27, [27], 27);
    Loops(m, 27, [27], 27, 32);
    OwnerDecides(resolver, [0xc0, 0x1b]);
  }
}
