/**
 The one-field protobuf message of the gRPC executor and server: a tag octet, a base-128
 varint length and the payload.  The decoder's loop works in 64-bit arithmetic.
 */
module Protobuf {
  import opened Octets
  import opened Counting

  const TWO_63: nat := 0x8000_0000_0000_0000
  const TWO_64: nat := 0x1_0000_0000_0000_0000

  // ---------------------------------------------------------------- varints

  function Pow128(k: nat): (p: nat)
    ensures p >= 1
  {
    if k == 0 then 1 else 128 * Pow128(k - 1)
  }

  /** The number the low seven bits denote, least significant group first. */
  function Value(groups: Bytes): nat
  {
    if groups == [] then 0 else Low7(groups[0]) + 128 * Value(groups[1..])
  }

  /** Every octet but the last carries the continuation bit. */
  predicate Varint(groups: Bytes)
  {
    && groups != []
    && (if |groups| == 1 then groups[0] < 128 else groups[0] >= 128 && Varint(groups[1..]))
  }

  /** The shortest varint of `n`. */
  function VarintOf(n: nat): (groups: Bytes)
    ensures Varint(groups)
  {
    if n < 128 then [n]
    else
      var rest := VarintOf(n / 128);
      var groups := [n % 128 + 128] + rest;
      assert groups[1..] == rest;
      groups
  }

  lemma {:induction false} ValueOfVarint(n: nat)
    ensures Value(VarintOf(n)) == n
  {
    if n < 128 {
      assert [n as byte][1..] == [];
      assert Value([n as byte]) == Low7(n as byte) + 128 * Value([]);
    } else {
      ValueOfVarint(n / 128);
      assert VarintOf(n)[1..] == VarintOf(n / 128);
    }
  }

  lemma {:induction false} ValueBound(groups: Bytes)
    ensures Value(groups) < Pow128(|groups|)
  {
    if groups != [] {
      ValueBound(groups[1..]);
    }
  }

  lemma {:induction false} VarintLength(n: nat, k: nat)
    requires k >= 1 && n < Pow128(k)
    ensures |VarintOf(n)| <= k
    decreases k
  {
    if n >= 128 {
      assert Pow128(1) == 128 * Pow128(0);
      VarintLength(n / 128, k - 1);
    }
  }

  /** Among varints of one length the value decides. */
  lemma {:induction false} VarintUnique(a: Bytes, b: Bytes)
    requires Varint(a) && Varint(b) && |a| == |b| && Value(a) == Value(b)
    ensures a == b
    decreases |a|
  {
    assert Low7(a[0]) == Low7(b[0]) && Value(a[1..]) == Value(b[1..]);
    if |a| > 1 {
      VarintUnique(a[1..], b[1..]);
      assert a == [a[0]] + a[1..] && b == [b[0]] + b[1..];
    }
  }

  lemma {:induction false} ValueSnoc(groups: Bytes, b: byte, p: nat)
    requires p == Pow128(|groups|)
    ensures Value(groups + [b]) == Value(groups) + Low7(b) * p
    decreases |groups|
  {
    if groups == [] {
      assert [b][1..] == [];
      assert Value([b]) == Low7(b) + 128 * Value([]);
      assert groups + [b] == [b];
    } else {
      var rest := groups[1..];
      ValueSnoc(rest, b, Pow128(|rest|));
      assert (groups + [b])[1..] == rest + [b];
      Scale(Low7(b), Pow128(|rest|));
    }
  }

  lemma Scale(v: nat, p: nat)
    ensures 128 * (v * p) == v * (128 * p)
  {
  }

  lemma NineGroups()
    ensures Pow128(9) == TWO_63
  {
    assert Pow128(2) == 0x4000;
    assert Pow128(4) == 0x1000_0000;
    assert Pow128(6) == 0x400_0000_0000;
    assert Pow128(8) == 0x100_0000_0000_0000;
  }

  // ---------------------------------------------------------------- `n |= v << shift`

  /** Inclusive or of the low `bits` bits. */
  function OrBits(a: nat, b: nat, bits: nat): nat
  {
    if bits == 0 then 0
    else 2 * OrBits(a / 2, b / 2, bits - 1) + if a % 2 == 1 || b % 2 == 1 then 1 else 0
  }

  function LowBits(a: nat, bits: nat): nat
  {
    if bits == 0 then 0 else 2 * LowBits(a / 2, bits - 1) + a % 2
  }

  lemma {:induction false} OrZero(b: nat, bits: nat)
    ensures OrBits(0, b, bits) == LowBits(b, bits)
  {
    if bits > 0 {
      OrZero(b / 2, bits - 1);
    }
  }

  /** A value below the shift and a value above it share no bit: their or is their sum. */
  lemma {:induction false} OrDisjoint(a: nat, v: nat, shift: nat, bits: nat)
    requires a < Pow2(shift)
    ensures OrBits(a, v * Pow2(shift), bits) == LowBits(a + v * Pow2(shift), bits)
    decreases bits
  {
    if bits > 0 {
      if shift == 0 {
        OrZero(v, bits);
      } else {
        var half := v * Pow2(shift - 1);
        assert v * Pow2(shift) == 2 * half by { Twice(v, Pow2(shift - 1)); }
        OrDisjoint(a / 2, v, shift - 1, bits - 1);
        assert (2 * half) / 2 == half && (2 * half) % 2 == 0;
        assert (a + 2 * half) / 2 == a / 2 + half && (a + 2 * half) % 2 == a % 2;
      }
    }
  }

  lemma Twice(v: nat, p: nat)
    ensures v * (2 * p) == 2 * (v * p)
  {
  }

  lemma {:induction false} LowBitsIsModulo(a: nat, bits: nat)
    ensures LowBits(a, bits) == a % Pow2(bits)
  {
    if bits > 0 {
      LowBitsIsModulo(a / 2, bits - 1);
      HalfModulo(a, Pow2(bits - 1));
    }
  }

  lemma HalfModulo(a: nat, p: nat)
    requires p >= 1
    ensures a % (2 * p) == 2 * (a / 2 % p) + a % 2
  {
    var q, r := a / 2 / p, a / 2 % p;
    assert a / 2 == p * q + r;
    assert a == q * (2 * p) + (2 * r + a % 2);
    DivModUnique(a, 2 * p, q, 2 * r + a % 2);
  }

  lemma {:induction false} GroupsAreBits(k: nat)
    ensures Pow2(7 * k) == Pow128(k)
  {
    if k > 0 {
      GroupsAreBits(k - 1);
      var n := 7 * k - 7;
      assert Pow2(n + 2) == 4 * Pow2(n);
      assert Pow2(n + 4) == 4 * Pow2(n + 2);
      assert Pow2(n + 6) == 4 * Pow2(n + 4);
      assert Pow2(n + 7) == 2 * Pow2(n + 6);
    }
  }

  lemma SixtyFour()
    ensures Pow2(64) == TWO_64
  {
    GroupsAreBits(9);
    NineGroups();
    assert Pow2(64) == 2 * Pow2(63);
  }

  lemma OrAdds(a: nat, v: nat, shift: nat, p: nat)
    requires p == Pow2(shift) && a < p
    ensures OrBits(a, v * p, 64) == (a + v * p) % TWO_64
  {
    OrDisjoint(a, v, shift, 64);
    LowBitsIsModulo(a + v * p, 64);
    SixtyFour();
  }

  /** `n | uint64(b&0x7f)<<shift` */
  function OrShifted(n: nat, b: byte, shift: nat): nat { OrBits(n, Low7(b) * Pow2(shift), 64) }

  lemma OrShiftedAdds(n: nat, b: byte, shift: nat)
    requires n < Pow2(shift)
    ensures OrShifted(n, b, shift) == (n + Low7(b) * Pow2(shift)) % TWO_64
  {
    OrAdds(n, Low7(b), shift, Pow2(shift));
  }

  /** One turn of the decoder's loop on the number read so far. */
  lemma TakesGroup(groups: Bytes, b: byte, shift: nat, p: nat)
    requires shift == 7 * |groups| && p == Pow128(|groups|)
    ensures OrShifted(Value(groups), b, shift) == Value(groups + [b]) % TWO_64
  {
    ValueBound(groups);
    GroupsAreBits(|groups|);
    OrShiftedAdds(Value(groups), b, shift);
    ValueSnoc(groups, b, p);
  }

  // ---------------------------------------------------------------- the message

  const TAG: byte := 0x0a

  function Encoded(payload: Bytes): Bytes
  {
    if payload == [] then [] else [TAG] + VarintOf(|payload|) + payload
  }

  /** The number of octets in front that carry the continuation bit. */
  function Run(s: Bytes): (n: nat)
    ensures n <= |s|
    ensures n < |s| ==> s[n] < 128
    ensures forall i :: 0 <= i < n ==> s[i] >= 128
  {
    if s == [] || s[0] < 128 then 0 else 1 + Run(s[1..])
  }

  /** `int(n)` of an unsigned 64-bit number */
  function Signed(n: nat): int { if n < TWO_63 then n else n - TWO_64 }

  function Decoded(p: Bytes): Option<Bytes>
  {
    if p == [] then Some([])
    else if p[0] != TAG then None
    else
      var s := p[1..];
      var r := Run(s);
      if r >= |s| || r >= 10 || Signed(Value(s[..r + 1]) % TWO_64) != |s| - (r + 1) then None
      else Some(s[r + 1..])
  }

  /** `encodeProtobuf`; a Go slice has fewer than 2^63 octets. */
  method EncodeProtobuf(payload: Bytes) returns (out: Bytes)
    requires |payload| < TWO_63
    ensures out == Encoded(payload)
  {
    if |payload| == 0 {
      return [];
    }
    out := [TAG];
    var n := |payload|;
    while n >= 0x80
      invariant n >= 0 && out + VarintOf(n) == [TAG] + VarintOf(|payload|)
    {
      var group: byte := n % 128 + 128;
      assert VarintOf(n) == [group] + VarintOf(n / 128);
      Assoc(out, [group], VarintOf(n / 128));
      out := out + [group];
      n := n / 128;
    }
    out := out + [n] + payload;
  }

  /** `n |= uint64(b&0x7f) << shift`, behind the groups read so far */
  method TakeGroup(n: nat, b: byte, shift: nat, ghost groups: Bytes) returns (m: nat)
    requires n == Value(groups) && shift == 7 * |groups|
    ensures m == Value(groups + [b]) % TWO_64
    ensures |groups| < 9 ==> m == Value(groups + [b])
  {
    GroupTaken(groups, b, shift);
    m := OrShifted(n, b, shift);
  }

  lemma GroupTaken(groups: Bytes, b: byte, shift: nat)
    requires shift == 7 * |groups|
    ensures OrShifted(Value(groups), b, shift) == Value(groups + [b]) % TWO_64
    ensures |groups| < 9 ==> Value(groups + [b]) % TWO_64 == Value(groups + [b])
  {
    TakesGroup(groups, b, shift, Pow128(|groups|));
    NoneCutOff(groups + [b]);
  }

  lemma NoneCutOff(groups: Bytes)
    ensures |groups| <= 9 ==> Value(groups) % TWO_64 == Value(groups)
  {
    if |groups| <= 9 {
      FitsInNine(groups);
    }
  }

  /** The loop of the decoder: the number, and the offset behind its last group. */
  method ReadLength(p: Bytes) returns (n: nat, idx: nat, ok: bool)
    requires |p| >= 1
    ensures var s := p[1..];
            && (ok <==> Run(s) < |s| && Run(s) < 10)
            && (ok ==> idx == Run(s) + 2 && n == Value(s[..Run(s) + 1]) % TWO_64)
  {
    ghost var s := p[1..];
    var shift: nat := 0;
    n, idx := 0, 1;
    while true
      invariant 1 <= idx <= |p| && idx <= 11 && shift == 7 * (idx - 1)
      invariant forall i :: 0 <= i < idx - 1 ==> s[i] >= 128
      invariant idx <= 10 ==> n == Value(s[..idx - 1])
      decreases |p| - idx
    {
      if idx >= |p| || shift > 63 {
        return n, idx, false;
      }
      var b := p[idx];
      ghost var groups := s[..idx - 1];
      assert s[..idx] == groups + [b];
      n := TakeGroup(n, b, shift, groups);
      idx := idx + 1;
      if b < 0x80 {
        RunIs(s, idx - 2);
        return n, idx, true;
      }
      shift := shift + 7;
    }
  }

  /** `decodeProtobuf` of both sides. */
  method DecodeProtobuf(p: Bytes) returns (r: Option<Bytes>)
    ensures r == Decoded(p)
  {
    if |p| == 0 {
      return Some([]);
    }
    if p[0] != TAG {
      return None;
    }
    var n, idx, ok := ReadLength(p);
    if !ok {
      return None;
    }
    if Signed(n) != |p| - idx {
      return None;
    }
    assert p[1..][idx - 1..] == p[idx..];
    return Some(p[idx..]);
  }

  lemma RunIs(s: Bytes, k: nat)
    requires k < |s| && s[k] < 128 && forall i :: 0 <= i < k ==> s[i] >= 128
    ensures Run(s) == k
  {
  }

  lemma FitsInNine(groups: Bytes)
    requires |groups| <= 9
    ensures Value(groups) < TWO_63
  {
    ValueBound(groups);
    NineGroups();
    PowGrows(|groups|, 9);
  }

  lemma {:induction false} PowGrows(a: nat, b: nat)
    requires a <= b
    ensures Pow128(a) <= Pow128(b)
    decreases b
  {
    if a < b {
      PowGrows(a, b - 1);
    }
  }

  // ---------------------------------------------------------------- what it accepts

  lemma {:induction false} RunOfVarint(groups: Bytes, rest: Bytes)
    requires Varint(groups)
    ensures Run(groups + rest) == |groups| - 1
    decreases |groups|
  {
    assert (groups + rest)[0] == groups[0];
    if |groups| > 1 {
      assert (groups + rest)[1..] == groups[1..] + rest;
      RunOfVarint(groups[1..], rest);
    }
  }

  lemma {:induction false} VarintOfRun(s: Bytes)
    requires Run(s) < |s|
    ensures Varint(s[..Run(s) + 1])
    decreases |s|
  {
    if s[0] >= 128 {
      VarintOfRun(s[1..]);
      assert s[..Run(s) + 1][1..] == s[1..][..Run(s[1..]) + 1];
    }
  }

  /** A tag, at most ten groups that denote the payload's length modulo 2^64, and the payload. */
  ghost predicate Spelling(p: Bytes, groups: Bytes, payload: Bytes)
  {
    && Varint(groups) && |groups| <= 10
    && p == [0x0a] + (groups + payload)
    && Value(groups) % TWO_64 == |payload|
  }

  lemma SpellingDecodes(p: Bytes, groups: Bytes, payload: Bytes)
    requires Spelling(p, groups, payload) && |payload| < TWO_63
    ensures Decoded(p) == Some(payload)
  {
    var s := groups + payload;
    assert p[1..] == s;
    RunOfVarint(groups, payload);
    assert s[..|groups|] == groups && s[|groups|..] == payload;
  }

  lemma DecodedHasSpelling(p: Bytes) returns (groups: Bytes)
    requires Decoded(p).Some? && p != [] && |p| < TWO_63
    ensures Spelling(p, groups, Decoded(p).value)
  {
    var s := p[1..];
    groups := s[..Run(s) + 1];
    VarintOfRun(s);
    assert s == groups + s[Run(s) + 1..];
    assert p == [TAG] + s;
  }

  /** Everything the decoder accepts, and nothing else. */
  lemma {:induction false} AcceptsExactly(p: Bytes, payload: Bytes)
    requires |p| < TWO_63
    ensures Decoded(p) == Some(payload) <==>
            (p == [] && payload == []) || exists groups :: Spelling(p, groups, payload)
  {
    if Decoded(p) == Some(payload) && p != [] {
      var groups := DecodedHasSpelling(p);
    }
    forall groups | Spelling(p, groups, payload) ensures Decoded(p) == Some(payload) {
      SpellingDecodes(p, groups, payload);
    }
  }

  lemma FewGroups(n: nat)
    requires n < TWO_63
    ensures |VarintOf(n)| <= 9
  {
    NineGroups();
    VarintLength(n, 9);
  }

  lemma CanonicalSpelling(payload: Bytes)
    requires 0 < |payload| < TWO_63
    ensures Spelling(Encoded(payload), VarintOf(|payload|), payload)
    ensures |VarintOf(|payload|)| <= 9
  {
    FewGroups(|payload|);
    ValueOfVarint(|payload|);
    Assoc([TAG], VarintOf(|payload|), payload);
  }

  /** Decoding undoes encoding. */
  lemma {:induction false} DecodeUndoesEncode(payload: Bytes)
    requires |payload| < TWO_63
    ensures Decoded(Encoded(payload)) == Some(payload)
  {
    if payload != [] {
      CanonicalSpelling(payload);
      SpellingDecodes(Encoded(payload), VarintOf(|payload|), payload);
    }
  }

  /** The length of an accepted message tells whether it is the canonical one. */
  lemma {:induction false} CanonicalExactlyWhenSameLength(p: Bytes)
    requires |p| < TWO_63 && Decoded(p).Some?
    ensures p == Encoded(Decoded(p).value) <==> |p| == |Encoded(Decoded(p).value)|
  {
    var payload := Decoded(p).value;
    if |p| == |Encoded(payload)| && p != [] {
      var groups := DecodedHasSpelling(p);
      SameSpelling(p, groups, payload);
    }
  }

  lemma SameGroups(a: Bytes, b: Bytes, n: nat)
    requires Varint(a) && Varint(b) && |a| == |b| <= 9
    requires Value(a) % TWO_64 == n && Value(b) == n
    ensures a == b
  {
    FitsInNine(a);
    VarintUnique(a, b);
  }

  lemma SpellingLength(p: Bytes, groups: Bytes, payload: Bytes)
    requires Spelling(p, groups, payload)
    ensures |p| == 1 + |groups| + |payload|
  {
  }

  lemma SameSpelling(p: Bytes, groups: Bytes, payload: Bytes)
    requires Spelling(p, groups, payload) && |p| == |Encoded(payload)| < TWO_63
    ensures p == Encoded(payload)
  {
    var canonical := VarintOf(|payload|);
    SpellingLength(p, groups, payload);
    assert payload != [];
    CanonicalSpelling(payload);
    SpellingLength(Encoded(payload), canonical, payload);
    ValueOfVarint(|payload|);
    SameGroups(groups, canonical, |payload|);
  }

  /** The decoder does take longer spellings: two octets more for the same payload. */
  lemma {:induction false} OverlongAccepted(payload: Bytes)
    requires 0 < |payload| < 128
    ensures var p := [TAG] + ([|payload| + 128, 128, 0] + payload);
            Decoded(p) == Some(payload) && |p| == |Encoded(payload)| + 2
  {
    var groups: Bytes := [|payload| + 128, 128, 0];
    assert groups[1..] == [128, 0] && groups[1..][1..] == [0] && [0][1..] == [];
    assert Value([0]) == 0 && Value([128, 0]) == 0;
    assert Varint([0]) && Varint([128, 0]);
    SpellingDecodes([TAG] + (groups + payload), groups, payload);
  }

  /** `k` empty groups, and a last one whose second bit is set. */
  function Pad(k: nat): (groups: Bytes)
    ensures |groups| == k + 1
  {
    if k == 0 then [2] else [128] + Pad(k - 1)
  }

  lemma {:induction false} PadValue(k: nat)
    ensures Varint(Pad(k)) && Value(Pad(k)) == 2 * Pow128(k)
  {
    if k == 0 {
      assert Pad(0)[1..] == [];
    } else {
      PadValue(k - 1);
      assert Pad(k)[1..] == Pad(k - 1);
    }
  }

  /** In a tenth group the bits above the 64th fall off: 2^64 more than the length is the length. */
  lemma {:induction false} TenthGroupFallsOff(payload: Bytes)
    requires 0 < |payload| < 128
    ensures var groups := [|payload| + 128] + Pad(8);
            && |groups| == 10 && Value(groups) == |payload| + TWO_64
            && Decoded([TAG] + (groups + payload)) == Some(payload)
  {
    var groups: Bytes := [|payload| + 128] + Pad(8);
    assert groups[1..] == Pad(8);
    PadValue(8);
    NineGroups();
    assert Pow128(9) == 128 * Pow128(8);
    SpellingDecodes([TAG] + (groups + payload), groups, payload);
  }
}
