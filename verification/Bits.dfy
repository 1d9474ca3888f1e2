/**
 What the bit operations on octets mean, bit by bit: bit `i` of a number is the remainder
 modulo two of its quotient by the `i`-th power of two.
 */
module Bits {
  import opened Octets
  import opened Counting

  function Bit(n: nat, i: nat): nat { n / Pow2(i) % 2 }

  // ---------------------------------------------------------------- halving

  lemma {:induction false} HalfQuotient(n: nat, p: nat)
    requires p >= 1
    ensures n / (2 * p) == n / 2 / p
  {
    var q, r := n / 2 / p, n / 2 % p;
    assert n / 2 == p * q + r;
    assert n == q * (2 * p) + (2 * r + n % 2);
    DivModUnique(n, 2 * p, q, 2 * r + n % 2);
  }

  lemma BitZero(n: nat)
    ensures Bit(n, 0) == n % 2
  {
    assert Pow2(0) == 1;
  }

  /** The bits of a number above the lowest are those of its half. */
  lemma {:induction false} BitOfHalf(n: nat, i: nat)
    requires i > 0
    ensures Bit(n, i) == Bit(n / 2, i - 1)
  {
    HalfQuotient(n, Pow2(i - 1));
  }

  // ---------------------------------------------------------------- exclusive or

  lemma {:induction false} XorBitsMeans(a: nat, b: nat, bits: nat, i: nat)
    requires i < bits
    ensures Bit(XorBits(a, b, bits), i) == 1 <==> Bit(a, i) != Bit(b, i)
    decreases bits
  {
    var x, inner := XorBits(a, b, bits), XorBits(a / 2, b / 2, bits - 1);
    assert x / 2 == inner && x % 2 == (a % 2 + b % 2) % 2;
    if i == 0 {
      BitZero(x);
      BitZero(a);
      BitZero(b);
    } else {
      BitOfHalf(x, i);
      BitOfHalf(a, i);
      BitOfHalf(b, i);
      XorBitsMeans(a / 2, b / 2, bits - 1, i - 1);
    }
  }

  /** A bit of the exclusive or is set exactly where the two octets differ. */
  lemma {:induction false} XorMeans(a: byte, b: byte, i: nat)
    requires i < 8
    ensures Xor(a, b) / Pow2(i) % 2 == 1 <==> a / Pow2(i) % 2 != b / Pow2(i) % 2
  {
    XorBitsMeans(a, b, 8, i);
  }

  /** Octet `k` of a masked payload differs from the payload's exactly in the bits of its key octet. */
  lemma {:induction false} MaskMeans(key: Bytes, payload: Bytes, k: nat, i: nat)
    requires |key| == 4 && k < |payload| && i < 8
    ensures Bit(Mask(key, payload)[k], i) != Bit(payload[k], i) <==> Bit(key[k % 4], i) == 1
  {
    XorMeans(payload[k], key[k % 4], i);
  }

  // ---------------------------------------------------------------- the masks of the sources

  lemma Powers()
    ensures Pow2(0) == 1 && Pow2(1) == 2 && Pow2(2) == 4 && Pow2(3) == 8
    ensures Pow2(4) == 16 && Pow2(5) == 32 && Pow2(6) == 64 && Pow2(7) == 128
  {
  }

  /** `b & 0x80` and `b & 0x70` */
  lemma {:induction false} HighBitsMean(b: byte)
    ensures HighBit(b) <==> Bit(b, 7) == 1
    ensures Rsv(b) == 0 <==> Bit(b, 6) == 0 && Bit(b, 5) == 0 && Bit(b, 4) == 0
  {
    Powers();
  }

  /** `b & 0x7f` and `b & 0x0f` keep the low bits and clear the others. */
  lemma {:induction false} LowBitsMean(b: byte)
    ensures Low7(b) == b - 128 * Bit(b, 7)
    ensures Low4(b) == b - 128 * Bit(b, 7) - 64 * Bit(b, 6) - 32 * Bit(b, 5) - 16 * Bit(b, 4)
  {
    Powers();
  }

  // ---------------------------------------------------------------- network byte order

  /** In a big-endian number the first octet weighs most. */
  lemma {:induction false} FirstWeighsMost(s: Bytes)
    requires s != []
    ensures FromBE(s) == s[0] * Pow256(|s| - 1) + FromBE(s[1..])
    decreases |s|
  {
    var n := |s| - 1;
    if n == 0 {
      assert s[..0] == [] && s[1..] == [];
    } else {
      var front := s[..n];
      FirstWeighsMost(front);
      assert front[1..] == s[1..][..n - 1] && front[0] == s[0] && s[1..][n - 1] == s[n];
      assert FromBE(s[1..]) == 256 * FromBE(front[1..]) + s[n];
      Weigh(s[0], Pow256(n - 1));
    }
  }

  lemma Weigh(d: nat, p: nat)
    ensures 256 * (d * p) == d * (256 * p)
  {
  }
}
