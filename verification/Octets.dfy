/**
 Octets, the bit operations the wire codecs use on them, and network byte order.

 An octet is an integer below 256.  The masks of the sources (`b & 0x80`, `b & 0x7f`,
 `b & 0x70`, `b & 0x0f`) are written as the quotients and remainders they denote.
 Exclusive or is defined bit by bit.
 */
module Octets {

  type byte = x: int | 0 <= x < 256

  type Bytes = seq<byte>

  datatype Option<+T> = None | Some(value: T)

  /** `b & 0x80 != 0` */
  predicate HighBit(b: byte) { b >= 128 }

  /** `b & 0x7f` */
  function Low7(b: byte): nat { b % 128 }

  /** `b & 0x70`, scaled down by 16 */
  function Rsv(b: byte): nat { b / 16 % 8 }

  /** `b & 0x0f` */
  function Low4(b: byte): nat { b % 16 }

  // ---------------------------------------------------------------- exclusive or

  function Pow2(n: nat): (p: nat)
    ensures p >= 1
  {
    if n == 0 then 1 else 2 * Pow2(n - 1)
  }

  /** Exclusive or of the low `bits` bits of `a` and `b`. */
  function XorBits(a: nat, b: nat, bits: nat): (r: nat)
    ensures r < Pow2(bits)
  {
    if bits == 0 then 0
    else 2 * XorBits(a / 2, b / 2, bits - 1) + (a % 2 + b % 2) % 2
  }

  lemma {:induction false} XorBitsCancels(a: nat, k: nat, bits: nat)
    requires a < Pow2(bits)
    ensures XorBits(XorBits(a, k, bits), k, bits) == a
  {
    if bits > 0 {
      var inner, bit := XorBits(a / 2, k / 2, bits - 1), (a % 2 + k % 2) % 2;
      var x := XorBits(a, k, bits);
      assert x == 2 * inner + bit;
      assert x / 2 == inner && x % 2 == bit;
      assert (bit + k % 2) % 2 == a % 2;
      XorBitsCancels(a / 2, k / 2, bits - 1);
      assert XorBits(x, k, bits) == 2 * XorBits(inner, k / 2, bits - 1) + a % 2;
    }
  }

  function Xor(a: byte, b: byte): (r: byte)
  {
    assert Pow2(8) == 256;
    XorBits(a, b, 8)
  }

  /** Unmasking undoes masking, octet by octet. */
  lemma XorCancels(a: byte, k: byte)
    ensures Xor(Xor(a, k), k) == a
  {
    assert Pow2(8) == 256;
    XorBitsCancels(a, k, 8);
  }

  /** The RFC 6455 masking transformation: octet `i` is combined with `key[i % 4]`. */
  function Mask(key: Bytes, payload: Bytes): (r: Bytes)
    requires |key| == 4
    ensures |r| == |payload|
    ensures forall i :: 0 <= i < |payload| ==> r[i] == Xor(payload[i], key[i % 4])
  {
    seq(|payload|, i requires 0 <= i < |payload| => Xor(payload[i], key[i % 4]))
  }

  /** Section 5.3 of RFC 6455: the same transformation unmasks. */
  lemma {:induction false} MaskInvolution(key: Bytes, payload: Bytes)
    requires |key| == 4
    ensures Mask(key, Mask(key, payload)) == payload
  {
    forall i | 0 <= i < |payload|
      ensures Mask(key, Mask(key, payload))[i] == payload[i]
    {
      XorCancels(payload[i], key[i % 4]);
    }
  }

  // ---------------------------------------------------------------- network byte order

  function Pow256(k: nat): (p: nat)
    ensures p >= 1
  {
    if k == 0 then 1 else 256 * Pow256(k - 1)
  }

  /** The number a big-endian field denotes. */
  function FromBE(s: Bytes): (n: nat)
    ensures n < Pow256(|s|)
  {
    if s == [] then 0 else 256 * FromBE(s[..|s| - 1]) + s[|s| - 1]
  }

  /** The `k` octets of a big-endian field; like the sources' conversions it keeps `n` modulo 256^k. */
  function ToBE(n: nat, k: nat): (s: Bytes)
    ensures |s| == k
  {
    if k == 0 then [] else ToBE(n / 256, k - 1) + [n % 256]
  }

  lemma {:induction false} FromToBE(n: nat, k: nat)
    requires n < Pow256(k)
    ensures FromBE(ToBE(n, k)) == n
  {
    if k > 0 {
      FromToBE(n / 256, k - 1);
      assert ToBE(n, k)[..k - 1] == ToBE(n / 256, k - 1);
    }
  }

  lemma {:induction false} ToFromBE(s: Bytes)
    ensures ToBE(FromBE(s), |s|) == s
  {
    if s != [] {
      ToFromBE(s[..|s| - 1]);
      assert s == s[..|s| - 1] + [s[|s| - 1]];
    }
  }

  lemma Widths()
    ensures Pow256(2) == 0x1_0000
    ensures Pow256(4) == 0x1_0000_0000
    ensures Pow256(8) == 0x1_0000_0000_0000_0000
  {
    assert Pow256(1) == 256;
    assert Pow256(3) == 0x100_0000;
    assert Pow256(4) == 0x1_0000_0000;
    assert Pow256(5) == 0x100_0000_0000;
    assert Pow256(6) == 0x1_0000_0000_0000;
    assert Pow256(7) == 0x100_0000_0000_0000;
  }

  /** `binary.BigEndian.Uint16` */
  function U16(s: Bytes): (n: nat)
    requires |s| == 2
    ensures n == FromBE(s)
    ensures n < 0x1_0000
  {
    assert FromBE(s[..1]) == s[0] by { assert s[..1][..0] == []; }
    var high: nat, low: nat := s[0], s[1];
    256 * high + low
  }

  /** `binary.BigEndian.Uint16(m[o:o+2])` */
  function Short(m: Bytes, o: nat): nat
    requires o + 2 <= |m|
  {
    var high: nat, low: nat := m[o], m[o + 1];
    256 * high + low
  }

  /** `binary.BigEndian.Uint32(m[o:o+4])` */
  function Long(m: Bytes, o: nat): nat
    requires o + 4 <= |m|
  {
    65536 * Short(m, o) + Short(m, o + 2)
  }

  // ---------------------------------------------------------------- sequences

  lemma Assoc<T>(a: seq<T>, b: seq<T>, c: seq<T>)
    ensures a + (b + c) == (a + b) + c
  {
  }

  lemma SplitAt<T>(a: seq<T>, b: seq<T>, n: nat)
    requires n <= |b|
    ensures a + b == (a + b[..n]) + b[n..]
  {
  }

  lemma Empty<T>(a: seq<T>)
    ensures [] + a == a && a + [] == a
  {
  }

  function Concat(parts: seq<Bytes>): Bytes
  {
    if parts == [] then [] else parts[0] + Concat(parts[1..])
  }

  lemma {:induction false} ConcatAppend(a: seq<Bytes>, b: seq<Bytes>)
    ensures Concat(a + b) == Concat(a) + Concat(b)
  {
    if a == [] {
      assert a + b == b;
    } else {
      assert (a + b)[1..] == a[1..] + b;
      ConcatAppend(a[1..], b);
    }
  }

  lemma ConcatSnoc(a: seq<Bytes>, x: Bytes)
    ensures Concat(a + [x]) == Concat(a) + x
  {
    ConcatAppend(a, [x]);
    assert [x][1..] == [];
  }
}
