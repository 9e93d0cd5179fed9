/** Bits of bytes in network order, and the number they spell. */
module BigEndian {

  /** Bit `k` of a byte, the most significant one being bit 0. */
  predicate Bit(b: bv8, k: nat)
    requires k < 8
  {
    match k
    case 0 => b & 0x80 != 0
    case 1 => b & 0x40 != 0
    case 2 => b & 0x20 != 0
    case 3 => b & 0x10 != 0
    case 4 => b & 0x08 != 0
    case 5 => b & 0x04 != 0
    case 6 => b & 0x02 != 0
    case _ => b & 0x01 != 0
  }

  /** The first `n` bits of a byte. */
  function ByteBits(b: bv8, n: nat): (bits: seq<bool>)
    requires n <= 8
    ensures |bits| == n
  {
    if n == 0 then [] else ByteBits(b, n - 1) + [Bit(b, n - 1)]
  }

  function Bits(bytes: seq<bv8>): (bits: seq<bool>)
    ensures |bits| == 8 * |bytes|
  {
    if bytes == [] then []
    else Bits(bytes[..|bytes| - 1]) + ByteBits(bytes[|bytes| - 1], 8)
  }

  lemma {:induction false} ByteBitsAt(b: bv8, n: nat, k: nat)
    requires k < n <= 8
    ensures ByteBits(b, n)[k] == Bit(b, k)
  {
    if k < n - 1 {
      ByteBitsAt(b, n - 1, k);
    }
  }

  /** Bit `i` of a buffer is bit `i % 8` of byte `i / 8`. */
  lemma {:induction false} BitsAt(bytes: seq<bv8>, i: nat)
    requires i < 8 * |bytes|
    ensures Bits(bytes)[i] == Bit(bytes[i / 8], i % 8)
  {
    var n := |bytes| - 1;
    if i < 8 * n {
      BitsAt(bytes[..n], i);
    } else {
      ByteBitsAt(bytes[n], 8, i - 8 * n);
    }
  }

  function BitValue(b: bool): (v: nat)
  {
    if b then 1 else 0
  }

  function Number(bits: seq<bool>): (n: nat)
  {
    if bits == [] then 0
    else 2 * Number(bits[..|bits| - 1]) + BitValue(bits[|bits| - 1])
  }

  function Pow2(n: nat): (p: nat)
    ensures p >= 1
  {
    if n == 0 then 1 else 2 * Pow2(n - 1)
  }

  lemma {:induction false} Pow2Add(m: nat, n: nat)
    ensures Pow2(m + n) == Pow2(m) * Pow2(n)
  {
    if n != 0 {
      Pow2Add(m, n - 1);
    }
  }

  lemma {:induction false} Pow2Monotone(m: nat, n: nat)
    requires m <= n
    ensures Pow2(m) <= Pow2(n)
    ensures m < n ==> Pow2(m) < Pow2(n)
    decreases n
  {
    if m < n {
      Pow2Monotone(m, n - 1);
    }
  }

  lemma {:induction false} NumberBound(bits: seq<bool>)
    ensures Number(bits) < Pow2(|bits|)
  {
    if bits != [] {
      NumberBound(bits[..|bits| - 1]);
    }
  }

  lemma {:induction false} NumberConcat(a: seq<bool>, b: seq<bool>)
    ensures Number(a + b) == Number(a) * Pow2(|b|) + Number(b)
  {
    if b == [] {
      assert a + b == a;
    } else {
      var c, last := b[..|b| - 1], b[|b| - 1];
      NumberConcat(a, c);
      LastBit(c, last);
      LastBit(a + c, last);
      assert b == c + [last] && a + b == a + c + [last];
      Doubled(Number(a), Pow2(|c|));
    }
  }

  lemma {:induction false} LastBit(bits: seq<bool>, last: bool)
    ensures Number(bits + [last]) == 2 * Number(bits) + BitValue(last)
  {
    assert (bits + [last])[..|bits|] == bits;
  }

  lemma {:induction false} Doubled(x: nat, y: nat)
    ensures x * (2 * y) == 2 * (x * y)
  {
  }

  lemma {:induction false} NumberInjective(a: seq<bool>, b: seq<bool>)
    requires |a| == |b| && Number(a) == Number(b)
    ensures a == b
  {
    if a != [] {
      var n := |a| - 1;
      NumberInjective(a[..n], b[..n]);
      assert a == a[..n] + [a[n]] && b == b[..n] + [b[n]];
    }
  }

  lemma {:induction false} MultipleIsFar(k: int, d: nat)
    requires k != 0
    ensures k * d >= d || k * d + d <= 0
  {
    if k > 0 {
      assert 0 <= (k - 1) * d;
    } else {
      assert 0 <= (-1 - k) * d;
    }
  }

  lemma {:induction false} QuotientUnique(q: nat, d: nat, r: nat)
    requires r < d
    ensures (q * d + r) / d == q
  {
    var x := q * d + r;
    var t := x / d;
    assert x == t * d + x % d;
    assert (t - q) * d == r - x % d;
    if t != q {
      MultipleIsFar(t - q, d);
    }
  }

  /** The leading `k` bits are the number divided by the weight of the rest. */
  lemma {:induction false} PrefixIsQuotient(bits: seq<bool>, k: nat)
    requires k <= |bits|
    ensures Number(bits) / Pow2(|bits| - k) == Number(bits[..k])
  {
    assert bits == bits[..k] + bits[k..];
    NumberConcat(bits[..k], bits[k..]);
    NumberBound(bits[k..]);
    QuotientUnique(Number(bits[..k]), Pow2(|bits| - k), Number(bits[k..]));
  }

  /** Agreeing on the first `k` bits, as bits and as numbers. */
  lemma {:induction false} SamePrefixSameQuotient(a: seq<bool>, b: seq<bool>, k: nat)
    requires |a| == |b| && k <= |a|
    ensures a[..k] == b[..k] <==> Number(a) / Pow2(|a| - k) == Number(b) / Pow2(|a| - k)
  {
    PrefixIsQuotient(a, k);
    PrefixIsQuotient(b, k);
    if Number(a[..k]) == Number(b[..k]) {
      NumberInjective(a[..k], b[..k]);
    }
  }

  lemma {:induction false} WeightedLess(x: nat, y: nat, w: nat, lo: nat)
    requires x < y && lo < w
    ensures x * w + lo < y * w
  {
    var t := y - x - 1;
    assert y * w == (x + 1 + t) * w;
    assert 0 <= t * w;
  }

  /** A leading part that differs decides the comparison of the whole. */
  lemma {:induction false} PrefixDecides(a: seq<bool>, b: seq<bool>, k: nat)
    requires |a| == |b| && k <= |a| && Number(a[..k]) < Number(b[..k])
    ensures Number(a) < Number(b)
  {
    assert a == a[..k] + a[k..] && b == b[..k] + b[k..];
    NumberConcat(a[..k], a[k..]);
    NumberConcat(b[..k], b[k..]);
    NumberBound(a[k..]);
    WeightedLess(Number(a[..k]), Number(b[..k]), Pow2(|a| - k), Number(a[k..]));
  }

  // ----- bytes

  lemma {:induction false} BitsConcat(s: seq<bv8>, t: seq<bv8>)
    ensures Bits(s + t) == Bits(s) + Bits(t)
  {
    if t == [] {
      assert s + t == s;
    } else {
      var u := t[..|t| - 1];
      assert (s + t)[..|s + t| - 1] == s + u;
      BitsConcat(s, u);
    }
  }

  lemma {:induction false} BitsPrefix(s: seq<bv8>, k: nat)
    requires k <= |s|
    ensures Bits(s[..k]) == Bits(s)[..8 * k]
  {
    assert s == s[..k] + s[k..];
    BitsConcat(s[..k], s[k..]);
  }

  /** The leading `k` bytes as one big-endian number. */
  function PrefixNumber(bytes: seq<bv8>, k: nat): (n: nat)
    requires k <= |bytes|
  {
    Number(Bits(bytes[..k]))
  }

  lemma {:induction false} BytePrefixDecides(a: seq<bv8>, b: seq<bv8>, k: nat, n: nat)
    requires k <= n <= |a| && n <= |b| && PrefixNumber(a, k) < PrefixNumber(b, k)
    ensures PrefixNumber(a, n) < PrefixNumber(b, n)
  {
    BitsPrefix(a, k);
    BitsPrefix(a, n);
    BitsPrefix(b, k);
    BitsPrefix(b, n);
    assert Bits(a)[..8 * n][..8 * k] == Bits(a)[..8 * k];
    assert Bits(b)[..8 * n][..8 * k] == Bits(b)[..8 * k];
    PrefixDecides(Bits(a)[..8 * n], Bits(b)[..8 * n], 8 * k);
  }

  /** The bits of a byte weigh what they do in the byte itself. */
  lemma {:induction false} ByteFromBits(b: bv8)
    ensures b as nat == 128 * BitValue(Bit(b, 0)) + 64 * BitValue(Bit(b, 1)) + 32 * BitValue(Bit(b, 2))
                      + 16 * BitValue(Bit(b, 3)) + 8 * BitValue(Bit(b, 4)) + 4 * BitValue(Bit(b, 5))
                      + 2 * BitValue(Bit(b, 6)) + BitValue(Bit(b, 7))
  {
  }

  function ByteValue(b: bv8): (v: nat)
    ensures v < 256
  {
    NumberBound(ByteBits(b, 8));
    assert Pow2(8) == 256 by { Pow2Add(4, 4); }
    Number(ByteBits(b, 8))
  }

  lemma {:induction false} NextBit(b: bv8, n: nat)
    requires n < 8
    ensures Number(ByteBits(b, n + 1)) == 2 * Number(ByteBits(b, n)) + BitValue(Bit(b, n))
  {
    assert ByteBits(b, n + 1)[..n] == ByteBits(b, n);
  }

  lemma {:induction false} ByteWeights(b: bv8)
    ensures ByteValue(b) == 128 * BitValue(Bit(b, 0)) + 64 * BitValue(Bit(b, 1)) + 32 * BitValue(Bit(b, 2))
                          + 16 * BitValue(Bit(b, 3)) + 8 * BitValue(Bit(b, 4)) + 4 * BitValue(Bit(b, 5))
                          + 2 * BitValue(Bit(b, 6)) + BitValue(Bit(b, 7))
  {
    NextBit(b, 0);
    NextBit(b, 1);
    NextBit(b, 2);
    NextBit(b, 3);
    NextBit(b, 4);
    NextBit(b, 5);
    NextBit(b, 6);
    NextBit(b, 7);
  }

  /** Reading a byte bit by bit gives the byte's own value. */
  lemma {:induction false} ByteValueIsTheByte(b: bv8)
    ensures ByteValue(b) == b as nat
  {
    ByteFromBits(b);
    ByteWeights(b);
  }

  /** The 32-bit word the host reads from four bytes in network order. */
  function NetworkWord(bytes: seq<bv8>, at: nat): (w: nat)
    requires at + 4 <= |bytes|
    ensures w < 0x1_0000_0000
  {
    ((ByteValue(bytes[at]) * 256 + ByteValue(bytes[at + 1])) * 256 + ByteValue(bytes[at + 2])) * 256
    + ByteValue(bytes[at + 3])
  }

  lemma {:induction false} AppendByte(bytes: seq<bv8>, at: nat)
    requires at < |bytes|
    ensures PrefixNumber(bytes, at + 1) == 256 * PrefixNumber(bytes, at) + ByteValue(bytes[at])
  {
    assert bytes[..at + 1][..at] == bytes[..at];
    NumberConcat(Bits(bytes[..at]), ByteBits(bytes[at], 8));
    assert Pow2(8) == 256 by { Pow2Add(4, 4); }
  }

  lemma {:induction false} AppendWord(bytes: seq<bv8>, at: nat)
    requires at + 4 <= |bytes|
    ensures PrefixNumber(bytes, at + 4) == 0x1_0000_0000 * PrefixNumber(bytes, at) + NetworkWord(bytes, at)
  {
    AppendByte(bytes, at);
    AppendByte(bytes, at + 1);
    AppendByte(bytes, at + 2);
    AppendByte(bytes, at + 3);
  }
}
