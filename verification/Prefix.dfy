/** Address prefixes: the mask a prefix length stands for (section 3.1 of RFC 4632,
    section 2.3 of RFC 4291), counting it back, and matching addresses under it. */
module Prefix {
  import opened Types
  import opened BigEndian

  /** Bit `i` of a buffer, in network order. */
  predicate BitAt(bytes: seq<bv8>, i: nat)
    requires i < 8 * |bytes|
  {
    Bit(bytes[i / 8], i % 8)
  }

  /** The mask of a prefix: `k` ones, then zeros. */
  predicate IsPrefixMask(mask: Bytes16, k: nat)
  {
    k <= 128 && forall i | 0 <= i < 128 :: BitAt(mask, i) <==> i < k
  }

  // ----- single bits of a byte

  lemma {:induction false} ShiftedBit(j: nat, k: nat)
    requires j < 8 && k < 8
    ensures Bit((1 as bv8) << j, k) <==> k == 7 - j
  {
    if j == 0 {
    } else if j == 1 {
    } else if j == 2 {
    } else if j == 3 {
    } else if j == 4 {
    } else if j == 5 {
    } else if j == 6 {
    }
  }

  lemma {:induction false} OrBit(a: bv8, b: bv8, k: nat)
    requires k < 8
    ensures Bit(a | b, k) <==> Bit(a, k) || Bit(b, k)
  {
    if k == 0 {
    } else if k == 1 {
    } else if k == 2 {
    } else if k == 3 {
    } else if k == 4 {
    } else if k == 5 {
    } else if k == 6 {
    }
  }

  lemma {:induction false} AndBit(a: bv8, b: bv8, k: nat)
    requires k < 8
    ensures Bit(a & b, k) <==> Bit(a, k) && Bit(b, k)
  {
  }

  lemma {:induction false} NoBits(a: bv8)
    requires !Bit(a, 0) && !Bit(a, 1) && !Bit(a, 2) && !Bit(a, 3) && !Bit(a, 4) && !Bit(a, 5) && !Bit(a, 6) && !Bit(a, 7)
    ensures a == 0
  {
  }

  lemma {:induction false} XorBit(a: bv8, b: bv8, k: nat)
    requires k < 8
    ensures Bit(a ^ b, k) <==> Bit(a, k) != Bit(b, k)
  {
    if k == 0 {
    } else if k == 1 {
    } else if k == 2 {
    } else if k == 3 {
    } else if k == 4 {
    } else if k == 5 {
    } else if k == 6 {
    }
  }

  lemma {:induction false} ZeroXor(a: bv8, b: bv8)
    requires a ^ b == 0
    ensures a == b
  {
  }

  /** Bytes with the same bits are the same. */
  lemma {:induction false} SameBits(a: bv8, b: bv8)
    requires forall k: nat | k < 8 :: Bit(a, k) == Bit(b, k)
    ensures a == b
  {
    var x := a ^ b;
    forall k: nat | k < 8 ensures !Bit(x, k) {
      XorBit(a, b, k);
    }
    NoBits(x);
    ZeroXor(a, b);
  }

  /** `v & (1 << j)` tests one bit. */
  lemma {:induction false} TestsBit(b: bv8, j: nat)
    requires j < 8
    ensures b & ((1 as bv8) << j) != 0 <==> Bit(b, 7 - j)
  {
    var t := b & ((1 as bv8) << j);
    forall k: nat | k < 8 ensures Bit(t, k) <==> k == 7 - j && Bit(b, 7 - j) {
      AndBit(b, (1 as bv8) << j, k);
      ShiftedBit(j, k);
    }
    if !Bit(b, 7 - j) {
      NoBits(t);
    }
  }

  predicate SameMasked(a: bv8, b: bv8, m: bv8)
  {
    forall k: nat | k < 8 && Bit(m, k) :: Bit(a, k) == Bit(b, k)
  }

  /** Two bytes agree under a mask exactly when they agree on its bits. */
  lemma {:induction false} MaskedBytes(a: bv8, b: bv8, m: bv8)
    ensures a & m == b & m <==> SameMasked(a, b, m)
  {
    var x, y := a & m, b & m;
    forall k: nat | k < 8 ensures Bit(x, k) == (Bit(a, k) && Bit(m, k)) {
      AndBit(a, m, k);
    }
    forall k: nat | k < 8 ensures Bit(y, k) == (Bit(b, k) && Bit(m, k)) {
      AndBit(b, m, k);
    }
    if SameMasked(a, b, m) {
      forall k: nat | k < 8 ensures Bit(x, k) == Bit(y, k) {
        assert Bit(x, k) == (Bit(a, k) && Bit(m, k));
      }
      SameBits(x, y);
    }
  }

  method SameUnderMask(a: bv8, b: bv8, m: bv8) returns (same: bool)
    ensures same <==> SameMasked(a, b, m)
  {
    MaskedBytes(a, b, m);
    same := a & m == b & m;
  }

  // ----- building and counting masks

  /** The byte whose first `rem` bits are set, bit by bit. */
  method PartialByte(rem: nat) returns (m: bv8)
    requires 0 < rem < 8
    ensures forall k: nat | k < 8 :: Bit(m, k) <==> k < rem
  {
    m := 0;
    var j: int := 7;
    while j >= 8 - rem
      invariant 7 - rem <= j <= 7
      invariant forall k: nat | k < 8 :: Bit(m, k) <==> k < 7 - j
    {
      ghost var was := m;
      m := m | ((1 as bv8) << j);
      forall k: nat | k < 8 ensures Bit(m, k) <==> k < 7 - (j - 1) {
        OrBit(was, (1 as bv8) << j, k);
        ShiftedBit(j, k);
      }
      j := j - 1;
    }
  }

  lemma {:induction false} FullByte(k: nat)
    requires k < 8
    ensures Bit(0xff, k) && !Bit(0, k)
  {
  }

  /** The mask for a prefix length. */
  method BuildMask(pfix: nat) returns (mask: Bytes16)
    requires pfix <= 128
    ensures IsPrefixMask(mask, pfix)
  {
    var bytes := new bv8[16](_ => 0);
    var i := 0;
    while i < pfix / 8
      invariant i <= pfix / 8
      invariant forall b | 0 <= b < 16 :: bytes[b] == if b < i then 0xff else 0
    {
      bytes[i] := 0xff;
      i := i + 1;
    }
    var rem := pfix % 8;
    if rem != 0 {
      var m := PartialByte(rem);
      bytes[i] := m;
    }
    mask := bytes[..];
    forall b | 0 <= b < 128 ensures BitAt(mask, b) <==> b < pfix {
      FullByte(b % 8);
    }
  }

  /** Without a slash every bit counts. */
  method FullMask() returns (mask: Bytes16)
    ensures IsPrefixMask(mask, 128)
  {
    mask := seq(16, _ => 0xff);
    forall b | 0 <= b < 128 ensures BitAt(mask, b) {
      FullByte(b % 8);
    }
  }

  /** Counts the leading ones among the first `len` bytes. */
  method CountPrefix(mask: Bytes16, len: nat) returns (pfix: nat)
    requires len <= 16
    ensures pfix <= 8 * len && forall i | 0 <= i < pfix :: BitAt(mask, i)
    ensures pfix < 8 * len ==> !BitAt(mask, pfix)
  {
    pfix := 0;
    var i := 0;
    while i < len
      invariant i <= len && pfix == 8 * i
      invariant forall b | 0 <= b < pfix :: BitAt(mask, b)
    {
      var j: int := 7;
      while j >= 0
        invariant -1 <= j <= 7 && pfix == 8 * i + 7 - j
        invariant forall b | 0 <= b < pfix :: BitAt(mask, b)
      {
        TestsBit(mask[i], j);
        if mask[i] & ((1 as bv8) << j) != 0 {
          assert BitAt(mask, pfix);
          pfix := pfix + 1;
        } else {
          return;
        }
        j := j - 1;
      }
      i := i + 1;
    }
  }

  /** Counting a prefix mask back gives the prefix, as far as the address is long. */
  lemma {:induction false} CountedPrefix(mask: Bytes16, k: nat, len: nat, pfix: nat)
    requires IsPrefixMask(mask, k) && len <= 16
    requires pfix <= 8 * len && forall i | 0 <= i < pfix :: BitAt(mask, i)
    requires pfix < 8 * len ==> !BitAt(mask, pfix)
    ensures pfix == if k < 8 * len then k else 8 * len
  {
    assert pfix > 0 ==> BitAt(mask, pfix - 1);
  }

  // ----- matching

  /** Do the addresses agree on every masked bit of the family's length? */
  predicate AgreesUnder(family: Family, a: Bytes16, b: Bytes16, mask: Bytes16)
  {
    forall i | 0 <= i < 8 * AddressLength(family) && BitAt(mask, i) :: BitAt(a, i) == BitAt(b, i)
  }

  /** What an address filter accepts. */
  predicate AddressMatches(flt: Filter, family: Family, address: Bytes16)
    requires flt.AddressFilter?
  {
    (family == flt.family && AgreesUnder(family, address, flt.addr, flt.mask)) != flt.op.NE?
  }

  /** The bits `8 * i` to `8 * i + 7` agree under the mask. */
  predicate OctetAgrees(a: Bytes16, b: Bytes16, mask: Bytes16, i: nat)
    requires i < 16
  {
    forall p: nat | 8 * i <= p < 8 * i + 8 && BitAt(mask, p) :: BitAt(a, p) == BitAt(b, p)
  }

  lemma {:induction false} OctetIsByte(a: Bytes16, b: Bytes16, mask: Bytes16, i: nat)
    requires i < 16
    ensures OctetAgrees(a, b, mask, i) <==> SameMasked(a[i], b[i], mask[i])
  {
    if OctetAgrees(a, b, mask, i) {
      forall k: nat | k < 8 && Bit(mask[i], k) ensures Bit(a[i], k) == Bit(b[i], k) {
        assert (8 * i + k) / 8 == i && (8 * i + k) % 8 == k;
        assert BitAt(mask, 8 * i + k);
      }
    }
  }

  /** The first `i` bytes agree; the addresses do iff that is all or the next agrees too. */
  lemma {:induction false} OctetsDecide(a: Bytes16, b: Bytes16, mask: Bytes16, i: nat, family: Family)
    requires i <= AddressLength(family)
    requires forall o | 0 <= o < i :: OctetAgrees(a, b, mask, o)
    requires i < AddressLength(family) ==> !OctetAgrees(a, b, mask, i)
    ensures AgreesUnder(family, a, b, mask) <==> i == AddressLength(family)
  {
    if i == AddressLength(family) {
      forall p | 0 <= p < 8 * i && BitAt(mask, p) ensures BitAt(a, p) == BitAt(b, p) {
        assert OctetAgrees(a, b, mask, p / 8);
      }
    }
  }

  /** The evaluator: byte by byte under the mask, `!=` inverting the verdict. */
  method MatchAddress(flt: Filter, family: Family, address: Bytes16) returns (ret: bool)
    requires flt.AddressFilter?
    ensures ret == AddressMatches(flt, family, address)
  {
    if family != flt.family {
      ret := false;
    } else {
      var len := AddressLength(family);
      var i := 0;
      while i < len
        invariant i <= len
        invariant forall b | 0 <= b < i :: OctetAgrees(address, flt.addr, flt.mask, b)
      {
        var same := SameUnderMask(address[i], flt.addr[i], flt.mask[i]);
        OctetIsByte(address, flt.addr, flt.mask, i);
        if !same {
          break;
        }
        i := i + 1;
      }
      OctetsDecide(address, flt.addr, flt.mask, i, family);
      ret := i == len;
    }
    if flt.op.NE? {
      ret := !ret;
    }
  }

  function Min(a: nat, b: nat): (m: nat)
  {
    if a < b then a else b
  }

  /** A filter built from a prefix accepts exactly the addresses of its family that
      equal its own on the prefix, read as big-endian numbers; `!=` is the complement. */
  lemma {:induction false} PrefixFilterMeaning(flt: Filter, k: nat, family: Family, address: Bytes16)
    requires flt.AddressFilter? && IsPrefixMask(flt.mask, k)
    ensures var len := AddressLength(family);
            var n := Min(k, 8 * len);
            var w := Pow2(8 * len - n);
            var same := family == flt.family && PrefixNumber(address, len) / w == PrefixNumber(flt.addr, len) / w;
            AddressMatches(flt, family, address) == (same != flt.op.NE?)
  {
    var len := AddressLength(family);
    var n := Min(k, 8 * len);
    var a, b := Bits(address[..len]), Bits(flt.addr[..len]);
    SamePrefixSameQuotient(a, b, n);
    PrefixAgreement(flt.mask, k, family, address, flt.addr);
  }

  lemma {:induction false} PrefixAgreement(mask: Bytes16, k: nat, family: Family, x: Bytes16, y: Bytes16)
    requires IsPrefixMask(mask, k)
    ensures var len := AddressLength(family);
            AgreesUnder(family, x, y, mask)
            <==> Bits(x[..len])[..Min(k, 8 * len)] == Bits(y[..len])[..Min(k, 8 * len)]
  {
    var len := AddressLength(family);
    var a, b := Bits(x[..len]), Bits(y[..len]);
    forall i | 0 <= i < 8 * len ensures a[i] == BitAt(x, i) && b[i] == BitAt(y, i) {
      BitsAt(x[..len], i);
      BitsAt(y[..len], i);
    }
    if a[..Min(k, 8 * len)] == b[..Min(k, 8 * len)] {
      forall i | 0 <= i < 8 * len && BitAt(mask, i) ensures BitAt(x, i) == BitAt(y, i) {
        assert a[..Min(k, 8 * len)][i] == b[..Min(k, 8 * len)][i];
      }
    }
  }

  // ----- the mask as a value

  function PartialMaskByte(rem: nat): (m: bv8)
    requires rem <= 8
    ensures forall k: nat | k < 8 :: Bit(m, k) <==> k < rem
  {
    [0x00, 0x80, 0xc0, 0xe0, 0xf0, 0xf8, 0xfc, 0xfe, 0xff][rem]
  }

  function PrefixMask(k: nat): (mask: Bytes16)
    requires k <= 128
    ensures IsPrefixMask(mask, k)
  {
    var mask := seq(16, i requires 0 <= i < 16 =>
                      PartialMaskByte(if 8 * i + 8 <= k then 8 else if k <= 8 * i then 0 else k - 8 * i));
    assert forall i | 0 <= i < 128 :: BitAt(mask, i) == Bit(mask[i / 8], i % 8);
    mask
  }

  lemma {:induction false} PrefixMaskUnique(mask: Bytes16, k: nat)
    requires IsPrefixMask(mask, k)
    ensures mask == PrefixMask(k)
  {
    var m := PrefixMask(k);
    forall i | 0 <= i < 16 ensures mask[i] == m[i] {
      forall b: nat | b < 8 ensures Bit(mask[i], b) == Bit(m[i], b) {
        assert (8 * i + b) / 8 == i && (8 * i + b) % 8 == b;
        assert BitAt(mask, 8 * i + b) == BitAt(m, 8 * i + b);
      }
      SameBits(mask[i], m[i]);
    }
  }
}
