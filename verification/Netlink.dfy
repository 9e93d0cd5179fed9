/** The attributes of a diagnostic message: how they are laid out, and the walk that
    reads them. */
module Netlink {
  import opened Types

  type Byte = b: int | 0 <= b < 256

  const RTA_HEADER := 4

  /** A 16-bit header member, low byte first. */
  function HostU16(bytes: seq<Byte>, at: nat): (v: nat)
    requires at + 2 <= |bytes|
  {
    bytes[at] as int + 256 * (bytes[at + 1] as int)
  }

  function Align4(n: nat): (r: nat)
    ensures n <= r < n + 4 && r % 4 == 0
  {
    (n + 3) / 4 * 4
  }

  // ----- attribute streams

  /** How many bytes fill an attribute up to a multiple of four. */
  function Padding(a: Attr): (n: nat)
  {
    Align4(RTA_HEADER + |a.data|) - (RTA_HEADER + |a.data|)
  }

  /** One attribute as the kernel lays it out, followed by padding of any content. */
  function EncodeAttr(a: Attr, pad: seq<Byte>): (bytes: seq<Byte>)
    requires GoodAttr(a) && |pad| == Padding(a)
    ensures |bytes| == Align4(RTA_HEADER + |a.data|)
  {
    var n := RTA_HEADER + |a.data|;
    [n % 256, n / 256, a.kind % 256, a.kind / 256] + Data(a) + pad
  }

  predicate GoodAttr(a: Attr)
  {
    a.kind < 0x1_0000 && RTA_HEADER + |a.data| < 0x1_0000 && forall i | 0 <= i < |a.data| :: 0 <= a.data[i] < 256
  }

  function Data(a: Attr): (bytes: seq<Byte>)
    requires GoodAttr(a)
    ensures bytes == a.data
  {
    seq(|a.data|, i requires 0 <= i < |a.data| => a.data[i])
  }

  predicate GoodAttrs(attrs: seq<Attr>, pads: seq<seq<Byte>>)
  {
    |pads| == |attrs| && forall i | 0 <= i < |attrs| :: GoodAttr(attrs[i]) && |pads[i]| == Padding(attrs[i])
  }

  function EncodeAttrs(attrs: seq<Attr>, pads: seq<seq<Byte>>): (bytes: seq<Byte>)
    requires GoodAttrs(attrs, pads)
  {
    if attrs == [] then [] else EncodeAttr(attrs[0], pads[0]) + EncodeAttrs(attrs[1..], pads[1..])
  }

  /** Does a complete attribute start at `at`? */
  predicate AttrAt(payload: seq<Byte>, at: nat)
  {
    && at + RTA_HEADER <= |payload|
    && RTA_HEADER <= HostU16(payload, at) <= |payload| - at
  }

  function ReadAttr(payload: seq<Byte>, at: nat): (a: Attr)
    requires AttrAt(payload, at)
  {
    Attr(HostU16(payload, at + 2), payload[at + RTA_HEADER..at + HostU16(payload, at)])
  }

  /** The payload from `at` on is a concatenation of padded attributes. */
  predicate IsAttrStream(payload: seq<Byte>, at: nat)
    requires at <= |payload|
    decreases |payload| - at
  {
    at == |payload|
    || (AttrAt(payload, at) && at + Align4(HostU16(payload, at)) <= |payload|
        && IsAttrStream(payload, at + Align4(HostU16(payload, at))))
  }

  function AttrsFrom(payload: seq<Byte>, at: nat): (attrs: seq<Attr>)
    requires at <= |payload| && IsAttrStream(payload, at)
    decreases |payload| - at
  {
    if at == |payload| then []
    else [ReadAttr(payload, at)] + AttrsFrom(payload, at + Align4(HostU16(payload, at)))
  }

  lemma {:induction false} EncodedAttrReads(front: seq<Byte>, a: Attr, pad: seq<Byte>, rest: seq<Byte>)
    requires GoodAttr(a) && |pad| == Padding(a)
    ensures var payload, at := front + EncodeAttr(a, pad) + rest, |front|;
            && AttrAt(payload, at) && HostU16(payload, at) == RTA_HEADER + |a.data|
            && ReadAttr(payload, at) == a
            && at + Align4(HostU16(payload, at)) == |front + EncodeAttr(a, pad)|
  {
    var payload, at, e := front + EncodeAttr(a, pad) + rest, |front|, EncodeAttr(a, pad);
    assert payload[at] == e[0] && payload[at + 1] == e[1] && payload[at + 2] == e[2] && payload[at + 3] == e[3];
    assert payload[at + RTA_HEADER..at + RTA_HEADER + |a.data|] == e[RTA_HEADER..RTA_HEADER + |a.data|] == a.data;
  }

  lemma {:induction false} StreamCons(payload: seq<Byte>, at: nat, a: Attr, next: nat, rest: seq<Attr>)
    requires at < next <= |payload| && AttrAt(payload, at) && ReadAttr(payload, at) == a
    requires at + Align4(HostU16(payload, at)) == next
    requires IsAttrStream(payload, next) && AttrsFrom(payload, next) == rest
    ensures IsAttrStream(payload, at) && AttrsFrom(payload, at) == [a] + rest
  {
  }

  /** Reading back what was encoded gives every attribute once, in order. */
  lemma {:induction false} EncodeThenRead(front: seq<Byte>, attrs: seq<Attr>, pads: seq<seq<Byte>>)
    requires GoodAttrs(attrs, pads)
    ensures var payload := front + EncodeAttrs(attrs, pads);
            IsAttrStream(payload, |front|) && AttrsFrom(payload, |front|) == attrs
    decreases |attrs|
  {
    var payload := front + EncodeAttrs(attrs, pads);
    if attrs == [] {
      assert payload == front;
    } else {
      var e, rest := EncodeAttr(attrs[0], pads[0]), EncodeAttrs(attrs[1..], pads[1..]);
      assert payload == front + e + rest;
      EncodedAttrReads(front, attrs[0], pads[0], rest);
      EncodeThenRead(front + e, attrs[1..], pads[1..]);
      StreamCons(payload, |front|, attrs[0], |front + e|, attrs[1..]);
    }
  }

  /** For instance, type 2 with the bytes 7 and 8: length and type come first, each low
      byte first. */
  lemma {:induction false} EncodeExample(p: Byte, q: Byte)
    ensures EncodeAttr(Attr(2, [7, 8]), [p, q]) == [6, 0, 2, 0, 7, 8, p, q]
  {
    var a := Attr(2, [7, 8]);
    assert Data(a) == [7, 8];
  }

  /** Attribute types above the table of copy functions are refused. */
  predicate AllSupported(attrs: seq<Attr>)
  {
    forall i | 0 <= i < |attrs| :: attrs[i].kind < INET_DIAG_MAX
  }

  function KindsOf(attrs: seq<Attr>): (kinds: set<nat>)
  {
    set i | 0 <= i < |attrs| :: attrs[i].kind
  }

  function NextAttr(payload: seq<Byte>, at: nat): (next: nat)
    requires at + 2 <= |payload|
  {
    at + Align4(HostU16(payload, at))
  }

  lemma {:induction false} StreamStep(payload: seq<Byte>, at: nat)
    requires at < |payload| && IsAttrStream(payload, at)
    ensures AttrAt(payload, at) && at < NextAttr(payload, at) <= |payload| && IsAttrStream(payload, NextAttr(payload, at))
    ensures AttrsFrom(payload, at) == [ReadAttr(payload, at)] + AttrsFrom(payload, NextAttr(payload, at))
  {
  }

  lemma {:induction false} WalkStep(copied: seq<Attr>, a: Attr, rest: seq<Attr>)
    requires AllSupported(copied)
    ensures (copied + [a]) + rest == copied + ([a] + rest)
    ensures AllSupported(copied + [a]) <==> a.kind < INET_DIAG_MAX
    ensures a.kind >= INET_DIAG_MAX ==> !AllSupported(copied + ([a] + rest))
    ensures KindsOf(copied + [a]) == KindsOf(copied) + {a.kind}
  {
    KindsGrow(copied, a);
    var all := copied + ([a] + rest);
    assert all[|copied|] == a;
  }

  /** Walks the attributes, copying each into the record. */
  method WalkAttrs(payload: seq<Byte>) returns (err: bool, copied: seq<Attr>, types: set<nat>)
    requires IsAttrStream(payload, 0)
    ensures err <==> !AllSupported(AttrsFrom(payload, 0))
    ensures !err ==> copied == AttrsFrom(payload, 0) && types == KindsOf(copied)
  {
    ghost var all := AttrsFrom(payload, 0);
    copied, types := [], {};
    var at: nat, len: int := 0, |payload|;
    while len >= RTA_HEADER && HostU16(payload, at) >= RTA_HEADER && HostU16(payload, at) <= len
      invariant at <= |payload| && len == |payload| - at && IsAttrStream(payload, at)
      invariant copied + AttrsFrom(payload, at) == all
      invariant AllSupported(copied) && types == KindsOf(copied)
      decreases len
    {
      StreamStep(payload, at);
      WalkStep(copied, ReadAttr(payload, at), AttrsFrom(payload, NextAttr(payload, at)));
      var a := ReadAttr(payload, at);
      if a.kind >= INET_DIAG_MAX {
        return true, copied, types;
      }
      copied := copied + [a];
      types := types + {a.kind};
      len := len - Align4(HostU16(payload, at));
      at := NextAttr(payload, at);
    }
    if at < |payload| {
      StreamStep(payload, at);
    }
    assert copied == all;
    err := false;
  }

  lemma {:induction false} KindsGrow(attrs: seq<Attr>, a: Attr)
    ensures KindsOf(attrs + [a]) == KindsOf(attrs) + {a.kind}
  {
    var more := attrs + [a];
    forall k | k in KindsOf(attrs) + {a.kind} ensures k in KindsOf(more) {
      if k == a.kind {
        assert more[|attrs|].kind == k;
      } else {
        var i :| 0 <= i < |attrs| && attrs[i].kind == k;
        assert more[i].kind == k;
      }
    }
  }
}
