/** The comparators a connection can be sorted by, and the order they induce on
    the connection list. */
module Comparators {
  import opened Types
  import opened BigEndian
  import opened StableSort

  /** The `(a < b) ? -1 : (a > b)` idiom of every comparator. */
  function Sign(a: int, b: int): (r: int)
  {
    if a < b then -1 else if a > b then 1 else 0
  }

  // ----- strings

  /** A `char` is signed on the targets this program is built for. */
  function SignedChar(c: char): (v: int)
  {
    if c as int < 128 then c as int else c as int - 256
  }

  /** The character at `i`, the terminator standing at the end. */
  function CharAt(s: string, i: nat): (v: int)
  {
    if i < |s| then SignedChar(s[i]) else 0
  }

  function TextCompare(s: string, t: string): (r: int)
    ensures -1 <= r <= 1
  {
    if s == [] || t == [] || s[0] != t[0] then Sign(CharAt(s, 0), CharAt(t, 0))
    else TextCompare(s[1..], t[1..])
  }

  /** `p1` and `p2` are the strings with their terminators. */
  method SortText(s1: string, s2: string) returns (ret: int)
    requires IsCString(s1) && IsCString(s2)
    ensures ret == TextCompare(s1, s2)
  {
    var p1, p2 := s1 + ['\0'], s2 + ['\0'];
    var i := 0;
    var c1, c2 := p1[0], p2[0];
    while c1 != '\0' && c2 != '\0' && c1 == c2
      invariant i <= |s1| && i <= |s2| && c1 == p1[i] && c2 == p2[i]
      invariant TextCompare(s1, s2) == TextCompare(s1[i..], s2[i..])
      decreases |s1| - i
    {
      i := i + 1;
      c1, c2 := p1[i], p2[i];
    }
    ret := Sign(SignedChar(c1), SignedChar(c2));
  }

  /** The first position where the strings differ decides. */
  lemma {:induction false} FirstDifferenceDecides(s: string, t: string, k: nat)
    requires k <= |s| && k <= |t| && s[..k] == t[..k]
    requires k == |s| || k == |t| || s[k] != t[k]
    ensures TextCompare(s, t) == Sign(CharAt(s, k), CharAt(t, k))
  {
    if k > 0 {
      assert s[0] == s[..k][0] == t[..k][0] == t[0];
      assert s[1..][..k - 1] == s[..k][1..] && t[1..][..k - 1] == t[..k][1..];
      FirstDifferenceDecides(s[1..], t[1..], k - 1);
    }
  }

  lemma {:induction false} TextCompareSigns(s: string, t: string)
    requires IsCString(s) && IsCString(t)
    ensures TextCompare(s, t) == -TextCompare(t, s)
    ensures TextCompare(s, t) == 0 <==> s == t
  {
    if s != [] && t != [] && s[0] == t[0] {
      TextCompareSigns(s[1..], t[1..]);
      assert s == [s[0]] + s[1..] && t == [t[0]] + t[1..];
    }
  }

  lemma {:induction false} TextCompareTransitive(s: string, t: string, u: string)
    requires IsCString(s) && IsCString(t) && IsCString(u)
    requires TextCompare(s, t) <= 0 && TextCompare(t, u) <= 0
    ensures TextCompare(s, u) <= 0
  {
    if s != [] && t != [] && u != [] && s[0] == t[0] == u[0] {
      TextCompareTransitive(s[1..], t[1..], u[1..]);
    } else {
      assert SignedCharsOrdered(s, t) && SignedCharsOrdered(t, u);
    }
  }

  /** The heads of two strings that compare `<= 0`. */
  predicate SignedCharsOrdered(s: string, t: string)
  {
    CharAt(s, 0) <= CharAt(t, 0)
  }

  // ----- addresses

  /** The address as one big-endian number of 32 or 128 bits. */
  function AddressNumber(family: Family, a: Bytes16): (n: nat)
  {
    PrefixNumber(a, AddressLength(family))
  }

  function AddressCompare(family: Family, a1: Bytes16, a2: Bytes16): (r: int)
  {
    Sign(AddressNumber(family, a1), AddressNumber(family, a2))
  }

  predicate SameWords(a1: Bytes16, a2: Bytes16, i: nat)
    requires i <= 4
  {
    PrefixNumber(a1, 4 * i) == PrefixNumber(a2, 4 * i)
  }

  function WordCompare(a1: Bytes16, a2: Bytes16, i: nat): (r: int)
    requires i < 4
  {
    Sign(NetworkWord(a1, 4 * i), NetworkWord(a2, 4 * i))
  }

  lemma {:induction false} WordExtendsPrefix(a1: Bytes16, a2: Bytes16, i: nat)
    requires i < 4 && SameWords(a1, a2, i)
    ensures WordCompare(a1, a2, i) == Sign(PrefixNumber(a1, 4 * i + 4), PrefixNumber(a2, 4 * i + 4))
  {
    AppendWord(a1, 4 * i);
    AppendWord(a2, 4 * i);
  }

  lemma {:induction false} PrefixSettles(a1: Bytes16, a2: Bytes16, k: nat)
    requires k <= 16 && PrefixNumber(a1, k) != PrefixNumber(a2, k)
    ensures AddressCompare(Inet6, a1, a2) == Sign(PrefixNumber(a1, k), PrefixNumber(a2, k))
  {
    if PrefixNumber(a1, k) < PrefixNumber(a2, k) {
      BytePrefixDecides(a1, a2, k, 16);
    } else {
      BytePrefixDecides(a2, a1, k, 16);
    }
  }

  /** After equal words, the next word decides if it differs. */
  lemma {:induction false} WordDecides(a1: Bytes16, a2: Bytes16, i: nat)
    requires i < 4 && SameWords(a1, a2, i)
    ensures WordCompare(a1, a2, i) == 0 ==> SameWords(a1, a2, i + 1)
    ensures WordCompare(a1, a2, i) != 0 ==> AddressCompare(Inet6, a1, a2) == WordCompare(a1, a2, i)
  {
    WordExtendsPrefix(a1, a2, i);
    if WordCompare(a1, a2, i) != 0 {
      PrefixSettles(a1, a2, 4 * i + 4);
    }
  }

  lemma {:induction false} FirstWordDecides(a1: Bytes16, a2: Bytes16)
    ensures WordCompare(a1, a2, 0) == AddressCompare(Inet, a1, a2)
  {
    WordExtendsPrefix(a1, a2, 0);
  }

  /** Compares word by word, stopping at the first word that differs. */
  method SortAddress(family: Family, a1: Bytes16, a2: Bytes16) returns (ret: int)
    ensures ret == AddressCompare(family, a1, a2)
  {
    var d1, d2 := NetworkWord(a1, 0), NetworkWord(a2, 0);
    ret := Sign(d1, d2);
    FirstWordDecides(a1, a2);
    WordDecides(a1, a2, 0);
    if family.Inet? || ret != 0 {
      return;
    }
    var i := 1;
    while i < 4
      invariant 1 <= i <= 4
      invariant ret == 0 && SameWords(a1, a2, i)
    {
      d1, d2 := NetworkWord(a1, 4 * i), NetworkWord(a2, 4 * i);
      ret := Sign(d1, d2);
      WordDecides(a1, a2, i);
      if ret != 0 {
        return;
      }
      i := i + 1;
    }
  }

  /** The comparator takes the family from its first argument only. It is sign
      antisymmetric on a pair exactly when the families agree, or the first words
      already differ, or the addresses are equal as 128-bit numbers. */
  lemma {:induction false} MixedFamilies(fa: Family, fb: Family, a: Bytes16, b: Bytes16)
    ensures AddressCompare(fa, a, b) == -AddressCompare(fb, b, a)
       <==> fa == fb || AddressNumber(Inet, a) != AddressNumber(Inet, b)
            || AddressNumber(Inet6, a) == AddressNumber(Inet6, b)
  {
    if AddressNumber(Inet, a) != AddressNumber(Inet, b) {
      PrefixSettles(a, b, 4);
    }
  }

  /** For instance, two addresses that first differ in byte 4 tie one way round only. */
  lemma {:induction false} MixedFamiliesExample()
    ensures var a, b := ZERO_ADDRESS, ZERO_ADDRESS[4 := 1];
            AddressCompare(Inet, a, b) == 0 && AddressCompare(Inet6, b, a) != 0
  {
    var a, b: Bytes16 := ZERO_ADDRESS, ZERO_ADDRESS[4 := 1];
    assert a[..4] == b[..4] && a[..16] == a && b[..16] == b;
    if AddressNumber(Inet6, a) == AddressNumber(Inet6, b) {
      NumberInjective(Bits(a), Bits(b));
      BitsAt(a, 39);
      BitsAt(b, 39);
      assert false;
    }
  }

  // ----- one field's comparator

  /** What a string field reads from `c` is a C string. */
  predicate ReadsCString(f: Field, c: Conn)
  {
    f.kind.TextKind? ==> IsCString(TextOf(f.read(c)))
  }

  ghost predicate ReadsCStrings(f: Field)
  {
    f.kind.TextKind? ==> forall c: Conn :: IsCString(TextOf(f.read(c)))
  }

  /** The column of command names reads C strings, for instance. */
  lemma {:induction false} CommandColumn(f: Field)
    ensures ReadsCStrings(f.(read := (c: Conn) => TextValue(c.comm)))
  {
  }

  function NumberOf(v: Value): (n: nat)
  {
    match v case NumberValue(n) => n case FlagsValue(n, _) => n case _ => 0
  }

  function TextOf(v: Value): (s: string)
  {
    match v case TextValue(s) => s case _ => ""
  }

  const ZERO_ADDRESS: Bytes16 := [0, 0, 0, 0, 0, 0, 0, 0, 0, 0, 0, 0, 0, 0, 0, 0]

  function AddressOf(v: Value): (a: Bytes16)
  {
    match v case AddressValue(_, a) => a case _ => ZERO_ADDRESS
  }

  function FamilyOf(v: Value): (f: Family)
  {
    match v case AddressValue(f, _) => f case _ => Inet
  }

  function FieldCompare(f: Field, x: Conn, y: Conn): (r: int)
  {
    match f.kind
    case TextKind => TextCompare(TextOf(f.read(x)), TextOf(f.read(y)))
    case AddressKind => AddressCompare(FamilyOf(f.read(x)), AddressOf(f.read(x)), AddressOf(f.read(y)))
    case _ => Sign(NumberOf(f.read(x)), NumberOf(f.read(y)))
  }

  /** What `f` reads from `c` is comparable: strings are C strings, and addresses
      belong to the family of the dump. */
  ghost predicate Comparable(f: Field, family: Family, c: Conn)
  {
    && ReadsCString(f, c)
    && (f.kind.AddressKind? ==> FamilyOf(f.read(c)) == family)
  }

  /** The comparator of a field. A heading row has none. */
  method SortFunc(f: Field, x: Conn, y: Conn) returns (ret: int)
    requires f.drawable && ReadsCString(f, x) && ReadsCString(f, y)
    ensures ret == FieldCompare(f, x, y)
  {
    match f.kind {
      case TextKind => ret := SortText(TextOf(f.read(x)), TextOf(f.read(y)));
      case AddressKind => ret := SortAddress(FamilyOf(f.read(x)), AddressOf(f.read(x)), AddressOf(f.read(y)));
      case _ =>
        ret := Sign(NumberOf(f.read(x)), NumberOf(f.read(y)));
    }
  }

  /** Every comparator is a total preorder with sign antisymmetry. */
  lemma {:induction false} FieldCompareIsTotalPreorder(f: Field, family: Family, x: Conn, y: Conn, z: Conn)
    requires Comparable(f, family, x) && Comparable(f, family, y) && Comparable(f, family, z)
    ensures FieldCompare(f, x, y) == -FieldCompare(f, y, x)
    ensures FieldCompare(f, x, y) <= 0 && FieldCompare(f, y, z) <= 0 ==> FieldCompare(f, x, z) <= 0
  {
    if f.kind.TextKind? {
      var s, t, u := TextOf(f.read(x)), TextOf(f.read(y)), TextOf(f.read(z));
      TextCompareSigns(s, t);
      if TextCompare(s, t) <= 0 && TextCompare(t, u) <= 0 {
        TextCompareTransitive(s, t, u);
      }
    }
  }

  // ----- the order of the connection list

  /** Must `x` stand before `y`? Connections carrying the key's attribute stand
      before those that lack it; without a key nothing has to. */
  predicate Precedes(key: Option<Field>, ascending: bool, x: Conn, y: Conn)
  {
    key.Some? && key.value.extRcv in x.ext
    && (key.value.extRcv in y.ext ==>
          if ascending then FieldCompare(key.value, x, y) < 0 else FieldCompare(key.value, x, y) > 0)
  }

  /** The loop body of the insertion: does the walk stop in front of `y`? */
  method StopsAt(key: Field, ascending: bool, x: Conn, y: Conn) returns (stop: bool)
    requires key.extRcv in x.ext
    requires key.extRcv in y.ext ==> key.drawable && ReadsCString(key, x) && ReadsCString(key, y)
    ensures stop == Precedes(Some(key), ascending, x, y)
  {
    if key.extRcv !in y.ext {
      return true;
    }
    var ret := SortFunc(key, x, y);
    if ascending {
      stop := ret < 0;
    } else {
      stop := ret > 0;
    }
  }

  /** Wherever the walk for `c` has to compare, there is a comparator for it. */
  ghost predicate KeyUsable(key: Option<Field>, cs: seq<Conn>, c: Conn)
  {
    key.Some? && key.value.extRcv in c.ext ==>
      forall x | x in cs && key.value.extRcv in x.ext ::
        key.value.drawable && ReadsCString(key.value, c) && ReadsCString(key.value, x)
  }

  function ListOrder(key: Option<Field>, ascending: bool): (lt: (Conn, Conn) -> bool)
  {
    (x, y) => Precedes(key, ascending, x, y)
  }

  ghost function Sortable(key: Option<Field>, family: Family): (s: iset<Conn>)
  {
    iset c | key.Some? ==> Comparable(key.value, family, c)
  }

  lemma {:induction false} PrecedesIsStrict(key: Option<Field>, ascending: bool, family: Family, x: Conn, y: Conn, z: Conn)
    requires x in Sortable(key, family) && y in Sortable(key, family) && z in Sortable(key, family)
    ensures !Precedes(key, ascending, x, x)
    ensures Precedes(key, ascending, x, y) && Precedes(key, ascending, y, z) ==> Precedes(key, ascending, x, z)
    ensures Precedes(key, ascending, x, z) ==> Precedes(key, ascending, x, y) || Precedes(key, ascending, y, z)
  {
    if key.Some? {
      var f := key.value;
      FieldCompareIsTotalPreorder(f, family, x, y, z);
      FieldCompareIsTotalPreorder(f, family, y, z, x);
      FieldCompareIsTotalPreorder(f, family, z, y, x);
      FieldCompareIsTotalPreorder(f, family, y, x, z);
      FieldCompareIsTotalPreorder(f, family, z, x, y);
      FieldCompareIsTotalPreorder(f, family, x, z, y);
      FieldCompareIsTotalPreorder(f, family, x, x, x);
    }
  }

  lemma {:induction false} ListOrderIsStrictWeakOrder(key: Option<Field>, ascending: bool, family: Family)
    ensures StrictWeakOrder(ListOrder(key, ascending), Sortable(key, family))
  {
    var lt, dom := ListOrder(key, ascending), Sortable(key, family);
    forall x, y, z | x in dom && y in dom && z in dom
      ensures !lt(x, x)
      ensures lt(x, y) && lt(y, z) ==> lt(x, z)
      ensures lt(x, z) ==> lt(x, y) || lt(y, z)
    {
      PrecedesIsStrict(key, ascending, family, x, y, z);
    }
  }

  /** The connections that carry the key's attribute, or those that lack it, in order. */
  function WithKey(key: Field, carry: bool, cs: seq<Conn>): (r: seq<Conn>)
    ensures forall c | c in r :: key.extRcv in c.ext <==> carry
  {
    if cs == [] then []
    else
      var c := cs[|cs| - 1];
      WithKey(key, carry, cs[..|cs| - 1]) + if key.extRcv in c.ext <==> carry then [c] else []
  }

  lemma {:induction false} WithKeyNext(key: Field, carry: bool, cs: seq<Conn>, c: Conn)
    ensures WithKey(key, carry, cs + [c]) == if key.extRcv in c.ext <==> carry then WithKey(key, carry, cs) + [c] else WithKey(key, carry, cs)
  {
    assert (cs + [c])[..|cs|] == cs;
  }

  lemma {:induction false} InsertAmong(key: Field, ascending: bool, a: seq<Conn>, b: seq<Conn>, c: Conn)
    requires forall x | x in b :: key.extRcv !in x.ext
    ensures var lt := ListOrder(Some(key), ascending);
            Inserted(lt, a + b, c) == if key.extRcv in c.ext then Inserted(lt, a, c) + b else a + (b + [c])
  {
    var lt := ListOrder(Some(key), ascending);
    if key.extRcv in c.ext {
      var i := InsertionPoint(lt, a, c);
      InsertionPointUnique(lt, a + b, c, i);
      assert (a + b)[..i] == a[..i] && (a + b)[i..] == a[i..] + b;
    } else {
      InsertionPointUnique(lt, a + b, c, |a + b|);
      assert (a + b)[..|a + b|] == a + b;
    }
  }

  lemma {:induction false} ArriveNext<T>(lt: (T, T) -> bool, cs: seq<T>, c: T)
    ensures Arrive(lt, cs + [c]) == Inserted(lt, Arrive(lt, cs), c)
  {
    assert (cs + [c])[..|cs|] == cs;
  }

  predicate KeylessLast(lt: (Conn, Conn) -> bool, key: Field, cs: seq<Conn>)
  {
    Arrive(lt, cs) == Arrive(lt, WithKey(key, true, cs)) + WithKey(key, false, cs)
  }

  lemma {:induction false} StaysLast(lt: (Conn, Conn) -> bool, key: Field, cs: seq<Conn>, c: Conn, a: seq<Conn>, b: seq<Conn>)
    requires a == WithKey(key, true, cs) && b == WithKey(key, false, cs) && KeylessLast(lt, key, cs)
    requires Inserted(lt, Arrive(lt, a) + b, c)
             == if key.extRcv in c.ext then Inserted(lt, Arrive(lt, a), c) + b else Arrive(lt, a) + (b + [c])
    ensures KeylessLast(lt, key, cs + [c])
  {
    ArriveNext(lt, cs, c);
    WithKeyNext(key, true, cs, c);
    WithKeyNext(key, false, cs, c);
    if key.extRcv in c.ext {
      assert WithKey(key, true, cs + [c]) == a + [c] && WithKey(key, false, cs + [c]) == b;
      ArriveNext(lt, a, c);
    } else {
      assert WithKey(key, true, cs + [c]) == a && WithKey(key, false, cs + [c]) == b + [c];
    }
  }

  /** Whatever arrives, the connections with the key's attribute are sorted among
      themselves, and those without it follow in arrival order. */
  lemma {:induction false} KeylessComeLast(key: Field, ascending: bool, cs: seq<Conn>)
    ensures KeylessLast(ListOrder(Some(key), ascending), key, cs)
  {
    if cs != [] {
      var lt, front, c := ListOrder(Some(key), ascending), cs[..|cs| - 1], cs[|cs| - 1];
      assert KeylessLast(lt, key, front + [c]) by {
        var a, b := WithKey(key, true, front), WithKey(key, false, front);
        KeylessComeLast(key, ascending, front);
        InsertAmong(key, ascending, Arrive(lt, a), b, c);
        StaysLast(lt, key, front, c, a, b);
      }
      assert front + [c] == cs;
    }
  }

  /** Without a key the list is in arrival order. */
  lemma {:induction false} NoKeyKeepsArrivalOrder(ascending: bool, cs: seq<Conn>)
    ensures Arrive(ListOrder(None, ascending), cs) == cs
  {
    if cs != [] {
      var lt, front := ListOrder(None, ascending), cs[..|cs| - 1];
      NoKeyKeepsArrivalOrder(ascending, front);
      InsertionPointUnique(lt, front, cs[|cs| - 1], |front|);
    }
  }
}
