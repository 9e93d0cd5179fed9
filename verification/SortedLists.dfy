/** What a sorted list is in terms of the values shown: the smallest first when the order
    is ascending, entries without the attribute last, ties in arrival order. */
module SortedLists {
  import opened Types
  import opened StableSort
  import opened BigEndian
  import opened Comparators

  // ----- the order of values

  /** Equal, or smaller at the first character where they differ, the end counting as 0. */
  ghost predicate TextAtMost(s: string, t: string)
  {
    s == t || exists k :: FirstDiffers(s, t, k) && CharAt(s, k) < CharAt(t, k)
  }

  predicate FirstDiffers(s: string, t: string, k: int)
  {
    && 0 <= k <= |s| && k <= |t| && s[..k] == t[..k]
    && (k == |s| || k == |t| || s[k] != t[k])
  }

  /** The value that `key` reads from `x` is at most the one it reads from `y`. */
  ghost predicate AtMost(key: Field, family: Family, x: Conn, y: Conn)
  {
    match key.kind
    case TextKind => TextAtMost(TextOf(key.read(x)), TextOf(key.read(y)))
    case AddressKind => AddressNumber(family, AddressOf(key.read(x))) <= AddressNumber(family, AddressOf(key.read(y)))
    case _ => NumberOf(key.read(x)) <= NumberOf(key.read(y))
  }

  predicate SameValue(key: Field, family: Family, x: Conn, y: Conn)
  {
    match key.kind
    case TextKind => TextOf(key.read(x)) == TextOf(key.read(y))
    case AddressKind => AddressNumber(family, AddressOf(key.read(x))) == AddressNumber(family, AddressOf(key.read(y)))
    case _ => NumberOf(key.read(x)) == NumberOf(key.read(y))
  }

  /** `c` and `d` tie: both lack the attribute, or both carry it with the same value. */
  predicate Ties(key: Field, family: Family, c: Conn, d: Conn)
  {
    if key.extRcv in c.ext then key.extRcv in d.ext && SameValue(key, family, c, d) else key.extRcv !in d.ext
  }

  /** The entries that tie with `c`, in the order of `cs`. */
  function TiesOf(key: Field, family: Family, c: Conn, cs: seq<Conn>): (r: seq<Conn>)
  {
    if cs == [] then []
    else (if Ties(key, family, c, cs[0]) then [cs[0]] else []) + TiesOf(key, family, c, cs[1..])
  }

  /** `listed` has the arrivals sorted by `key`. */
  ghost predicate SortedBy(key: Field, ascending: bool, family: Family, arrivals: seq<Conn>, listed: seq<Conn>)
  {
    && multiset(listed) == multiset(arrivals)
    && (forall i, j | 0 <= i < j < |listed| :: InOrder(key, ascending, family, listed[i], listed[j]))
    && (forall c | c in arrivals :: TiesOf(key, family, c, listed) == TiesOf(key, family, c, arrivals))
  }

  /** `x` may be listed before `y`. */
  ghost predicate InOrder(key: Field, ascending: bool, family: Family, x: Conn, y: Conn)
  {
    key.extRcv in y.ext ==>
      key.extRcv in x.ext && if ascending then AtMost(key, family, x, y) else AtMost(key, family, y, x)
  }

  /** The values that `key` reads can be compared: strings are C strings, and addresses
      are of one family. */
  ghost predicate OneFamily(key: Field, family: Family, cs: seq<Conn>)
  {
    forall c | c in cs :: Comparable(key, family, c)
  }

  /** Characters are signed: those above 127 come before all others. */
  lemma {:induction false} HighCharactersFirst(c: char, d: char, s: string, t: string)
    requires 128 <= c as int < 256 && 0 < d as int < 128
    ensures TextAtMost([c] + s, [d] + t)
  {
    assert FirstDiffers([c] + s, [d] + t, 0);
  }

  /** The number of an IPv4 address is its one word. */
  lemma {:induction false} ShortAddressReads(a: Bytes16)
    ensures AddressNumber(Inet, a) == NetworkWord(a, 0)
  {
    AppendWord(a, 0);
    assert PrefixNumber(a, 0) == 0;
  }

  /** The number of an IPv6 address: its 32-bit words, the first weighing most. */
  lemma {:induction false} LongAddressReads(a: Bytes16)
    ensures AddressNumber(Inet6, a)
         == ((NetworkWord(a, 0) * 0x1_0000_0000 + NetworkWord(a, 4)) * 0x1_0000_0000 + NetworkWord(a, 8)) * 0x1_0000_0000
            + NetworkWord(a, 12)
  {
    ShortAddressReads(a);
    AppendWord(a, 4);
    AppendWord(a, 8);
    AppendWord(a, 12);
  }

  /** A word: its bytes, the first weighing most. */
  lemma {:induction false} NetworkWordReads(a: Bytes16, at: nat)
    requires at + 4 <= 16
    ensures NetworkWord(a, at)
         == ((a[at] as nat * 256 + a[at + 1] as nat) * 256 + a[at + 2] as nat) * 256 + a[at + 3] as nat
  {
    ByteValueIsTheByte(a[at]);
    ByteValueIsTheByte(a[at + 1]);
    ByteValueIsTheByte(a[at + 2]);
    ByteValueIsTheByte(a[at + 3]);
  }

  // ----- the comparators agree with it

  lemma {:induction false} FirstDifference(s: string, t: string) returns (k: nat)
    ensures FirstDiffers(s, t, k)
  {
    k := 0;
    if s != [] && t != [] && s[0] == t[0] {
      var n := FirstDifference(s[1..], t[1..]);
      k := n + 1;
      assert s[..k] == [s[0]] + s[1..][..n] && t[..k] == [t[0]] + t[1..][..n];
    }
  }

  lemma {:induction false} TextAgrees(s: string, t: string)
    requires IsCString(s) && IsCString(t) && TextCompare(s, t) <= 0
    ensures TextAtMost(s, t)
  {
    var k := FirstDifference(s, t);
    FirstDifferenceDecides(s, t, k);
    TextCompareSigns(s, t);
    if s != t {
      assert CharAt(s, k) < CharAt(t, k);
    }
  }

  lemma {:induction false} CompareAgrees(key: Field, family: Family, x: Conn, y: Conn)
    requires Comparable(key, family, x) && Comparable(key, family, y)
    ensures FieldCompare(key, x, y) <= 0 ==> AtMost(key, family, x, y)
    ensures FieldCompare(key, x, y) >= 0 ==> AtMost(key, family, y, x)
    ensures FieldCompare(key, x, y) == 0 <==> SameValue(key, family, x, y)
  {
    if key.kind.TextKind? {
      var s, t := TextOf(key.read(x)), TextOf(key.read(y));
      TextCompareSigns(s, t);
      if TextCompare(s, t) <= 0 {
        TextAgrees(s, t);
      }
      if TextCompare(s, t) >= 0 {
        TextAgrees(t, s);
      }
    }
  }

  lemma {:induction false} OrderAgrees(key: Field, ascending: bool, family: Family, x: Conn, y: Conn)
    requires Comparable(key, family, x) && Comparable(key, family, y)
    ensures !Precedes(Some(key), ascending, y, x) ==> InOrder(key, ascending, family, x, y)
    ensures !Precedes(Some(key), ascending, x, y) && !Precedes(Some(key), ascending, y, x) <==> Ties(key, family, x, y)
  {
    CompareAgrees(key, family, x, y);
    CompareAgrees(key, family, y, x);
    FieldCompareIsTotalPreorder(key, family, x, y, x);
  }

  lemma {:induction false} PeersTie(key: Field, ascending: bool, family: Family, c: Conn, cs: seq<Conn>)
    requires Comparable(key, family, c) && OneFamily(key, family, cs)
    ensures Peers(ListOrder(Some(key), ascending), cs, c) == TiesOf(key, family, c, cs)
  {
    if cs != [] {
      assert cs[0] in cs && forall d | d in cs[1..] :: d in cs;
      OrderAgrees(key, ascending, family, c, cs[0]);
      PeersTie(key, ascending, family, c, cs[1..]);
    }
  }

  lemma {:induction false} StableSortIsSorted(key: Field, ascending: bool, family: Family, arrivals: seq<Conn>, listed: seq<Conn>)
    requires OneFamily(key, family, arrivals) && IsStableSort(ListOrder(Some(key), ascending), arrivals, listed)
    ensures SortedBy(key, ascending, family, arrivals, listed)
  {
    var lt := ListOrder(Some(key), ascending);
    forall c | c in listed ensures c in arrivals {
      assert c in multiset(listed);
      assert c in multiset(arrivals);
    }
    forall i, j | 0 <= i < j < |listed| ensures InOrder(key, ascending, family, listed[i], listed[j]) {
      assert !lt(listed[j], listed[i]);
      OrderAgrees(key, ascending, family, listed[i], listed[j]);
    }
    forall c | c in arrivals ensures TiesOf(key, family, c, listed) == TiesOf(key, family, c, arrivals) {
      PeersTie(key, ascending, family, c, listed);
      PeersTie(key, ascending, family, c, arrivals);
    }
  }

  /** Inserting what arrives one after the other sorts it by the values shown. */
  lemma {:induction false} ArrivalsAreSortedBy(key: Field, ascending: bool, family: Family, arrivals: seq<Conn>)
    requires OneFamily(key, family, arrivals)
    ensures SortedBy(key, ascending, family, arrivals, Arrive(ListOrder(Some(key), ascending), arrivals))
  {
    var lt, dom := ListOrder(Some(key), ascending), Sortable(Some(key), family);
    ListOrderIsStrictWeakOrder(Some(key), ascending, family);
    assert Within(arrivals, dom);
    ArriveIsTheStableSort(lt, dom, arrivals, Arrive(lt, arrivals));
    StableSortIsSorted(key, ascending, family, arrivals, Arrive(lt, arrivals));
  }

  /** For instance, 1 comes before 2 when ascending and behind it when descending. */
  lemma {:induction false} OneAndTwo(key: Field, ascending: bool, one: Conn, two: Conn)
    requires key.kind.NumberKind? && key.extRcv in one.ext && key.extRcv in two.ext
    requires key.read(one) == NumberValue(1) && key.read(two) == NumberValue(2)
    ensures Arrive(ListOrder(Some(key), ascending), [one, two]) == if ascending then [one, two] else [two, one]
  {
    var lt := ListOrder(Some(key), ascending);
    assert [one, two][..1] == [one] && [one][..0] == [];
    assert Arrive(lt, [one]) == [one];
    InsertionPointUnique(lt, [one], two, if ascending then 1 else 0);
  }
}
