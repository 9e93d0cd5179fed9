/** Online insertion into a list, and why it is a stable sort: the insertion
    point used by the connection list is characterised here, away from the heap. */
module StableSort {

  ghost predicate StrictWeakOrder<T(!new)>(lt: (T, T) -> bool, dom: iset<T>)
  {
    && (forall x | x in dom :: !lt(x, x))
    && (forall x, y, z {:trigger lt(x, y), lt(y, z)} | x in dom && y in dom && z in dom ::
          lt(x, y) && lt(y, z) ==> lt(x, z))
    && (forall x, y, z {:trigger lt(x, z), lt(x, y)} {:trigger lt(x, z), lt(y, z)} | x in dom && y in dom && z in dom ::
          lt(x, z) ==> lt(x, y) || lt(y, z))
  }

  ghost predicate Within<T(!new)>(s: seq<T>, dom: iset<T>)
  {
    forall i | 0 <= i < |s| :: s[i] in dom
  }

  /** The insertion point: everything before it may stay before `c`. */
  predicate IsInsertionPoint<T>(lt: (T, T) -> bool, s: seq<T>, c: T, i: nat)
  {
    && i <= |s|
    && (forall j | 0 <= j < i :: !lt(c, s[j]))
    && (i < |s| ==> lt(c, s[i]))
  }

  function InsertionPoint<T>(lt: (T, T) -> bool, s: seq<T>, c: T): (i: nat)
    ensures IsInsertionPoint(lt, s, c, i)
  {
    if s == [] || lt(c, s[0]) then 0 else 1 + InsertionPoint(lt, s[1..], c)
  }

  lemma {:induction false} InsertionPointUnique<T>(lt: (T, T) -> bool, s: seq<T>, c: T, i: nat)
    requires IsInsertionPoint(lt, s, c, i)
    ensures i == InsertionPoint(lt, s, c)
  {
    var j := InsertionPoint(lt, s, c);
    assert j < |s| ==> lt(c, s[j]);
  }

  function Inserted<T>(lt: (T, T) -> bool, s: seq<T>, c: T): (r: seq<T>)
  {
    var i := InsertionPoint(lt, s, c);
    s[..i] + [c] + s[i..]
  }

  /** The list after the arrivals `cs`, one insertion at a time. */
  function Arrive<T>(lt: (T, T) -> bool, cs: seq<T>): (r: seq<T>)
  {
    if cs == [] then [] else Inserted(lt, Arrive(lt, cs[..|cs| - 1]), cs[|cs| - 1])
  }

  // ----- what a stable sort is, without mentioning insertion

  predicate SameRank<T>(lt: (T, T) -> bool, x: T, y: T)
  {
    !lt(x, y) && !lt(y, x)
  }

  /** The elements of `s` that tie with `c`, in the order of `s`. */
  function Peers<T>(lt: (T, T) -> bool, s: seq<T>, c: T): (r: seq<T>)
  {
    if s == [] then []
    else (if SameRank(lt, c, s[0]) then [s[0]] else []) + Peers(lt, s[1..], c)
  }

  ghost predicate Ordered<T>(lt: (T, T) -> bool, s: seq<T>)
  {
    forall i, j | 0 <= i < j < |s| :: !lt(s[j], s[i])
  }

  ghost predicate IsStableSort<T(!new)>(lt: (T, T) -> bool, input: seq<T>, output: seq<T>)
  {
    && multiset(output) == multiset(input)
    && Ordered(lt, output)
    && forall c | c in input :: Peers(lt, output, c) == Peers(lt, input, c)
  }

  // ----- insertion keeps it

  lemma {:induction false} PeersConcat<T>(lt: (T, T) -> bool, a: seq<T>, b: seq<T>, c: T)
    ensures Peers(lt, a + b, c) == Peers(lt, a, c) + Peers(lt, b, c)
  {
    if a == [] {
      assert a + b == b;
    } else {
      PeersConcat(lt, a[1..], b, c);
      assert (a + b)[1..] == a[1..] + b;
      var x := if SameRank(lt, c, a[0]) then [a[0]] else [];
      assert Peers(lt, a + b, c) == x + Peers(lt, a[1..] + b, c);
      assert Peers(lt, a, c) == x + Peers(lt, a[1..], c);
    }
  }

  lemma {:induction false} NoPeers<T>(lt: (T, T) -> bool, s: seq<T>, c: T)
    requires forall i | 0 <= i < |s| :: !SameRank(lt, c, s[i])
    ensures Peers(lt, s, c) == []
  {
    if s != [] {
      NoPeers(lt, s[1..], c);
    }
  }

  lemma {:induction false} InsertKeepsMembers<T>(lt: (T, T) -> bool, s: seq<T>, c: T)
    ensures multiset(Inserted(lt, s, c)) == multiset(s) + multiset{c}
  {
    var i := InsertionPoint(lt, s, c);
    assert s == s[..i] + s[i..];
  }

  lemma {:induction false} InsertedPairOrdered<T(!new)>(lt: (T, T) -> bool, dom: iset<T>, s: seq<T>, c: T, p: nat, q: nat)
    requires StrictWeakOrder(lt, dom) && Within(s, dom) && c in dom
    requires Ordered(lt, s) && p < q <= |s|
    ensures !lt(Inserted(lt, s, c)[q], Inserted(lt, s, c)[p])
  {
    var i := InsertionPoint(lt, s, c);
    if p == i {
      assert s[i] in dom && s[q - 1] in dom && lt(c, s[i]);
      assert !lt(s[q - 1], s[i]);
      assert !lt(s[q - 1], c);
    }
  }

  lemma {:induction false} InsertKeepsOrder<T(!new)>(lt: (T, T) -> bool, dom: iset<T>, s: seq<T>, c: T)
    requires StrictWeakOrder(lt, dom) && Within(s, dom) && c in dom
    requires Ordered(lt, s)
    ensures Ordered(lt, Inserted(lt, s, c))
  {
    forall p, q | 0 <= p < q < |Inserted(lt, s, c)| ensures !lt(Inserted(lt, s, c)[q], Inserted(lt, s, c)[p]) {
      InsertedPairOrdered(lt, dom, s, c, p, q);
    }
  }

  /** Everything from the insertion point on ranks strictly after `c`. */
  lemma {:induction false} TailRanksAfter<T(!new)>(lt: (T, T) -> bool, dom: iset<T>, s: seq<T>, c: T, d: T, k: nat)
    requires StrictWeakOrder(lt, dom) && Within(s, dom) && c in dom && d in dom
    requires Ordered(lt, s) && InsertionPoint(lt, s, c) <= k < |s| && SameRank(lt, d, c)
    ensures !SameRank(lt, d, s[k])
  {
    var i := InsertionPoint(lt, s, c);
    assert s[i] in dom && s[k] in dom;
    assert lt(c, s[i]);
    assert k == i || !lt(s[k], s[i]);
    assert lt(c, s[k]);
  }

  lemma {:induction false} TailHasNoPeers<T(!new)>(lt: (T, T) -> bool, dom: iset<T>, s: seq<T>, c: T, d: T)
    requires StrictWeakOrder(lt, dom) && Within(s, dom) && c in dom && d in dom
    requires Ordered(lt, s) && SameRank(lt, d, c)
    ensures Peers(lt, s[InsertionPoint(lt, s, c)..], d) == []
  {
    var back := s[InsertionPoint(lt, s, c)..];
    forall k | 0 <= k < |back| ensures !SameRank(lt, d, back[k]) {
      TailRanksAfter(lt, dom, s, c, d, InsertionPoint(lt, s, c) + k);
    }
    NoPeers(lt, back, d);
  }

  /** When one of `c` and `back` holds no peer of `d`, their order does not matter. */
  lemma {:induction false} PeersCommute<T>(lt: (T, T) -> bool, front: seq<T>, back: seq<T>, c: T, d: T)
    requires Peers(lt, [c], d) == [] || Peers(lt, back, d) == []
    ensures Peers(lt, front + [c] + back, d) == Peers(lt, front + back, d) + Peers(lt, [c], d)
  {
    PeersConcat(lt, front, back, d);
    PeersConcat(lt, front + [c], back, d);
    PeersConcat(lt, front, [c], d);
  }

  lemma {:induction false} InsertAppendsToPeers<T(!new)>(lt: (T, T) -> bool, dom: iset<T>, s: seq<T>, c: T, d: T)
    requires StrictWeakOrder(lt, dom) && Within(s, dom) && c in dom && d in dom
    requires Ordered(lt, s)
    ensures Peers(lt, Inserted(lt, s, c), d) == Peers(lt, s, d) + Peers(lt, [c], d)
  {
    var i := InsertionPoint(lt, s, c);
    if SameRank(lt, d, c) {
      TailHasNoPeers(lt, dom, s, c, d);
    } else {
      NoPeers(lt, [c], d);
    }
    PeersCommute(lt, s[..i], s[i..], c, d);
    assert s == s[..i] + s[i..];
  }

  lemma {:induction false} ArriveWithin<T(!new)>(lt: (T, T) -> bool, dom: iset<T>, cs: seq<T>)
    requires StrictWeakOrder(lt, dom) && Within(cs, dom)
    ensures Within(Arrive(lt, cs), dom) && Ordered(lt, Arrive(lt, cs))
    ensures multiset(Arrive(lt, cs)) == multiset(cs)
  {
    if cs != [] {
      var rest, c := cs[..|cs| - 1], cs[|cs| - 1];
      ArriveWithin(lt, dom, rest);
      InsertKeepsOrder(lt, dom, Arrive(lt, rest), c);
      InsertKeepsMembers(lt, Arrive(lt, rest), c);
      assert cs == rest + [c];
    }
  }

  lemma {:induction false} ArrivePeers<T(!new)>(lt: (T, T) -> bool, dom: iset<T>, cs: seq<T>, d: T)
    requires StrictWeakOrder(lt, dom) && Within(cs, dom) && d in dom
    ensures Peers(lt, Arrive(lt, cs), d) == Peers(lt, cs, d)
  {
    if cs != [] {
      var rest, c := cs[..|cs| - 1], cs[|cs| - 1];
      ArriveWithin(lt, dom, rest);
      ArrivePeers(lt, dom, rest, d);
      InsertAppendsToPeers(lt, dom, Arrive(lt, rest), c, d);
      PeersConcat(lt, rest, [c], d);
      assert cs == rest + [c];
    }
  }

  // ----- a stable sort is unique

  /** Of two ordered lists with the same members, the heads tie. */
  lemma {:induction false} HeadsTie<T(!new)>(lt: (T, T) -> bool, dom: iset<T>, a: seq<T>, b: seq<T>)
    requires StrictWeakOrder(lt, dom) && Within(a, dom) && Within(b, dom)
    requires Ordered(lt, a) && Ordered(lt, b) && multiset(a) == multiset(b) && a != []
    ensures b != [] && SameRank(lt, a[0], b[0])
  {
    assert a[0] in multiset(b);
    var j :| 0 <= j < |b| && b[j] == a[0];
    assert b[0] in multiset(a);
    var i :| 0 <= i < |a| && a[i] == b[0];
    assert j == 0 || !lt(b[j], b[0]);
    assert i == 0 || !lt(a[i], a[0]);
  }

  lemma {:induction false} TailPeers<T>(lt: (T, T) -> bool, a: seq<T>, b: seq<T>, c: T)
    requires a != [] && b != [] && a[0] == b[0] && Peers(lt, a, c) == Peers(lt, b, c)
    ensures Peers(lt, a[1..], c) == Peers(lt, b[1..], c)
  {
    var n := if SameRank(lt, c, a[0]) then 1 else 0;
    assert Peers(lt, a[1..], c) == Peers(lt, a, c)[n..];
    assert Peers(lt, b[1..], c) == Peers(lt, b, c)[n..];
  }

  lemma {:induction false} TailMembers<T>(a: seq<T>)
    requires a != []
    ensures multiset(a[1..]) == multiset(a) - multiset{a[0]}
  {
    assert a == [a[0]] + a[1..];
  }

  lemma {:induction false} SameStableSort<T(!new)>(lt: (T, T) -> bool, dom: iset<T>, a: seq<T>, b: seq<T>)
    requires StrictWeakOrder(lt, dom) && Within(a, dom) && Within(b, dom)
    requires Ordered(lt, a) && Ordered(lt, b) && multiset(a) == multiset(b)
    requires forall c | c in a :: Peers(lt, a, c) == Peers(lt, b, c)
    ensures a == b
  {
    if a == [] {
      assert |multiset(b)| == 0;
    } else {
      HeadsTie(lt, dom, a, b);
      assert a[0] in a;
      assert Peers(lt, a, a[0])[0] == a[0] && Peers(lt, b, a[0])[0] == b[0];
      TailMembers(a);
      TailMembers(b);
      forall c | c in a[1..] ensures Peers(lt, a[1..], c) == Peers(lt, b[1..], c) {
        assert c in a;
        TailPeers(lt, a, b, c);
      }
      SameStableSort(lt, dom, a[1..], b[1..]);
    }
  }

  /** Inserting arrivals one by one gives the stable sort, and nothing else is one. */
  lemma {:induction false} ArriveIsTheStableSort<T(!new)>(lt: (T, T) -> bool, dom: iset<T>, cs: seq<T>, r: seq<T>)
    requires StrictWeakOrder(lt, dom) && Within(cs, dom)
    ensures r == Arrive(lt, cs) <==> IsStableSort(lt, cs, r)
  {
    var a := Arrive(lt, cs);
    ArriveWithin(lt, dom, cs);
    forall c | c in cs ensures Peers(lt, a, c) == Peers(lt, cs, c) {
      ArrivePeers(lt, dom, cs, c);
    }
    if IsStableSort(lt, cs, r) {
      forall i | 0 <= i < |r| ensures r[i] in dom {
        assert r[i] in multiset(r);
        assert r[i] in multiset(cs);
      }
      forall c | c in r ensures Peers(lt, r, c) == Peers(lt, a, c) {
        assert c in multiset(r);
        assert c in multiset(cs);
      }
      SameStableSort(lt, dom, r, a);
    }
  }
}
