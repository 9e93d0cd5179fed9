/** The intrusive circular list of connections: linking, unlinking, sorted insertion
    and draining, together with the ownership of its heap entries. */
module ConnRing {
  import opened Types
  import opened StableSort
  import opened Comparators

  /** A connection record seen through its embedded list link. The list head is a
      link without a connection, so it must never be read as one. */
  class Link {
    var next: Link?
    var prev: Link?
    var info: Option<Conn>

    constructor (info: Option<Conn>)
      ensures this.info == info && next == null && prev == null
    {
      this.info := info;
      next, prev := null, null;
    }

    /** Makes an empty ring of this link. */
    method InitListHead()
      modifies this
      ensures next == this && prev == this && info == old(info)
    {
      next := this;
      prev := this;
    }
  }

  /** The connections in the links `ns`. */
  ghost function ConnsOf(ns: seq<Link>): (cs: seq<Conn>)
    requires forall i | 0 <= i < |ns| :: ns[i].info.Some?
    reads ns
    ensures |cs| == |ns|
    ensures forall i | 0 <= i < |ns| :: cs[i] == ns[i].info.value
  {
    seq(|ns|, i requires 0 <= i < |ns| && ns[i].info.Some? reads ns => ns[i].info.value)
  }

  ghost predicate Distinct(ns: seq<Link>)
  {
    forall i, j | 0 <= i < j < |ns| :: ns[i] != ns[j]
  }

  /** Consecutive links point at each other in both directions. */
  ghost predicate Chained(ns: seq<Link>)
    reads ns
  {
    forall i | 0 <= i < |ns| - 1 :: ns[i].next == ns[i + 1] && ns[i + 1].prev == ns[i]
  }

  method ListAdd(ci: Link, prev: Link, next: Link)
    requires ci != prev && ci != next
    modifies ci, prev, next
    ensures prev.next == ci && next.prev == ci && ci.next == next && ci.prev == prev
    ensures prev != next ==> prev.prev == old(prev.prev) && next.next == old(next.next)
    ensures ci.info == old(ci.info) && prev.info == old(prev.info) && next.info == old(next.info)
  {
    next.prev := ci;
    ci.next := next;
    ci.prev := prev;
    prev.next := ci;
  }

  method ListDel(prev: Link, next: Link)
    modifies prev, next
    ensures prev.next == next && next.prev == prev
    ensures prev != next ==> prev.prev == old(prev.prev) && next.next == old(next.next)
    ensures prev.info == old(prev.info) && next.info == old(next.info)
  {
    next.prev := prev;
    prev.next := next;
  }

  /** A turn: a chained walk from the head back to it, passing every link once. */
  ghost predicate IsTurn(turn: seq<Link>)
    reads turn
  {
    |turn| >= 2 && Chained(turn) && Distinct(turn[..|turn| - 1]) && Distinct(turn[1..])
  }

  method LinkBefore(ci: Link, at: Link, ghost turn: seq<Link>, ghost k: nat)
    requires IsTurn(turn) && ci !in turn && k + 1 < |turn| && turn[k + 1] == at
    modifies turn, ci
    ensures Chained(turn[..k + 1] + [ci] + turn[k + 1..])
    ensures forall n | n in turn || n == ci :: n.info == old(n.info)
  {
    assert turn[k].next == turn[k + 1] && turn[k + 1].prev == turn[k];
    ListAdd(ci, at.prev, at);
    ghost var t := turn[..k + 1] + [ci] + turn[k + 1..];
    forall i | 0 <= i < |t| - 1 ensures t[i].next == t[i + 1] && t[i + 1].prev == t[i] {
      if i < k {
        assert t[i] == turn[..|turn| - 1][i] && t[i + 1] == turn[1..][i];
        assert old(turn[i].next) == turn[i + 1] && old(turn[i + 1].prev) == turn[i];
      } else if i > k + 1 {
        assert t[i] == turn[..|turn| - 1][i - 1] && t[i + 1] == turn[1..][i - 1];
        assert old(turn[i - 1].next) == turn[i] && old(turn[i].prev) == turn[i - 1];
      }
    }
  }

  method Unlink(ci: Link, ghost turn: seq<Link>, ghost k: nat)
    requires IsTurn(turn) && k + 2 < |turn| && turn[k + 1] == ci
    modifies turn
    ensures Chained(turn[..k + 1] + turn[k + 2..])
    ensures ci.next == old(ci.next)
    ensures forall n | n in turn :: n.info == old(n.info)
  {
    assert turn[k].next == ci && ci.prev == turn[k] && ci.next == turn[k + 2];
    ListDel(ci.prev, ci.next);
    ghost var t := turn[..k + 1] + turn[k + 2..];
    forall i | 0 <= i < |t| - 1 ensures t[i].next == t[i + 1] && t[i + 1].prev == t[i] {
      if i < k {
        assert t[i] == turn[..|turn| - 1][i] && t[i + 1] == turn[1..][i];
        assert old(turn[i].next) == turn[i + 1] && old(turn[i + 1].prev) == turn[i];
      } else if i > k {
        assert t[i] == turn[..|turn| - 1][i + 1] && t[i + 1] == turn[1..][i + 1];
        assert old(turn[i + 1].next) == turn[i + 2] && old(turn[i + 2].prev) == turn[i + 1];
      }
    }
  }

  lemma {:induction false} SpliceIsDistinct(ns: seq<Link>, ci: Link, k: nat)
    requires Distinct(ns) && ci !in ns && k <= |ns|
    ensures Distinct(ns[..k] + [ci] + ns[k..])
    ensures forall n :: n in ns[..k] + [ci] + ns[k..] <==> n in ns || n == ci
  {
    assert ns == ns[..k] + ns[k..];
  }

  lemma {:induction false} CutIsDistinct(ns: seq<Link>, k: nat)
    requires Distinct(ns) && k < |ns|
    ensures Distinct(ns[..k] + ns[k + 1..])
    ensures forall n :: n in ns[..k] + ns[k + 1..] <==> n in ns && n != ns[k]
  {
    assert ns == ns[..k] + [ns[k]] + ns[k + 1..];
  }

  lemma {:induction false} SplicedIndex<T>(s: seq<T>, x: T, k: nat, i: nat)
    requires k <= |s| && i <= |s|
    ensures (s[..k] + [x] + s[k..])[i] == if i < k then s[i] else if i == k then x else s[i - 1]
  {
  }

  lemma {:induction false} SplicedTurn(head: Link, ns: seq<Link>, ci: Link, k: nat)
    requires k <= |ns|
    ensures var turn := [head] + ns + [head];
            [head] + (ns[..k] + [ci] + ns[k..]) + [head] == turn[..k + 1] + [ci] + turn[k + 1..]
  {
  }

  lemma {:induction false} CutTurn(head: Link, ns: seq<Link>, k: nat)
    requires k < |ns|
    ensures var turn := [head] + ns + [head];
            [head] + (ns[..k] + ns[k + 1..]) + [head] == turn[..k + 1] + turn[k + 2..]
  {
  }

  class ConnList {
    const head: Link
    var nrConns: int
    ghost var nodes: seq<Link>
    // Entries allocated and not yet freed.
    ghost var live: set<Link>

    /** One turn around the ring, from the head back to the head. */
    ghost function Turn(): (t: seq<Link>)
      reads this
      ensures |t| == |nodes| + 2
    {
      [head] + nodes + [head]
    }

    ghost predicate Valid()
      reads this, head, nodes
    {
      && head !in nodes && Distinct(nodes)
      && Chained(Turn())
      && head.info.None?
      && (forall i | 0 <= i < |nodes| :: nodes[i].info.Some?)
      && (forall i | 0 <= i < |nodes| :: nodes[i] in live)
      && head !in live
    }

    ghost function Conns(): (cs: seq<Conn>)
      requires Valid()
      reads this, head, nodes
      ensures |cs| == |nodes|
    {
      ConnsOf(nodes)
    }

    ghost predicate Counted()
      reads this
    {
      nrConns == |nodes|
    }

    /** Nothing allocated except what is linked. */
    ghost predicate NoLeak()
      reads this
    {
      forall n | n in live :: n in nodes
    }

    constructor ()
      ensures Valid() && nodes == [] && live == {} && nrConns == 0 && fresh(head)
    {
      head := new Link(None);
      nodes, live, nrConns := [], {}, 0;
      new;
      head.InitListHead();
    }

    method Alloc() returns (ci: Link)
      requires Valid()
      modifies this`live
      ensures Valid() && fresh(ci) && live == old(live) + {ci} && ci != head && ci !in nodes
      ensures unchanged(this`nodes)
    {
      ci := new Link(None);
      live := live + {ci};
    }

    /** Frees an entry, which must be allocated and no longer linked. */
    method Free(ci: Link)
      requires Valid() && ci in live && ci !in nodes
      modifies this`live
      ensures Valid() && live == old(live) - {ci}
    {
      live := live - {ci};
    }

    lemma {:induction false} TurnIsTurn()
      requires Valid()
      ensures IsTurn(Turn())
      ensures forall n :: n in Turn() <==> n in nodes || n == head
    {
      assert Turn()[..|nodes| + 1] == [head] + nodes;
      assert Turn()[1..] == nodes + [head];
    }

    /** The pointer work of an insertion: the turn with `ci` spliced in is chained. */
    method LinkAt(ci: Link, at: Link, ghost k: nat)
      requires Valid() && ci in live && ci !in nodes
      requires k <= |nodes| && at == Turn()[k + 1]
      modifies this`nodes, head, nodes, ci
      ensures nodes == old(nodes[..k] + [ci] + nodes[k..]) && Chained(Turn())
      ensures head.info == old(head.info) && ci.info == old(ci.info)
      ensures forall n | n in old(nodes) :: n.info == old(n.info)
    {
      TurnIsTurn();
      SplicedTurn(head, nodes, ci, k);
      ghost var turn := Turn();
      nodes := nodes[..k] + [ci] + nodes[k..];
      LinkBefore(ci, at, turn, k);
    }

    /** Links `ci` in front of `at`, the `k`-th entry or the head. */
    method AddTail(ci: Link, at: Link, ghost k: nat)
      requires Valid() && ci in live && ci !in nodes && ci.info.Some?
      requires k <= |nodes| && at == Turn()[k + 1]
      modifies this`nodes, head, nodes, ci
      ensures Valid() && nodes == old(nodes[..k] + [ci] + nodes[k..])
      ensures forall n :: n in nodes <==> n in old(nodes) || n == ci
      ensures forall n | n in nodes :: n.info == old(n.info)
    {
      SpliceIsDistinct(nodes, ci, k);
      LinkAt(ci, at, k);
      assert forall i | 0 <= i < |nodes| :: nodes[i] in nodes;
    }

    /** Unlinks the `k`-th entry; its own pointers stay as they were. */
    method Del(ci: Link, ghost k: nat)
      requires Valid() && k < |nodes| && nodes[k] == ci
      modifies this`nodes, head, nodes
      ensures Valid() && nodes == old(nodes[..k] + nodes[k + 1..])
      ensures ci !in nodes && ci.next == old(ci.next)
      ensures forall n | n in old(nodes) :: n.info == old(n.info)
    {
      TurnIsTurn();
      CutIsDistinct(nodes, k);
      Unlink(ci, Turn(), k);
      CutTurn(head, nodes, k);
      nodes := nodes[..k] + nodes[k + 1..];
    }

    method IsEmpty() returns (empty: bool)
      requires Valid()
      ensures empty <==> nodes == []
    {
      assert Turn()[0].next == Turn()[1];
      empty := head.next == head;
    }

    lemma {:induction false} NodeOfTurn(k: nat)
      requires Valid() && k <= |nodes| && Turn()[k + 1] != head
      ensures k < |nodes| && Turn()[k + 1] == nodes[k] && nodes[k].info == Some(Conns()[k])
      ensures nodes[k].next == Turn()[k + 2]
      ensures Turn()[k + 2] == head ==> k + 1 == |nodes|
    {
      assert Turn()[k + 1].next == Turn()[k + 2];
      if k + 1 < |nodes| {
        assert Turn()[k + 2] == nodes[k + 1];
      }
    }

    /** Walks to the first entry that `ci` must stand in front of. */
    method FindPosition(ci: Link, key: Field, ascending: bool) returns (pos: Link, ghost k: nat)
      requires Valid() && ci.info.Some? && KeyUsable(Some(key), Conns(), ci.info.value)
      requires key.extRcv in ci.info.value.ext
      ensures k == InsertionPoint(ListOrder(Some(key), ascending), Conns(), ci.info.value)
      ensures k <= |nodes| && pos == Turn()[k + 1]
    {
      ghost var cs, c := Conns(), ci.info.value;
      k := 0;
      FrontHasNext();
      pos := head.next;
      while pos != head
        invariant k <= |nodes| && pos == Turn()[k + 1]
        invariant forall j | 0 <= j < k :: !Precedes(Some(key), ascending, c, cs[j])
        invariant pos == head ==> k == |nodes|
        decreases |nodes| - k
      {
        NodeOfTurn(k);
        assert cs[k] in cs;
        var stop := StopsAt(key, ascending, ci.info.value, pos.info.value);
        if stop {
          break;
        }
        pos := pos.next;
        k := k + 1;
      }
      InsertionPointUnique(ListOrder(Some(key), ascending), cs, c, k);
    }

    /** Links `ci` where the sort key wants it, behind the entries it ties with. */
    method AddConnInfo(ci: Link, sortKey: Option<Field>, ascending: bool)
      requires Valid() && ci in live && ci !in nodes && ci.info.Some?
      requires KeyUsable(sortKey, Conns(), ci.info.value)
      modifies this`nodes, head, nodes, ci
      ensures Valid()
      ensures Conns() == Inserted(ListOrder(sortKey, ascending), old(Conns()), old(ci.info.value))
      ensures forall n :: n in nodes <==> n in old(nodes) || n == ci
      ensures |nodes| == |old(nodes)| + 1
    {
      ghost var lt, cs, c := ListOrder(sortKey, ascending), Conns(), ci.info.value;
      var empty := IsEmpty();
      if sortKey.None? || sortKey.value.extRcv !in ci.info.value.ext || empty {
        InsertionPointUnique(lt, cs, c, |nodes|);
        InsertAt(ci, head, |nodes|);
      } else {
        ghost var k;
        var pos;
        pos, k := FindPosition(ci, sortKey.value, ascending);
        InsertAt(ci, pos, k);
      }
    }

    method InsertAt(ci: Link, at: Link, ghost k: nat)
      requires Valid() && ci in live && ci !in nodes && ci.info.Some?
      requires k <= |nodes| && at == Turn()[k + 1]
      modifies this`nodes, head, nodes, ci
      ensures Valid() && |nodes| == |old(nodes)| + 1
      ensures Conns() == old(Conns()[..k] + [ci.info.value] + Conns()[k..])
      ensures forall n :: n in nodes <==> n in old(nodes) || n == ci
    {
      ghost var was, cs, c := nodes, Conns(), ci.info.value;
      AddTail(ci, at, k);
      forall i | 0 <= i < |nodes| ensures Conns()[i] == (cs[..k] + [c] + cs[k..])[i] {
        SplicedIndex(was, ci, k, i);
        SplicedIndex(cs, c, k, i);
        assert nodes[i] in nodes;
      }
    }

    /** The iterator of a draining loop: the first entry and the one behind it. */
    ghost predicate AtFront(ci: Link, p: Link)
      reads this, ci
    {
      ci == Turn()[1] && p == ci.next
    }

    lemma {:induction false} FrontHasNext()
      requires Valid()
      ensures head.next == Turn()[1]
      ensures Turn()[1].next == if nodes == [] then head else Turn()[2]
    {
      assert Turn()[0].next == Turn()[1];
      if nodes != [] {
        assert Turn()[1].next == Turn()[2];
      }
    }

    /** Unlinks, frees and counts off the entry at the front of a draining loop. */
    method DropFront(ci: Link, p: Link) returns (ci': Link, p': Link)
      requires Valid() && nodes != [] && AtFront(ci, p)
      modifies this, head, nodes
      ensures Valid() && nodes == old(nodes)[1..] && live == old(live) - {ci} && nrConns == old(nrConns) - 1
      ensures AtFront(ci', p')
      ensures forall n | n in nodes :: n.info == old(n.info)
    {
      FrontHasNext();
      Del(ci, 0);
      Free(ci);
      nrConns := nrConns - 1;
      FrontHasNext();
      ci', p' := p, p.next;
    }

    /** A draining loop after `i` of the entries `all`, which carried `cs`. */
    ghost predicate Draining(ci: Link, p: Link, all: seq<Link>, cs: seq<Conn>, i: nat)
      reads this, head, nodes, ci
    {
      && Valid() && Counted() && NoLeak() && AtFront(ci, p)
      && |cs| == |all| && i <= |all| && nodes == all[i..] && Conns() == cs[i..]
      && (ci == head <==> i == |all|)
    }

    /** Where a draining loop starts. */
    method StartDraining() returns (ci: Link, p: Link)
      requires Valid() && Counted() && NoLeak()
      ensures Draining(ci, p, nodes, Conns(), 0)
    {
      FrontHasNext();
      ci := head.next;
      p := ci.next;
    }

    lemma {:induction false} DrainingDone(ci: Link, p: Link, all: seq<Link>, cs: seq<Conn>, i: nat)
      requires Draining(ci, p, all, cs, i) && ci == head
      ensures i == |all| && nodes == [] && live == {}
    {
    }

    lemma {:induction false} FrontConn(ci: Link, p: Link, all: seq<Link>, cs: seq<Conn>, i: nat)
      requires Draining(ci, p, all, cs, i) && i < |all|
      ensures ci.info == Some(cs[i])
    {
      assert ci == nodes[0] && Conns()[0] == cs[i];
    }

    /** One round of a draining loop. */
    method DrainNext(ci: Link, p: Link, ghost all: seq<Link>, ghost cs: seq<Conn>, ghost i: nat) returns (ci': Link, p': Link)
      requires Draining(ci, p, all, cs, i) && i < |all|
      modifies this, head, nodes
      ensures Draining(ci', p', all, cs, i + 1)
      ensures ci == all[i] && live == old(live) - {ci} && ci in old(live)
    {
      assert ci == nodes[0];
      ci', p' := DropFront(ci, p);
      forall k | 0 <= k < |nodes| ensures Conns()[k] == cs[i + 1..][k] {
        assert nodes[k] == old(nodes)[k + 1] && old(Conns())[k + 1] == cs[i..][k + 1];
      }
    }

    /** Empties the list at exit. */
    method Drain() returns (ghost freed: seq<Link>)
      requires Valid() && Counted() && NoLeak()
      modifies this, head, nodes
      ensures Valid() && Counted() && nodes == [] && live == {}
      ensures freed == old(nodes)
    {
      freed := [];
      ghost var all, cs, i := nodes, Conns(), 0;
      var ci, p := StartDraining();
      while ci != head
        invariant Draining(ci, p, all, cs, i)
        invariant |freed| == i && forall k | 0 <= k < i :: freed[k] == all[k]
        decreases |all| - i
      {
        ghost var was := ci;
        ci, p := DrainNext(ci, p, all, cs, i);
        freed := freed + [was];
        i := i + 1;
      }
      DrainingDone(ci, p, all, cs, i);
    }
  }
}
