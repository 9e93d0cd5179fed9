/** The table from socket inodes to the process that owns the socket: chained
    buckets, a multiplicative hash and a power-of-two size. */
module Owners {
  import opened Types
  import opened BigEndian

  const U32 := 0x1_0000_0000
  const INT_MAX := 0x7fff_ffff
  const HASH_MULTIPLIER := 2654435761

  /** Knuth's multiplicative hash: the top `shift` bits of the 32-bit product. At
      shift 0 the source shifts a 32-bit word by 32, which C leaves undefined; it
      stands here for the one bucket that is meant. */
  function Hash(inode: nat, shift: nat): (h: nat)
    requires shift <= 32
  {
    ShiftRight(Product32(inode), 32 - shift)
  }

  /** The hash of a table as a function, so that the chains can be reasoned about
      for any hash. */
  function HashFor(shift: nat): (hash: nat -> nat)
    requires shift <= 32
  {
    (inode: nat) => Hash(inode, shift)
  }

  function ShiftRight(x: nat, k: nat): (y: nat)
  {
    if k == 0 then x else ShiftRight(x, k - 1) / 2
  }

  function Product32(inode: nat): (p: nat)
    ensures p < U32
  {
    (inode * HASH_MULTIPLIER) % U32
  }

  lemma {:induction false} ShiftBelow(x: nat, s: nat, k: nat)
    requires x < Pow2(s + k)
    ensures ShiftRight(x, k) < Pow2(s)
    decreases k
  {
    if k != 0 {
      ShiftBelow(x, s + 1, k - 1);
    }
  }

  lemma {:induction false} Pow2Is32()
    ensures Pow2(32) == U32
  {
    Pow2Add(16, 16);
    Pow2Add(8, 8);
    Pow2Add(4, 4);
  }

  /** Every inode hashes inside a table of `1 << shift` buckets. */
  lemma {:induction false} HashInTable(inode: nat, shift: nat)
    requires shift <= 32
    ensures Hash(inode, shift) < Pow2(shift)
  {
    Pow2Is32();
    ShiftBelow(Product32(inode), shift, 32 - shift);
  }

  datatype Owner = Owner(pid: int, comm: CString)

  /** One hash node. */
  lemma {:induction false} HalvedQuotient(x: nat, d: nat)
    requires d > 0
    ensures x / d / 2 == x / (2 * d)
  {
    var q, r := x / d, x % d;
    var h, s := q / 2, q % 2;
    assert x == h * (2 * d) + (s * d + r) by {
      assert q * d == (2 * h + s) * d;
    }
    assert s * d + r < 2 * d;
    QuotientUnique(h, 2 * d, s * d + r);
  }

  lemma {:induction false} ShiftDivides(x: nat, k: nat)
    ensures ShiftRight(x, k) == x / Pow2(k)
  {
    if k > 0 {
      ShiftDivides(x, k - 1);
      HalvedQuotient(x, Pow2(k - 1));
    }
  }

  /** The hash is what the product's first 32 bits have in their upper `shift` bits. */
  lemma {:induction false} HashIs(inode: nat, shift: nat)
    requires shift <= 32
    ensures Hash(inode, shift) == (inode * 2654435761) % 0x1_0000_0000 / Pow2(32 - shift)
  {
    ShiftDivides(Product32(inode), 32 - shift);
  }

  class SkOwner {
    var next: SkOwner?
    const inode: nat
    const owner: Owner

    constructor (inode: nat, owner: Owner)
      ensures this.inode == inode && this.owner == owner && next == null
    {
      this.inode, this.owner := inode, owner;
      next := null;
    }
  }

  // ----- what the table means: a map kept by its insertion log

  /** The map a log of nodes stands for: the first node of an inode wins, and
      inode 0 is never found. */
  ghost function OwnersOf(log: seq<SkOwner>): (m: map<nat, Owner>)
  {
    if log == [] then map[]
    else
      var m, o := OwnersOf(log[..|log| - 1]), log[|log| - 1];
      if o.inode == 0 || o.inode in m then m else m[o.inode := o.owner]
  }

  /** The part of the log that lives in bucket `b`, in insertion order. */
  ghost function Bucket(log: seq<SkOwner>, hash: nat -> nat, b: nat): (chain: seq<SkOwner>)
    ensures forall i | 0 <= i < |chain| :: chain[i] in log && hash(chain[i].inode) == b
  {
    if log == [] then []
    else
      var o := log[|log| - 1];
      Bucket(log[..|log| - 1], hash, b) + (if hash(o.inode) == b then [o] else [])
  }

  ghost function NodesOf(log: seq<SkOwner>): (nodes: set<SkOwner>)
  {
    set o | o in log
  }

  ghost predicate DistinctNodes(log: seq<SkOwner>)
  {
    forall i, j | 0 <= i < j < |log| :: log[i] != log[j]
  }

  /** No inode is stored twice, except 0. */
  ghost predicate DistinctInodes(log: seq<SkOwner>)
  {
    forall i, j | 0 <= i < j < |log| && log[i].inode == log[j].inode :: log[i].inode == 0
  }

  lemma {:induction false} BucketHolds(log: seq<SkOwner>, hash: nat -> nat, o: SkOwner)
    requires o in log
    ensures o in Bucket(log, hash, hash(o.inode))
  {
    if o != log[|log| - 1] {
      assert log == log[..|log| - 1] + [log[|log| - 1]];
      BucketHolds(log[..|log| - 1], hash, o);
    }
  }

  lemma {:induction false} BucketIsDistinct(log: seq<SkOwner>, hash: nat -> nat, b: nat)
    requires DistinctNodes(log)
    ensures DistinctNodes(Bucket(log, hash, b))
  {
    if log != [] {
      BucketIsDistinct(log[..|log| - 1], hash, b);
    }
  }

  /** The map's domain and values, read off the log. */
  lemma {:induction false} OwnersOfLog(log: seq<SkOwner>, inode: nat)
    requires DistinctInodes(log)
    ensures inode in OwnersOf(log) <==> inode != 0 && exists i :: 0 <= i < |log| && log[i].inode == inode
    ensures forall i | 0 <= i < |log| && log[i].inode == inode && inode != 0 ::
              inode in OwnersOf(log) && OwnersOf(log)[inode] == log[i].owner
  {
    if log != [] {
      OwnersOfLog(log[..|log| - 1], inode);
    }
  }

  /** The number of nodes is the size of the map, not counting nodes for inode 0. */
  lemma {:induction false} OwnersCount(log: seq<SkOwner>)
    requires DistinctInodes(log)
    ensures |OwnersOf(log)| <= |log|
    ensures (forall i | 0 <= i < |log| :: log[i].inode != 0) <==> |OwnersOf(log)| == |log|
  {
    if log != [] {
      var rest, o := log[..|log| - 1], log[|log| - 1];
      OwnersCount(rest);
      OwnersOfLog(rest, o.inode);
      assert log == rest + [o];
    }
  }

  /** A chain threaded through `next` and ending in null. */
  ghost predicate ChainFrom(first: SkOwner?, chain: seq<SkOwner>)
    reads chain
  {
    && first == NodeAt(chain, 0)
    && forall i | 0 <= i < |chain| :: chain[i].next == NodeAt(chain, i + 1)
  }

  ghost function NodeAt(chain: seq<SkOwner>, i: nat): (o: SkOwner?)
  {
    if i < |chain| then chain[i] else null
  }

  ghost predicate IsSearchResult(chain: seq<SkOwner>, inode: nat, o: SkOwner?)
  {
    if o == null then
      forall i | 0 <= i < |chain| :: chain[i].inode != inode
    else
      o in chain && o.inode == inode
  }

  /** Searching only an inode's own bucket finds what the whole log holds. */
  lemma {:induction false} BucketDecides(log: seq<SkOwner>, hash: nat -> nat, inode: nat, o: SkOwner?)
    requires inode != 0 && DistinctInodes(log)
    requires IsSearchResult(Bucket(log, hash, hash(inode)), inode, o)
    ensures inode in OwnersOf(log) <==> o != null
    ensures o != null ==> OwnersOf(log)[inode] == o.owner
  {
    OwnersOfLog(log, inode);
    if o != null {
      assert o in log;
    } else if inode in OwnersOf(log) {
      var k :| 0 <= k < |log| && log[k].inode == inode;
      BucketHolds(log, hash, log[k]);
    }
  }

  /** Walks a chain to the first node that stores `inode`. */
  method SearchChain(first: SkOwner?, ghost chain: seq<SkOwner>, inode: nat) returns (o: SkOwner?)
    requires ChainFrom(first, chain)
    ensures IsSearchResult(chain, inode, o)
  {
    o := first;
    ghost var i := 0;
    while o != null
      invariant i <= |chain|
      invariant o == NodeAt(chain, i)
      invariant forall j | 0 <= j < i :: chain[j].inode != inode
      decreases |chain| - i
    {
      if o.inode == inode {
        return;
      }
      o := o.next;
      i := i + 1;
    }
  }

  /** The smallest shift whose table has a bucket for each socket. */
  ghost predicate IsBestShift(shift: nat, sockets: nat)
  {
    Pow2(shift) >= sockets && forall k: nat | k < shift :: Pow2(k) < sockets
  }

  lemma {:induction false} SamePow2(m: nat, n: nat)
    ensures Pow2(m) == Pow2(n) <==> m == n
  {
    if m < n {
      Pow2Monotone(m, n);
    } else if n < m {
      Pow2Monotone(n, m);
    }
  }

  /** A resize asks for the shift that C cannot apply exactly when it saw at most one socket. */
  lemma {:induction false} ShiftZeroExactly(shift: nat, sockets: nat)
    requires IsBestShift(shift, sockets)
    ensures shift == 0 <==> sockets <= 1
  {
    assert Pow2(0) == 1;
  }

  /** For instance, after a table of one socket is emptied. */
  lemma {:induction false} ShiftZeroExample()
    ensures IsBestShift(0, 1) && !IsBestShift(0, 2)
  {
    assert Pow2(0) == 1;
  }

  /** Adding to the reference map: an owner that is known stays. */
  function FirstWins(m: map<nat, Owner>, inode: nat, owner: Owner): (r: map<nat, Owner>)
  {
    if inode == 0 || inode in m then m else m[inode := owner]
  }

  lemma {:induction false} NewInode(log: seq<SkOwner>, o: SkOwner)
    requires DistinctNodes(log) && DistinctInodes(log) && o !in log && o.inode !in OwnersOf(log)
    ensures DistinctNodes(log + [o]) && DistinctInodes(log + [o])
    ensures OwnersOf(log + [o]) == FirstWins(OwnersOf(log), o.inode, o.owner)
    ensures NodesOf(log + [o]) == NodesOf(log) + {o}
  {
    OwnersOfLog(log, o.inode);
    assert (log + [o])[..|log|] == log;
  }

  lemma {:induction false} BucketAppend(log: seq<SkOwner>, hash: nat -> nat, b: nat, o: SkOwner)
    ensures Bucket(log + [o], hash, b)
         == Bucket(log, hash, b) + if hash(o.inode) == b then [o] else []
  {
    assert (log + [o])[..|log|] == log;
  }

  lemma {:induction false} LogSize(log: seq<SkOwner>)
    requires DistinctNodes(log)
    ensures |NodesOf(log)| == |log|
  {
    if log != [] {
      var rest, o := log[..|log| - 1], log[|log| - 1];
      LogSize(rest);
      assert log == rest + [o];
      assert (set n | n in log) == (set n | n in rest) + {o};
    }
  }

  /** Walks to the end of a non-empty chain and links `o` there. */
  method AppendToChain(first: SkOwner, ghost chain: seq<SkOwner>, o: SkOwner)
    requires ChainFrom(first, chain) && DistinctNodes(chain) && o !in chain && o.next == null
    modifies chain
    ensures ChainFrom(first, chain + [o])
  {
    var pos := first;
    ghost var i := 0;
    while pos.next != null
      invariant i < |chain| && pos == chain[i]
      decreases |chain| - i
    {
      pos := pos.next;
      i := i + 1;
    }
    pos.next := o;
  }

  // ----- all chains of a table at once

  ghost function Chains(log: seq<SkOwner>, hash: nat -> nat, sz: nat): (chains: seq<seq<SkOwner>>)
    ensures |chains| == sz
    ensures forall b | 0 <= b < sz :: chains[b] == Bucket(log, hash, b)
  {
    seq(sz, b requires b >= 0 => Bucket(log, hash, b))
  }

  ghost predicate Threaded(hb: array<SkOwner?>, chains: seq<seq<SkOwner>>)
    reads hb, InChains(chains)
  {
    |chains| == hb.Length && forall b | 0 <= b < |chains| :: ChainFrom(hb[b], chains[b])
  }

  /** Chains are acyclic and share no node. */
  ghost predicate Separate(chains: seq<seq<SkOwner>>)
  {
    && (forall b | 0 <= b < |chains| :: DistinctNodes(chains[b]))
    && (forall b, h, o | 0 <= b < |chains| && 0 <= h < |chains| && b != h && o in chains[b] :: o !in chains[h])
  }

  ghost function InChains(chains: seq<seq<SkOwner>>): (nodes: set<SkOwner>)
    ensures forall b, o | 0 <= b < |chains| && o in chains[b] :: o in nodes
  {
    set b, o | 0 <= b < |chains| && o in chains[b] :: o
  }

  lemma {:induction false} FirstChain(chains: seq<seq<SkOwner>>)
    requires chains != [] && Separate(chains)
    ensures InChains(chains) - NodesOf(chains[0]) == InChains(chains[1..])
    ensures Separate(chains[1..])
  {
  }

  lemma {:induction false} ChainsAreSeparate(log: seq<SkOwner>, hash: nat -> nat, sz: nat)
    requires DistinctNodes(log)
    ensures Separate(Chains(log, hash, sz))
  {
    forall b | 0 <= b < sz ensures DistinctNodes(Bucket(log, hash, b)) {
      BucketIsDistinct(log, hash, b);
    }
  }

  lemma {:induction false} ChainsCover(log: seq<SkOwner>, hash: nat -> nat, sz: nat)
    requires forall o | o in log :: hash(o.inode) < sz
    ensures InChains(Chains(log, hash, sz)) == NodesOf(log)
  {
    forall o | o in log ensures o in InChains(Chains(log, hash, sz)) {
      BucketHolds(log, hash, o);
      assert o in Chains(log, hash, sz)[hash(o.inode)];
    }
  }

  lemma {:induction false} ChainsAppend(log: seq<SkOwner>, hash: nat -> nat, sz: nat, o: SkOwner)
    requires hash(o.inode) < sz
    ensures var h, chains := hash(o.inode), Chains(log, hash, sz);
            Chains(log + [o], hash, sz) == chains[h := chains[h] + [o]]
  {
    forall b | 0 <= b < sz
      ensures Bucket(log + [o], hash, b) == Bucket(log, hash, b) + if hash(o.inode) == b then [o] else []
    {
      BucketAppend(log, hash, b, o);
    }
    var h, chains := hash(o.inode), Chains(log, hash, sz);
    forall b | 0 <= b < sz ensures Chains(log + [o], hash, sz)[b] == chains[h := chains[h] + [o]][b] {
      assert chains[b] == Bucket(log, hash, b);
    }
  }

  /** Hooks a new node into bucket `h`. */
  method LinkInto(hb: array<SkOwner?>, ghost chains: seq<seq<SkOwner>>, h: nat, o: SkOwner)
    requires Threaded(hb, chains) && Separate(chains) && h < |chains|
    requires o.next == null && o !in InChains(chains)
    modifies hb, chains[h]
    ensures Threaded(hb, chains[h := chains[h] + [o]])
  {
    assert ChainFrom(hb[h], chains[h]);
    if hb[h] == null {
      hb[h] := o;
    } else {
      AppendToChain(hb[h], chains[h], o);
    }
    ghost var after := chains[h := chains[h] + [o]];
    forall b | 0 <= b < |chains| ensures ChainFrom(hb[b], after[b]) {
      if b != h {
        assert old(ChainFrom(hb[b], chains[b]));
        assert forall i | 0 <= i < |chains[b]| :: chains[b][i] in chains[b] && chains[b][i] !in chains[h];
        assert forall i | 0 <= i < |chains[b]| :: chains[b][i].next == old(chains[b][i].next);
      }
    }
  }

  class OwnerTable {
    var hb: array<SkOwner?>
    var sz: nat
    var shift: nat
    var nrSockets: int
    // All nodes in the order they were added, and those allocated and not yet freed.
    ghost var log: seq<SkOwner>
    ghost var live: set<SkOwner>
    // Bucket arrays allocated and not yet freed.
    ghost var arrays: set<array<SkOwner?>>

    ghost predicate Shaped()
      reads this
    {
      shift <= 31 && sz == Pow2(shift) && hb.Length == sz
    }

    ghost predicate Valid()
      reads this, hb, log
    {
      && Shaped()
      && Threaded(hb, Chains(log, HashFor(shift), sz))
      && DistinctNodes(log) && DistinctInodes(log)
      && live == NodesOf(log)
      && nrSockets == |log| && nrSockets <= INT_MAX
      && arrays == {hb}
    }

    ghost function Map(): (m: map<nat, Owner>)
      reads this
    {
      OwnersOf(log)
    }

    constructor ()
      ensures Valid() && log == [] && live == {} && shift == 10 && fresh(hb)
    {
      hb := new SkOwner?[1024](_ => null);
      sz, shift, nrSockets := 1024, 10, 0;
      log, live, arrays := [], {}, {hb};
      Pow2Add(5, 5);
    }

    method Lookup(inode: nat) returns (found: bool, owner: Owner)
      requires Valid()
      ensures found <==> inode in Map()
      ensures found ==> owner == Map()[inode]
    {
      found, owner := false, Owner(0, "");
      if inode == 0 {
        OwnersOfLog(log, inode);
        return;
      }
      HashInTable(inode, shift);
      var h := Hash(inode, shift);
      ghost var chain := Bucket(log, HashFor(shift), h);
      assert chain == Chains(log, HashFor(shift), sz)[h];
      var o := SearchChain(hb[h], chain, inode);
      BucketDecides(log, HashFor(shift), inode, o);
      if o != null {
        owner, found := o.owner, true;
      }
    }

    /** Appends a new node to the chain of its bucket. */
    method LinkNode(o: SkOwner)
      requires Shaped() && Threaded(hb, Chains(log, HashFor(shift), sz)) && DistinctNodes(log)
      requires o !in log && o.next == null
      modifies hb, log
      ensures Threaded(hb, Chains(log + [o], HashFor(shift), sz))
    {
      HashInTable(o.inode, shift);
      var h := Hash(o.inode, shift);
      ghost var hash := HashFor(shift);
      ChainsAreSeparate(log, hash, sz);
      ChainsAppend(log, hash, sz, o);
      LinkInto(hb, Chains(log, hash, sz), h, o);
    }

    /** Links and counts a node whose inode is not found yet. */
    method Append(o: SkOwner)
      requires Valid() && nrSockets < INT_MAX
      requires o !in log && o.next == null && o.inode !in Map()
      modifies this`log, this`live, this`nrSockets, hb, log
      ensures Valid() && log == old(log) + [o] && nrSockets == old(nrSockets) + 1
      ensures Map() == FirstWins(old(Map()), o.inode, o.owner)
    {
      LinkNode(o);
      NewInode(log, o);
      nrSockets := nrSockets + 1;
      live := live + {o};
      log := log + [o];
    }

    /** Records the owner of a socket unless one is known already. */
    method Add(inode: nat, owner: Owner)
      requires Valid() && nrSockets < INT_MAX
      modifies this, hb, log
      ensures Valid() && Map() == FirstWins(old(Map()), inode, owner)
      ensures hb == old(hb) && shift == old(shift)
      ensures nrSockets == old(nrSockets) + if inode in old(Map()) then 0 else 1
      ensures forall k | 0 <= k < |log| :: log[k] in old(log) || fresh(log[k])
    {
      var found, _ := Lookup(inode);
      if found {
        return;
      }
      var o := new SkOwner(inode, owner);
      Append(o);
    }

    /** Frees one bucket's chain, node by node. */
    method FreeChain(first: SkOwner?, ghost chain: seq<SkOwner>)
      requires ChainFrom(first, chain) && DistinctNodes(chain)
      requires (forall i | 0 <= i < |chain| :: chain[i] in live) && nrSockets == |live|
      modifies this`live, this`nrSockets
      ensures live == old(live) - NodesOf(chain) && nrSockets == |live|
    {
      var o := first;
      ghost var i, done := 0, {};
      while o != null
        invariant i <= |chain| && o == NodeAt(chain, i)
        invariant forall j | 0 <= j < |chain| :: chain[j] in done <==> j < i
        invariant forall n | n in done :: n in chain
        invariant live == old(live) - done && nrSockets == |live|
        decreases |chain| - i
      {
        var n := o.next;
        live := live - {o};
        nrSockets := nrSockets - 1;
        done := done + {o};
        o := n;
        i := i + 1;
      }
      assert done == NodesOf(chain);
    }

    /** Frees every node and, on request, fits the table to the number of sockets seen. */
    method Free(extReq: set<nat>, resize: bool)
      requires Valid()
      modifies this, hb
      ensures Valid()
      ensures INET_DIAG_PROC !in extReq ==> log == old(log) && live == old(live) && shift == old(shift) && hb == old(hb)
      ensures INET_DIAG_PROC in extReq ==> log == [] && live == {}
      ensures INET_DIAG_PROC in extReq && resize ==> IsBestShift(shift, old(|log|))
      ensures !resize ==> shift == old(shift)
      ensures hb == old(hb) || fresh(hb)
    {
      if INET_DIAG_PROC !in extReq {
        return;
      }
      var newShift := BestShift(nrSockets);
      FreeNodes();
      if resize && sz != Pow2(newShift) {
        ReleaseArray();
        hb := new SkOwner?[Pow2(newShift)](_ => null);
        arrays := arrays + {hb};
        sz := Pow2(newShift);
        shift := newShift;
      }
      SamePow2(shift, newShift);
    }

    /** Frees the bucket array, which must not have been freed before. */
    method ReleaseArray()
      requires hb in arrays
      modifies this`arrays
      ensures arrays == old(arrays) - {hb}
    {
      arrays := arrays - {hb};
    }

    /** Gives everything back at exit, if the table is empty or owners are asked for. */
    method Exit(extReq: set<nat>)
      requires Valid() && (INET_DIAG_PROC !in extReq ==> log == [])
      modifies this, hb
      ensures log == [] && live == {} && nrSockets == 0 && arrays == {}
    {
      Free(extReq, false);
      ReleaseArray();
    }

    method FreeNodes()
      requires Valid()
      modifies this`live, this`nrSockets, this`log, hb
      ensures Valid() && log == [] && live == {}
    {
      ghost var hash := HashFor(shift);
      LogSize(log);
      forall o | o in log ensures hash(o.inode) < sz { HashInTable(o.inode, shift); }
      ChainsCover(log, hash, sz);
      ChainsAreSeparate(log, hash, sz);
      FreeChains(Chains(log, hash, sz));
      log := [];
    }

    method FreeBucket(i: nat, ghost todo: seq<seq<SkOwner>>)
      requires i < hb.Length && todo != [] && ChainFrom(hb[i], todo[0]) && Separate(todo)
      requires live == InChains(todo) && nrSockets == |live|
      modifies this`live, this`nrSockets, hb
      ensures live == InChains(todo[1..]) && nrSockets == |live| && Separate(todo[1..])
      ensures hb[i] == null && forall b | 0 <= b < hb.Length && b != i :: hb[b] == old(hb[b])
    {
      FirstChain(todo);
      FreeChain(hb[i], todo[0]);
      hb[i] := null;
    }

    /** Frees bucket after bucket. */
    method FreeChains(ghost chains: seq<seq<SkOwner>>)
      requires hb.Length == sz && Threaded(hb, chains) && Separate(chains)
      requires live == InChains(chains) && nrSockets == |live|
      modifies this`live, this`nrSockets, hb
      ensures live == {} && nrSockets == 0
      ensures forall b | 0 <= b < sz :: hb[b] == null
    {
      ghost var todo := chains;
      var i := 0;
      while i < sz
        invariant 0 <= i <= sz && todo == chains[i..] && nrSockets == |live|
        invariant forall b | 0 <= b < i :: hb[b] == null
        invariant forall b | i <= b < sz :: hb[b] == old(hb[b])
        invariant live == InChains(todo) && Separate(todo)
      {
        assert todo[0] == chains[i];
        assert ChainFrom(old(hb[i]), chains[i]);
        FreeBucket(i, todo);
        todo := todo[1..];
        i := i + 1;
      }
    }
  }

  method BestShift(sockets: nat) returns (shift: nat)
    requires sockets <= INT_MAX
    ensures IsBestShift(shift, sockets) && shift <= 31
  {
    shift := 0;
    Pow2Is32();
    while Pow2(shift) < sockets
      invariant shift <= 31
      invariant forall k: nat | k < shift :: Pow2(k) < sockets
      decreases 32 - shift
    {
      shift := shift + 1;
    }
  }
}
