/** Who owns the memory of filters: each field at most one filter, a string filter also
    its text, and everything is freed once when the screen is closed. */
module FilterMemory {
  import opened Types

  /** A block of memory that is freed as a whole. */
  class Block {
    constructor () {}
  }

  /** The pointers of one field: to its filter, and from there to the filter's text. */
  datatype Slot = Slot(filter: Option<Block>, text: Option<Block>)

  function Held(b: Option<Block>): (m: multiset<Block>)
  {
    if b.Some? then multiset{b.value} else multiset{}
  }

  function SlotBlocks(s: Slot): (m: multiset<Block>)
  {
    Held(s.filter) + Held(s.text)
  }

  ghost function Blocks(slots: seq<Slot>): (m: multiset<Block>)
  {
    if slots == [] then multiset{} else SlotBlocks(slots[0]) + Blocks(slots[1..])
  }

  /** The pointers are those that the field's filter has. */
  predicate SlotFits(s: Slot, f: Field)
  {
    s.filter.Some? == f.filter.Some? && s.text.Some? == (f.filter.Some? && f.kind.TextKind?)
  }

  predicate AllFit(slots: seq<Slot>, fields: seq<Field>)
  {
    |slots| == |fields| && forall i | 0 <= i < |fields| :: SlotFits(slots[i], fields[i])
  }

  lemma {:induction false} FitsSet(slots: seq<Slot>, fields: seq<Field>, k: nat, s: Slot, f: Field)
    requires AllFit(slots, fields) && k < |fields| && SlotFits(s, f)
    ensures AllFit(slots[k := s], fields[k := f])
  {
  }

  lemma {:induction false} BlocksSet(slots: seq<Slot>, k: nat, s: Slot)
    requires k < |slots|
    ensures Blocks(slots[k := s]) + SlotBlocks(slots[k]) == Blocks(slots) + SlotBlocks(s)
  {
    var t := slots[k := s];
    if k == 0 {
      assert t[1..] == slots[1..];
      Exchange(SlotBlocks(s), Blocks(slots[1..]), SlotBlocks(slots[0]));
    } else {
      assert t[1..] == slots[1..][k - 1 := s];
      BlocksSet(slots[1..], k - 1, s);
      AddFirst(SlotBlocks(slots[0]), Blocks(t[1..]), SlotBlocks(slots[k]), Blocks(slots[1..]), SlotBlocks(s));
    }
  }

  lemma {:induction false} AddFirst(f: multiset<Block>, a: multiset<Block>, b: multiset<Block>, c: multiset<Block>, d: multiset<Block>)
    requires a + b == c + d
    ensures f + a + b == f + c + d
  {
    assert f + a + b == f + (a + b) && f + c + d == f + (c + d);
  }

  lemma {:induction false} Exchange(a: multiset<Block>, b: multiset<Block>, c: multiset<Block>)
    ensures a + b + c == c + b + a
  {
  }

  lemma {:induction false} Widen(a: multiset<Block>, b: multiset<Block>, c: multiset<Block>)
    requires a <= b
    ensures a <= c + b
  {
  }

  /** What one slot holds is among what all hold. */
  lemma {:induction false} SlotIsPart(slots: seq<Slot>, k: nat)
    requires k < |slots|
    ensures SlotBlocks(slots[k]) <= Blocks(slots)
  {
    if k > 0 {
      SlotIsPart(slots[1..], k - 1);
      Widen(SlotBlocks(slots[k]), Blocks(slots[1..]), SlotBlocks(slots[0]));
    }
  }

  /** Two fields exchange what they hold. */
  lemma {:induction false} BlocksSwap(slots: seq<Slot>, a: nat, b: nat)
    requires a < |slots| && b < |slots|
    ensures Blocks(slots[a := slots[b]][b := slots[a]]) == Blocks(slots)
  {
    var m := slots[a := slots[b]];
    BlocksSet(slots, a, slots[b]);
    BlocksSet(m, b, slots[a]);
    Cancel(Blocks(m), SlotBlocks(slots[a]), Blocks(slots), SlotBlocks(slots[b]), Blocks(m[b := slots[a]]));
  }

  lemma {:induction false} Cancel(m: multiset<Block>, a: multiset<Block>, s: multiset<Block>, b: multiset<Block>, r: multiset<Block>)
    requires m + a == s + b && r + b == m + a
    ensures r == s
  {
    assert r == (r + b) - b && s == (s + b) - b;
  }

  /** A new filter takes the place of the one in slot `k`. */
  lemma {:induction false} BlocksReplaced(slots: seq<Slot>, k: nat, s: Slot)
    requires k < |slots|
    ensures SlotBlocks(slots[k]) <= Blocks(slots) + SlotBlocks(s)
    ensures Blocks(slots[k := s]) == Blocks(slots) + SlotBlocks(s) - SlotBlocks(slots[k])
  {
    SlotIsPart(slots, k);
    BlocksSet(slots, k, s);
    AddSubtract(Blocks(slots[k := s]), SlotBlocks(slots[k]));
  }

  lemma {:induction false} AddSubtract(m: multiset<Block>, a: multiset<Block>)
    ensures m + a - a == m
  {
  }

  class FilterStore {
    var slots: seq<Slot>
    var weCalled: bool
    // Blocks allocated and not yet freed; a block is freed as often as it was allocated.
    ghost var live: multiset<Block>

    /** The fields own exactly what is allocated, each block once. */
    ghost predicate Owns(fields: seq<Field>)
      reads this
    {
      !weCalled && AllFit(slots, fields) && Blocks(slots) == live
    }

    constructor (fields: seq<Field>)
      requires forall i | 0 <= i < |fields| :: fields[i].filter.None?
      ensures Owns(fields) && live == multiset{}
    {
      slots := seq(|fields|, _ => Slot(None, None));
      weCalled, live := false, multiset{};
      NoBlocks(seq(|fields|, _ => Slot(None, None)));
    }

    /** Frees a block, which must be allocated; there is nothing to do for no block. */
    method Free(b: Option<Block>)
      requires Held(b) <= live
      modifies this`live
      ensures live == old(live) - Held(b)
    {
      live := live - Held(b);
    }

    /** Allocates a block if one is wanted. */
    method Alloc(wanted: bool) returns (b: Option<Block>)
      modifies this`live
      ensures b.Some? == wanted && (b.Some? ==> fresh(b.value))
      ensures live == old(live) + Held(b)
    {
      b := None;
      if wanted {
        var block := new Block();
        b := Some(block);
      }
      live := live + Held(b);
    }

    /** Frees a filter with its text. */
    method FreeSlot(s: Slot)
      requires SlotBlocks(s) <= live
      modifies this`live
      ensures live == old(live) - SlotBlocks(s)
    {
      Free(s.text);
      Free(s.filter);
    }

    /** Allocates a filter, with a text if it is to have one. */
    method MakeSlot(text: bool) returns (s: Slot)
      modifies this`live
      ensures s.filter.Some? && s.text.Some? == text && live == old(live) + SlotBlocks(s)
    {
      var filter := Alloc(true);
      var txt := Alloc(text);
      s := Slot(filter, txt);
    }

    /** Allocates a filter for field `k` and frees the one it has. */
    method Renew(k: nat, text: bool) returns (s: Slot)
      requires k < |slots| && Blocks(slots) == live
      modifies this`live
      ensures s.filter.Some? && s.text.Some? == text
      ensures Blocks(slots[k := s]) == live
    {
      s := MakeSlot(text);
      BlocksReplaced(slots, k, s);
      FreeSlot(slots[k]);
    }

    /** Gives field `k` a new filter and frees the one it had; `f` is the field with it. */
    method Replace(k: nat, text: bool, ghost fields: seq<Field>, ghost f: Field)
      requires Owns(fields) && k < |fields| && f.filter.Some? && text == f.kind.TextKind?
      modifies this`slots, this`live
      ensures Owns(fields[k := f])
    {
      var s := Renew(k, text);
      FitsSet(slots, fields, k, s, f);
      slots := slots[k := s];
    }

    /** Exchanges the pointers of two fields. */
    method Swap(a: nat, b: nat, ghost fields: seq<Field>)
      requires Owns(fields) && a < |fields| && b < |fields|
      modifies this`slots
      ensures Owns(fields[a := fields[b]][b := fields[a]])
    {
      BlocksSwap(slots, a, b);
      FitsSet(slots, fields, a, slots[b], fields[b]);
      FitsSet(slots[a := slots[b]], fields[a := fields[b]], b, slots[a], fields[a]);
      slots := slots[a := slots[b]][b := slots[a]];
    }

    /** A field may change as long as it keeps its filter's memory. */
    lemma {:induction false} KeepsFilter(fields: seq<Field>, k: nat, f: Field)
      requires Owns(fields) && k < |fields|
      requires f.filter.Some? == fields[k].filter.Some? && f.kind == fields[k].kind
      ensures Owns(fields[k := f])
    {
      FitsSet(slots, fields, k, slots[k], f);
      assert slots[k := slots[k]] == slots;
    }

    /** Frees the filter of a field, if it has one, and a string filter's text. */
    method FreeFilter(f: Field, s: Slot)
      requires SlotFits(s, f) && SlotBlocks(s) <= live
      modifies this`live
      ensures live == old(live) - SlotBlocks(s)
    {
      if f.filter.Some? {
        if f.kind.TextKind? {
          Free(s.text);
        }
        Free(s.filter);
      }
    }

    /** Closes the screen, unless that was done before: every filter is freed once. The
        fields keep their pointers. */
    method WindowExit(fields: array<Field>)
      requires weCalled || Owns(fields[..])
      requires weCalled ==> live == multiset{}
      modifies this`live, this`weCalled
      ensures weCalled && live == multiset{}
    {
      if weCalled {
        return;
      }
      var i := 0;
      assert slots[0..] == slots;
      while i < fields.Length
        invariant 0 <= i <= fields.Length && Blocks(slots[i..]) == live
      {
        NextSlot(slots, i, live);
        FreeFilter(fields[i], slots[i]);
        i := i + 1;
      }
      weCalled := true;
    }
  }

  lemma {:induction false} NextSlot(slots: seq<Slot>, i: nat, live: multiset<Block>)
    requires i < |slots| && Blocks(slots[i..]) == live
    ensures SlotBlocks(slots[i]) <= live && live - SlotBlocks(slots[i]) == Blocks(slots[i + 1..])
  {
    assert slots[i..][0] == slots[i] && slots[i..][1..] == slots[i + 1..];
  }

  lemma {:induction false} NoBlocks(slots: seq<Slot>)
    requires forall i | 0 <= i < |slots| :: slots[i] == Slot(None, None)
    ensures Blocks(slots) == multiset{}
  {
    if slots != [] {
      NoBlocks(slots[1..]);
    }
  }
}
