/** Which connections a filter accepts. */
module FilterMatch {
  import opened Types
  import opened Prefix
  import opened Comparators
  import opened FilterText

  predicate OccursAt(s: string, t: string, i: nat)
  {
    i + |t| <= |s| && s[i..i + |t|] == t
  }

  predicate Contains(s: string, t: string)
  {
    exists i :: 0 <= i <= |s| && OccursAt(s, t, i)
  }

  /** The meaning of a filter. An operator that does not belong to the type accepts nothing. */
  predicate Matches(flt: Filter, v: Value)
  {
    match flt
    case NumberFilter(op, n) =>
      (match op
       case EQ => NumberOf(v) == n
       case NE => NumberOf(v) != n
       case GT => NumberOf(v) > n
       case GE => NumberOf(v) >= n
       case LT => NumberOf(v) < n
       case LE => NumberOf(v) <= n
       case _ => false)
    case TextFilter(op, t) =>
      (match op
       case EQ => TextOf(v) == t
       case CT => Contains(TextOf(v), t)
       case NC => !Contains(TextOf(v), t)
       case _ => false)
    case AddressFilter(_, _, _, _) => AddressMatches(flt, FamilyOf(v), AddressOf(v))
    case ChoiceFilter(selected) => if v.FlagsValue? then selected == v.bits else NumberOf(v) in selected
  }

  /** An operator that belongs to the type of its filter. */
  predicate Belongs(flt: Filter)
  {
    match flt
    case NumberFilter(op, _) => op !in {CT, NC}
    case TextFilter(op, _) => op in {EQ, CT, NC}
    case AddressFilter(op, _, _, _) => op in {EQ, NE}
    case ChoiceFilter(_) => true
  }

  /** Whatever an operator of another type is used on, nothing matches. */
  lemma {:induction false} ForeignMatchesNothing(flt: Filter, v: Value)
    requires (flt.NumberFilter? || flt.TextFilter?) && !Belongs(flt)
    ensures !Matches(flt, v)
  {
  }

  /** A numeric filter matches some 64-bit value exactly when its operator belongs to
      numbers and the comparison leaves room for one. */
  lemma {:induction false} SomeNumberMatches(op: CmpOp, v: nat)
    requires v < U64
    ensures (exists n :: 0 <= n < U64 && Matches(NumberFilter(op, v), NumberValue(n)))
       <==> Belongs(NumberFilter(op, v)) && !(op.LT? && v == 0) && !(op.GT? && v == U64 - 1)
  {
    var flt := NumberFilter(op, v);
    var n := if op.LT? && v > 0 then v - 1 else if op.GT? && v < U64 - 1 then v + 1
             else if op.NE? then (if v == 0 then 1 else 0) else v;
    assert 0 <= n < U64;
    if Belongs(flt) && !(op.LT? && v == 0) && !(op.GT? && v == U64 - 1) {
      assert Matches(flt, NumberValue(n));
    }
  }

  /** A string filter matches some C string exactly when its operator belongs to strings. */
  lemma {:induction false} SomeTextMatches(op: CmpOp, t: string)
    requires t != [] && IsCString(t)
    ensures (exists s :: IsCString(s) && Matches(TextFilter(op, t), TextValue(s))) <==> Belongs(TextFilter(op, t))
  {
    var flt := TextFilter(op, t);
    assert OccursAt(t, t, 0);
    if op == NC {
      assert IsCString("") && Matches(flt, TextValue(""));
    } else if op in {EQ, CT} {
      assert Matches(flt, TextValue(t));
    }
  }

  /** The first place where `t` occurs in `s`. */
  method FindText(s: string, t: string) returns (found: bool)
    ensures found <==> Contains(s, t)
  {
    var i := 0;
    while i + |t| <= |s|
      invariant forall j: nat | j < i :: !OccursAt(s, t, j)
    {
      if s[i..i + |t|] == t {
        assert OccursAt(s, t, i);
        return true;
      }
      i := i + 1;
    }
    return false;
  }

  method FilterApply(flt: Filter, v: Value) returns (ret: bool)
    ensures ret <==> Matches(flt, v)
  {
    match flt {
      case NumberFilter(op, n) =>
        var d := NumberOf(v);
        match op {
          case EQ => ret := d == n;
          case NE => ret := d != n;
          case GT => ret := d > n;
          case GE => ret := d >= n;
          case LT => ret := d < n;
          case LE => ret := d <= n;
          case _ => ret := false;
        }
      case TextFilter(op, t) =>
        if op.EQ? {
          ret := TextOf(v) == t;
        } else if op.CT? || op.NC? {
          ret := FindText(TextOf(v), t);
          if op.NC? {
            ret := !ret;
          }
        } else {
          ret := false;
        }
      case AddressFilter(_, _, _, _) => ret := MatchAddress(flt, FamilyOf(v), AddressOf(v));
      case ChoiceFilter(selected) =>
        ret := if v.FlagsValue? then selected == v.bits else NumberOf(v) in selected;
    }
  }
}
