/** The field table and the keys that edit it. */
module FieldEditor {
  import opened Types

  datatype Screen = MainScreen | FieldScreen | HelpScreen

  /** Everything the key handlers read and write. Rows of the table are named by index,
      where the source points at them. */
  datatype Ui = Ui(
    fields: seq<Field>,
    sel: Option<nat>,
    sortKey: Option<nat>,
    ascending: bool,
    screen: Screen,
    cursor: int,
    extReq: set<nat>,
    family: Family,
    scrollY: int,
    scrollX: int,
    delay: nat,
    protocol: Protocol,
    stop: bool)

  // ----- moving a field

  /** The table with row `from` taken out and put back as row `to`. */
  function Moved<T>(s: seq<T>, from: nat, to: nat): (r: seq<T>)
    requires from < |s| && to < |s|
    ensures |r| == |s|
  {
    if from <= to then s[..from] + s[from + 1..to + 1] + [s[from]] + s[to + 1..]
    else s[..to] + [s[from]] + s[to..from] + s[from + 1..]
  }

  /** Where the row at `k` ends up. */
  function MovedIndex(k: nat, from: nat, to: nat): (r: nat)
  {
    if k == from then to
    else if from < k <= to then k - 1
    else if to <= k < from then k + 1
    else k
  }

  /** The row of the unmoved table that the preview shows at `i`. */
  function PreviewIndex(i: nat, sel: nat, cursor: nat): (r: nat)
  {
    if sel < cursor then
      if sel <= i < cursor then i + 1 else if i == cursor then sel else i
    else if sel > cursor then
      if i == cursor then sel else if cursor < i <= sel then i - 1 else i
    else i
  }

  /** A move row by row: the moved row at its new place, those between one row over. */
  lemma {:induction false} MovedRows<T>(s: seq<T>, from: nat, to: nat)
    requires from < |s| && to < |s|
    ensures Moved(s, from, to)[to] == s[from]
    ensures forall i | from < i <= to :: Moved(s, from, to)[i - 1] == s[i]
    ensures forall i | to <= i < from :: Moved(s, from, to)[i + 1] == s[i]
    ensures forall i | 0 <= i < |s| && ((i < from && i < to) || (i > from && i > to)) :: Moved(s, from, to)[i] == s[i]
  {
  }

  lemma {:induction false} MovedRow<T>(s: seq<T>, from: nat, to: nat, i: nat)
    requires from < |s| && to < |s| && i < |s|
    ensures PreviewIndex(i, from, to) < |s|
    ensures Moved(s, from, to)[i] == s[PreviewIndex(i, from, to)]
  {
  }

  lemma {:induction false} PreviewInverts(rows: nat, from: nat, to: nat, i: nat)
    requires from < rows && to < rows && i < rows
    ensures forall k: nat | k < rows :: MovedIndex(k, from, to) == i <==> k == PreviewIndex(i, from, to)
  {
  }

  /** The preview's index arithmetic shows what the move will do. */
  lemma {:induction false} PreviewShowsMove<T>(s: seq<T>, from: nat, to: nat, i: nat)
    requires from < |s| && to < |s| && i < |s|
    ensures PreviewIndex(i, from, to) < |s|
    ensures Moved(s, from, to)[i] == s[PreviewIndex(i, from, to)]
    ensures forall k: nat | k < |s| :: MovedIndex(k, from, to) == i <==> k == PreviewIndex(i, from, to)
  {
    MovedRow(s, from, to, i);
    PreviewInverts(|s|, from, to, i);
  }

  lemma {:induction false} SwapParts<T>(a: seq<T>, b: seq<T>, c: seq<T>, d: seq<T>)
    ensures multiset(a + b + c + d) == multiset(a + c + b + d)
  {
  }

  /** A move conserves the rows. */
  lemma {:induction false} MoveConserves<T>(s: seq<T>, from: nat, to: nat)
    requires from < |s| && to < |s|
    ensures multiset(Moved(s, from, to)) == multiset(s)
  {
    if from <= to {
      assert s == s[..from] + [s[from]] + s[from + 1..to + 1] + s[to + 1..];
      SwapParts(s[..from], [s[from]], s[from + 1..to + 1], s[to + 1..]);
    } else {
      assert s == s[..to] + s[to..from] + [s[from]] + s[from + 1..];
      SwapParts(s[..to], s[to..from], [s[from]], s[from + 1..]);
    }
  }

  /** Moving back restores the table, row by row. */
  lemma {:induction false} MoveBack<T>(s: seq<T>, from: nat, to: nat)
    requires from < |s| && to < |s|
    ensures Moved(Moved(s, from, to), to, from) == s
    ensures forall k: nat | k < |s| :: MovedIndex(MovedIndex(k, from, to), to, from) == k
  {
    var m := Moved(s, from, to);
    forall i | 0 <= i < |s| ensures Moved(m, to, from)[i] == s[i] {
      PreviewShowsMove(m, to, from, i);
      PreviewShowsMove(s, from, to, PreviewIndex(i, to, from));
    }
  }

  /** One more adjacent swap extends a move by one row. */
  lemma {:induction false} SwapExtendsMove<T>(s: seq<T>, from: nat, at: nat, next: nat)
    requires from < |s| && at < |s| && next < |s|
    requires (from <= at && next == at + 1) || (at <= from && at == next + 1)
    ensures var m := Moved(s, from, at);
            m[at := m[next]][next := m[at]] == Moved(s, from, next)
    ensures forall k: nat | k < |s| ::
              var i := MovedIndex(k, from, at);
              MovedIndex(k, from, next) == if i == at then next else if i == next then at else i
  {
    var m := Moved(s, from, at);
    var l, r := m[at := m[next]][next := m[at]], Moved(s, from, next);
    forall i | 0 <= i < |s| ensures l[i] == r[i] {
      PreviewShowsMove(s, from, at, i);
      PreviewShowsMove(s, from, next, i);
      PreviewShowsMove(s, from, at, at);
      PreviewShowsMove(s, from, at, next);
    }
  }
}
