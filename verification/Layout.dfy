/** Which columns a frame shows, where they start, and what a painted row looks like. */
module Layout {
  import opened Types
  import opened FilterMatch

  function Spaces(n: nat): (s: string)
    ensures |s| == n
  {
    seq(n, _ => ' ')
  }

  /** Text written over a row from column `x` on, clipped to the row. */
  function Overlay(row: string, x: nat, text: string): (r: string)
    ensures |r| == |row|
    decreases |text|
  {
    if text == [] || x >= |row| then row else Overlay(row[x := text[0]], x + 1, text[1..])
  }

  /** Each character of the row comes from the text, where that reaches, or stays. */
  lemma {:induction false} OverlayAt(row: string, x: nat, text: string, i: nat)
    requires i < |row|
    ensures Overlay(row, x, text)[i] == if x <= i < x + |text| then text[i - x] else row[i]
    decreases |text|
  {
    if text != [] && x < |row| {
      OverlayAt(row[x := text[0]], x + 1, text[1..], i);
    }
  }

  /** A row overwritten with blanks is blank, whatever was drawn on it. */
  lemma {:induction false} OverlayBlank(row: string)
    ensures Overlay(row, 0, Spaces(|row|)) == Spaces(|row|)
  {
    forall i | 0 <= i < |row| ensures Overlay(row, 0, Spaces(|row|))[i] == ' ' {
      OverlayAt(row, 0, Spaces(|row|), i);
    }
  }

  // ----- columns

  /** The field takes part in the frame: the user wants it and some connection has it. */
  predicate Visible(f: Field, extRcv: set<nat>)
  {
    f.enabled && f.drawable && f.extRcv in extRcv
  }

  /** What is left of the horizontal offset after `fields`. Pinned fields do not use it up. */
  function SkipLeft(fields: seq<Field>, extRcv: set<nat>, skip: nat): (left: nat)
    ensures left <= skip
  {
    if fields == [] then skip
    else
      var f := fields[|fields| - 1];
      var left := SkipLeft(fields[..|fields| - 1], extRcv, skip);
      if Visible(f, extRcv) && left > 0 && !f.pinned then left - 1 else left
  }

  /** The fields that get a column, left to right. */
  function Shown(fields: seq<Field>, extRcv: set<nat>, skip: nat): (shown: seq<Field>)
  {
    if fields == [] then []
    else
      var f := fields[|fields| - 1];
      var rest := fields[..|fields| - 1];
      Shown(rest, extRcv, skip)
      + if Visible(f, extRcv) && (SkipLeft(rest, extRcv, skip) == 0 || f.pinned) then [f] else []
  }

  function Count(fields: seq<Field>, extRcv: set<nat>, pinned: bool): (n: nat)
  {
    if fields == [] then 0
    else
      var f := fields[|fields| - 1];
      Count(fields[..|fields| - 1], extRcv, pinned) + if Visible(f, extRcv) && f.pinned == pinned then 1 else 0
  }

  lemma {:induction false} CountAppend(s: seq<Field>, f: Field, extRcv: set<nat>, pinned: bool)
    ensures Count(s + [f], extRcv, pinned)
         == Count(s, extRcv, pinned) + if Visible(f, extRcv) && f.pinned == pinned then 1 else 0
  {
    assert (s + [f])[..|s|] == s;
  }

  /** Exactly `min(skip, n)` of the `n` visible unpinned fields are skipped, and no
      pinned one is. */
  lemma {:induction false} ShownCounts(fields: seq<Field>, extRcv: set<nat>, skip: nat)
    ensures var n := Count(fields, extRcv, false);
            && SkipLeft(fields, extRcv, skip) == (if skip < n then 0 else skip - n)
            && Count(Shown(fields, extRcv, skip), extRcv, false) == (if skip < n then n - skip else 0)
            && Count(Shown(fields, extRcv, skip), extRcv, true) == Count(fields, extRcv, true)
  {
    if fields != [] {
      var rest, f := fields[..|fields| - 1], fields[|fields| - 1];
      ShownCounts(rest, extRcv, skip);
      CountAppend(Shown(rest, extRcv, skip), f, extRcv, false);
      CountAppend(Shown(rest, extRcv, skip), f, extRcv, true);
      if !(Visible(f, extRcv) && (SkipLeft(rest, extRcv, skip) == 0 || f.pinned)) {
        assert Shown(fields, extRcv, skip) == Shown(rest, extRcv, skip);
      }
    }
  }

  // ----- painting cells

  /** One column of one row: its width and the text written at its start, which may be
      longer than the width. */
  datatype Cell = Cell(width: nat, text: string)

  /** Where column `k` starts: each column is followed by one separator. */
  function Start(cells: seq<Cell>, k: nat): (x: nat)
    requires k <= |cells|
  {
    if k == 0 then 0 else Start(cells, k - 1) + cells[k - 1].width + 1
  }

  /** Where the last of the first `k` columns ends. */
  function End(cells: seq<Cell>, k: nat): (x: nat)
    requires k <= |cells|
  {
    if k == 0 then 0 else Start(cells, k - 1) + cells[k - 1].width
  }

  /** A row after its first `k` columns: separator, then text, column by column. */
  function Painted(row: string, cells: seq<Cell>, k: nat): (r: string)
    requires k <= |cells|
    ensures |r| == |row|
  {
    if k == 0 then row
    else
      var before := Painted(row, cells, k - 1);
      var separated := if k == 1 then before else Overlay(before, End(cells, k - 1), " ");
      Overlay(separated, Start(cells, k - 1), cells[k - 1].text)
  }

  lemma {:induction false} PaintedPrefix(row: string, a: seq<Cell>, b: seq<Cell>, k: nat)
    requires k <= |a| && k <= |b| && a[..k] == b[..k]
    ensures Start(a, k) == Start(b, k) && End(a, k) == End(b, k)
    ensures Painted(row, a, k) == Painted(row, b, k)
  {
    if k != 0 {
      assert a[k - 1] == a[..k][k - 1] == b[..k][k - 1] == b[k - 1];
      assert a[..k - 1] == a[..k][..k - 1] == b[..k][..k - 1] == b[..k - 1];
      PaintedPrefix(row, a, b, k - 1);
    }
  }

  lemma {:induction false} StartsGrow(cells: seq<Cell>, j: nat, k: nat)
    requires j <= k <= |cells|
    ensures Start(cells, j) <= Start(cells, k)
    decreases k
  {
    if j < k {
      StartsGrow(cells, j, k - 1);
    }
  }

  /** Columns leave room for the widths before them, so they never overlap. */
  lemma {:induction false} ColumnsApart(cells: seq<Cell>, j: nat, k: nat)
    requires j < k < |cells|
    ensures Start(cells, j) + cells[j].width + 1 <= Start(cells, k)
  {
    StartsGrow(cells, j + 1, k);
  }

  /** Columns after the right edge start beyond it. */
  lemma {:induction false} StartsBeyond(cells: seq<Cell>, k: nat, j: nat, edge: nat)
    requires k <= j < |cells| && End(cells, k) >= edge
    ensures Start(cells, j) >= edge && End(cells, j) >= edge
  {
    if k < j {
      StartsGrow(cells, k, j - 1);
    }
  }

  lemma {:induction false} OverlayBeyond(row: string, x: nat, text: string)
    requires x >= |row|
    ensures Overlay(row, x, text) == row
  {
  }

  lemma {:induction false} PaintsNothing(row: string, cells: seq<Cell>, n: nat)
    requires n < |cells| && End(cells, n) >= |row| && Start(cells, n) >= |row|
    ensures Painted(row, cells, n + 1) == Painted(row, cells, n)
  {
    var before := Painted(row, cells, n);
    OverlayBeyond(before, End(cells, n), " ");
    OverlayBeyond(before, Start(cells, n), cells[n].text);
  }

  /** Once the columns reach the right edge, the rest paint nothing: stopping there,
      as the header does, gives the same row. */
  lemma {:induction false} PaintedBeyond(row: string, cells: seq<Cell>, k: nat, n: nat)
    requires k <= n <= |cells| && End(cells, k) >= |row|
    ensures Painted(row, cells, n) == Painted(row, cells, k)
    decreases n
  {
    if k < n {
      PaintedBeyond(row, cells, k, n - 1);
      StartsBeyond(cells, k, n - 1, |row|);
      PaintsNothing(row, cells, n - 1);
    }
  }

  // ----- what a painted row reads

  /** No text is longer than its column. */
  predicate TextsFit(cells: seq<Cell>)
  {
    forall k | 0 <= k < |cells| :: |cells[k].text| <= cells[k].width
  }

  /** The character at `x` lies in the text of column `k`. */
  predicate InColumn(cells: seq<Cell>, k: nat, x: nat)
    requires k < |cells|
  {
    Start(cells, k) <= x < Start(cells, k) + |cells[k].text|
  }

  /** What the first `n` columns leave at `x` on a blank row. */
  function CharOf(cells: seq<Cell>, n: nat, x: nat): (c: char)
    requires n <= |cells|
  {
    if n == 0 then ' '
    else if InColumn(cells, n - 1, x) then cells[n - 1].text[x - Start(cells, n - 1)]
    else CharOf(cells, n - 1, x)
  }

  lemma {:induction false} BlankPastEnd(cells: seq<Cell>, n: nat, x: nat)
    requires TextsFit(cells) && n <= |cells| && x >= End(cells, n)
    ensures CharOf(cells, n, x) == ' '
  {
    if n > 0 {
      BlankPastEnd(cells, n - 1, x);
    }
  }

  lemma {:induction false} PaintedReads(cols: nat, cells: seq<Cell>, n: nat, x: nat)
    requires TextsFit(cells) && n <= |cells| && x < cols
    ensures Painted(Spaces(cols), cells, n)[x] == CharOf(cells, n, x)
  {
    if n > 0 {
      PaintedReads(cols, cells, n - 1, x);
      var before := Painted(Spaces(cols), cells, n - 1);
      var separated := if n == 1 then before else Overlay(before, End(cells, n - 1), " ");
      if n > 1 {
        OverlayAt(before, End(cells, n - 1), " ", x);
        if x == End(cells, n - 1) {
          BlankPastEnd(cells, n - 1, x);
        }
      }
      OverlayAt(separated, Start(cells, n - 1), cells[n - 1].text, x);
    }
  }

  lemma {:induction false} CharInColumn(cells: seq<Cell>, n: nat, k: nat, x: nat)
    requires TextsFit(cells) && k < n <= |cells| && InColumn(cells, k, x)
    ensures CharOf(cells, n, x) == cells[k].text[x - Start(cells, k)]
    decreases n
  {
    if k < n - 1 {
      ColumnsApart(cells, k, n - 1);
      CharInColumn(cells, n - 1, k, x);
    }
  }

  lemma {:induction false} CharOutside(cells: seq<Cell>, n: nat, x: nat)
    requires n <= |cells| && forall k | 0 <= k < n :: !InColumn(cells, k, x)
    ensures CharOf(cells, n, x) == ' '
  {
    if n > 0 {
      CharOutside(cells, n - 1, x);
    }
  }

  // ----- the rows of a frame

  /** What a row shows: the column headers, or a connection. */
  datatype Content = Headers | Of(c: Conn)

  function CellOf(what: Content, f: Field, family: Family): (cell: Cell)
  {
    var w := ColumnWidth(f, family);
    match what
    case Headers => Cell(w, f.header + Spaces(if |f.header| < w then w - |f.header| else 0))
    case Of(c) => Cell(w, if f.extRcv in c.ext then f.render(c) else Spaces(w))
  }

  function Cells(what: Content, shown: seq<Field>, family: Family): (cells: seq<Cell>)
    ensures |cells| == |shown|
  {
    if shown == [] then []
    else Cells(what, shown[..|shown| - 1], family) + [CellOf(what, shown[|shown| - 1], family)]
  }

  lemma {:induction false} CellAt(what: Content, shown: seq<Field>, family: Family, i: nat)
    requires i < |shown|
    ensures Cells(what, shown, family)[i] == CellOf(what, shown[i], family)
  {
    if i < |shown| - 1 {
      CellAt(what, shown[..|shown| - 1], family, i);
    }
  }

  /** The header's columns and every row's columns start at the same places. */
  lemma {:induction false} HeaderAligned(shown: seq<Field>, family: Family, c: Conn, k: nat)
    requires k <= |shown|
    ensures Start(Cells(Headers, shown, family), k) == Start(Cells(Of(c), shown, family), k)
  {
    if k > 0 {
      HeaderAligned(shown, family, c, k - 1);
      CellAt(Headers, shown, family, k - 1);
      CellAt(Of(c), shown, family, k - 1);
    }
  }

  /** What a frame is drawn from. */
  datatype View = View(fields: seq<Field>, extRcv: set<nat>, family: Family, skip: nat, cols: nat)

  function Columns(v: View): (shown: seq<Field>)
  {
    Shown(v.fields, v.extRcv, v.skip)
  }

  /** Which field is written where. */
  function Placed(shown: seq<Field>, cells: seq<Cell>): (places: seq<(Field, nat)>)
    requires |cells| == |shown|
    ensures |places| == |shown|
  {
    seq(|shown|, k requires 0 <= k < |shown| => (shown[k], Start(cells, k)))
  }

  function Places(v: View, what: Content): (places: seq<(Field, nat)>)
    ensures |places| == |Columns(v)|
  {
    Placed(Columns(v), Cells(what, Columns(v), v.family))
  }

  /** Header and rows write the same fields at the same places. */
  lemma {:induction false} SamePlaces(v: View, c: Conn)
    ensures Places(v, Headers) == Places(v, Of(c))
  {
    forall k | 0 <= k < |Columns(v)| ensures Places(v, Headers)[k] == Places(v, Of(c))[k] {
      HeaderAligned(Columns(v), v.family, c, k);
    }
  }

  function RowText(v: View, what: Content): (row: string)
  {
    var cells := Cells(what, Columns(v), v.family);
    Painted(Spaces(v.cols), cells, |cells|)
  }

  /** When no text is longer than its column, a row reads each text at its place, as far
      as the right edge, and is blank everywhere else. */
  lemma {:induction false} RowReads(v: View, what: Content, x: nat)
    requires TextsFit(Cells(what, Columns(v), v.family)) && x < v.cols
    ensures |RowText(v, what)| == v.cols
    ensures var cells := Cells(what, Columns(v), v.family);
            && (forall k | 0 <= k < |cells| && InColumn(cells, k, x) :: RowText(v, what)[x] == cells[k].text[x - Start(cells, k)])
            && ((forall k | 0 <= k < |cells| :: !InColumn(cells, k, x)) ==> RowText(v, what)[x] == ' ')
  {
    var cells := Cells(what, Columns(v), v.family);
    PaintedReads(v.cols, cells, |cells|, x);
    forall k | 0 <= k < |cells| && InColumn(cells, k, x)
      ensures RowText(v, what)[x] == cells[k].text[x - Start(cells, k)]
    {
      CharInColumn(cells, |cells|, k, x);
    }
    if forall k | 0 <= k < |cells| :: !InColumn(cells, k, x) {
      CharOutside(cells, |cells|, x);
    }
  }

  /** The field's filter, if it has a say, lets the connection through. */
  predicate Passes(f: Field, extRcv: set<nat>, c: Conn)
  {
    Visible(f, extRcv) && f.filterOn ==>
      f.extRcv in c.ext && f.filter.Some? && Matches(f.filter.value, f.read(c))
  }

  /** Drawing the connection reaches a switched-on filter that does not exist. */
  predicate FilterMissing(v: View, c: Conn)
  {
    exists i :: 0 <= i < |v.fields| && MissingAt(v, c, i)
  }

  predicate MissingAt(v: View, c: Conn, i: nat)
    requires i < |v.fields|
  {
    var f := v.fields[i];
    && Visible(f, v.extRcv) && f.filterOn && f.filter.None? && f.extRcv in c.ext
    && forall j | 0 <= j < i :: Passes(v.fields[j], v.extRcv, c)
  }

  predicate Accepted(fields: seq<Field>, extRcv: set<nat>, c: Conn)
  {
    forall i | 0 <= i < |fields| :: Passes(fields[i], extRcv, c)
  }

  function AcceptedConns(v: View, cs: seq<Conn>): (r: seq<Conn>)
    ensures |r| <= |cs|
  {
    if cs == [] then []
    else
      var c := cs[|cs| - 1];
      AcceptedConns(v, cs[..|cs| - 1]) + if Accepted(v.fields, v.extRcv, c) then [c] else []
  }

  /** Row 0 is the header, then come the given connections, and the rest stays blank. */
  function FrameRow(v: View, shown: seq<Conn>, y: nat): (line: string)
  {
    if y == 0 then RowText(v, Headers) else if y <= |shown| then RowText(v, Of(shown[y - 1])) else Spaces(v.cols)
  }
}
