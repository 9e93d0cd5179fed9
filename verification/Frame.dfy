/** Drawing one frame: the header, the rows of the accepted connections, and the
    draining of the connection list while they are drawn. */
module Frame {
  import opened Types
  import opened ConnRing
  import opened FilterMatch
  import opened Layout

  /** The connection window: a blank buffer of rows to write text into. */
  class Window {
    const cols: nat
    const lines: array<string>

    ghost predicate Valid()
      reads this, lines
    {
      forall y | 0 <= y < lines.Length :: |lines[y]| == cols
    }

    constructor (height: nat, cols: nat)
      ensures Valid() && fresh(lines) && this.cols == cols && lines.Length == height
      ensures forall y | 0 <= y < height :: lines[y] == Spaces(cols)
    {
      this.cols := cols;
      lines := new string[height](_ => Spaces(cols));
    }

    /** Writes text at a row and column, clipped to the right edge. */
    method Print(y: nat, x: nat, text: string)
      requires Valid() && y < lines.Length
      modifies lines
      ensures Valid() && lines[..] == old(lines[..][y := Overlay(lines[y], x, text)])
    {
      var left := cols - x;
      if left <= 0 {
        return;
      }
      lines[y] := Overlay(lines[y], x, text);
    }
  }

  /** One column more: the separator if something stands before it, then the text. */
  method PutColumn(win: Window, y: nat, x: nat, drawn: bool, cell: Cell) returns (x': nat)
    requires win.Valid() && y < win.lines.Length
    modifies win.lines
    ensures win.Valid()
    ensures x' == x + (if drawn then 1 else 0) + cell.width
    ensures var separated := if drawn then Overlay(old(win.lines[y]), x, " ") else old(win.lines[y]);
            win.lines[y] == Overlay(separated, if drawn then x + 1 else x, cell.text)
    ensures forall r | 0 <= r < win.lines.Length && r != y :: win.lines[r] == old(win.lines[r])
  {
    x' := x;
    if drawn {
      win.Print(y, x', " ");
      x' := x' + 1;
    }
    win.Print(y, x', cell.text);
    x' := x' + cell.width;
  }

  /** Does the field's filter reject the connection? */
  method FilterRejects(f: Field, c: Conn) returns (rejects: bool)
    requires f.filterOn && f.extRcv in c.ext ==> f.filter.Some?
    ensures rejects <==> f.filterOn && !(f.extRcv in c.ext && Matches(f.filter.value, f.read(c)))
  {
    rejects := false;
    if f.filterOn {
      if f.extRcv in c.ext {
        var ok := FilterApply(f.filter.value, f.read(c));
        rejects := !ok;
      } else {
        rejects := true;
      }
    }
  }

  lemma {:induction false} ShownGrows(fields: seq<Field>, extRcv: set<nat>, skip: nat, i: nat)
    requires i < |fields|
    ensures var f, before := fields[i], fields[..i];
            && Shown(fields[..i + 1], extRcv, skip)
               == Shown(before, extRcv, skip)
                  + (if Visible(f, extRcv) && (SkipLeft(before, extRcv, skip) == 0 || f.pinned) then [f] else [])
            && SkipLeft(fields[..i + 1], extRcv, skip)
               == (if Visible(f, extRcv) && SkipLeft(before, extRcv, skip) > 0 && !f.pinned
                   then SkipLeft(before, extRcv, skip) - 1 else SkipLeft(before, extRcv, skip))
  {
    assert fields[..i + 1][..i] == fields[..i];
  }

  lemma {:induction false} ShownPrefix(fields: seq<Field>, extRcv: set<nat>, skip: nat, i: nat)
    requires i <= |fields|
    ensures Shown(fields[..i], extRcv, skip) <= Shown(fields, extRcv, skip)
    decreases |fields| - i
  {
    if i < |fields| {
      ShownPrefix(fields, extRcv, skip, i + 1);
      ShownGrows(fields, extRcv, skip, i);
    } else {
      assert fields[..i] == fields;
    }
  }

  lemma {:induction false} CellsPrefix(what: Content, shown: seq<Field>, family: Family, k: nat)
    requires k <= |shown|
    ensures Cells(what, shown, family)[..k] == Cells(what, shown[..k], family)
    decreases |shown|
  {
    if k < |shown| {
      CellsPrefix(what, shown[..|shown| - 1], family, k);
      assert shown[..|shown| - 1][..k] == shown[..k];
    } else {
      assert shown[..k] == shown;
    }
  }

  /** Painting one more cell. */
  lemma {:induction false} PaintedGrows(row: string, cells: seq<Cell>, cell: Cell)
    ensures var n, more := |cells|, cells + [cell];
            var before := Painted(row, cells, n);
            && Painted(row, more, n + 1)
               == Overlay(if n == 0 then before else Overlay(before, End(cells, n), " "),
                          if n == 0 then 0 else End(cells, n) + 1, cell.text)
            && End(more, n + 1) == (if n == 0 then 0 else End(cells, n) + 1) + cell.width
  {
    PaintedPrefix(row, cells, cells + [cell], |cells|);
  }

  /** A row drawn as far as some field: the state of both column loops. */
  datatype Pen = Pen(line: string, x: nat, skipX: nat, drawn: bool, places: seq<(Field, nat)>)

  ghost predicate PaintedCells(row: string, shown: seq<Field>, cells: seq<Cell>, pen: Pen)
  {
    && |cells| == |shown| && pen.places == Placed(shown, cells)
    && (pen.drawn <==> cells != [])
    && pen.x == End(cells, |cells|)
    && pen.line == Painted(row, cells, |cells|)
  }

  ghost predicate DrawnTo(v: View, what: Content, row: string, i: nat, pen: Pen)
    requires i <= |v.fields|
  {
    && pen.skipX == SkipLeft(v.fields[..i], v.extRcv, v.skip)
    && var shown := Shown(v.fields[..i], v.extRcv, v.skip);
       PaintedCells(row, shown, Cells(what, shown, v.family), pen)
  }

  /** Where the next column starts. */
  function NextColumn(pen: Pen): (x: nat)
  {
    if pen.drawn then pen.x + 1 else pen.x
  }

  function PutCell(f: Field, cell: Cell, pen: Pen): (r: Pen)
  {
    var at := NextColumn(pen);
    Pen(Overlay(if pen.drawn then Overlay(pen.line, pen.x, " ") else pen.line, at, cell.text),
        at + cell.width, pen.skipX, true, pen.places + [(f, at)])
  }

  lemma {:induction false} PutCellPaints(row: string, shown: seq<Field>, cells: seq<Cell>, f: Field, cell: Cell, pen: Pen)
    requires PaintedCells(row, shown, cells, pen)
    ensures PaintedCells(row, shown + [f], cells + [cell], PutCell(f, cell, pen))
  {
    PaintedGrows(row, cells, cell);
    PlacedGrows(shown, cells, f, cell);
  }

  lemma {:induction false} PlacedGrows(shown: seq<Field>, cells: seq<Cell>, f: Field, cell: Cell)
    requires |cells| == |shown|
    ensures Placed(shown + [f], cells + [cell])
         == Placed(shown, cells) + [(f, if cells == [] then 0 else End(cells, |cells|) + 1)]
  {
    var more, n := cells + [cell], |cells|;
    PaintedPrefix([], cells, more, n);
    forall k | 0 <= k < n ensures Start(more, k) == Start(cells, k) {
      PaintedPrefix([], cells, more, k);
    }
  }

  /** The next field: passed over, skipped, or drawn. */
  function NextPen(v: View, what: Content, f: Field, pen: Pen): (r: Pen)
  {
    if !Visible(f, v.extRcv) then pen
    else if pen.skipX > 0 && !f.pinned then pen.(skipX := pen.skipX - 1)
    else PutCell(f, CellOf(what, f, v.family), pen)
  }

  lemma {:induction false} CellsGrow(what: Content, shown: seq<Field>, f: Field, family: Family)
    ensures Cells(what, shown + [f], family) == Cells(what, shown, family) + [CellOf(what, f, family)]
  {
    assert (shown + [f])[..|shown|] == shown;
  }

  lemma {:induction false} PenAdvances(v: View, what: Content, row: string, i: nat, pen: Pen)
    requires i < |v.fields| && DrawnTo(v, what, row, i, pen)
    ensures DrawnTo(v, what, row, i + 1, NextPen(v, what, v.fields[i], pen))
  {
    var shown, f := Shown(v.fields[..i], v.extRcv, v.skip), v.fields[i];
    ShownGrows(v.fields, v.extRcv, v.skip, i);
    if Visible(f, v.extRcv) && (pen.skipX == 0 || f.pinned) {
      CellsGrow(what, shown, f, v.family);
      PutCellPaints(row, shown, Cells(what, shown, v.family), f, CellOf(what, f, v.family), pen);
    } else {
      assert shown + [] == shown;
    }
  }

  /** At the last field, or past the right edge, the row is complete. */
  lemma {:induction false} PenDone(v: View, what: Content, row: string, i: nat, pen: Pen)
    requires i <= |v.fields| && DrawnTo(v, what, row, i, pen) && (i == |v.fields| || pen.x >= |row|)
    ensures var all := Cells(what, Columns(v), v.family); pen.line == Painted(row, all, |all|)
  {
    var shown := Shown(v.fields[..i], v.extRcv, v.skip);
    if i == |v.fields| {
      assert v.fields[..i] == v.fields;
    } else {
      var part, all := Cells(what, shown, v.family), Cells(what, Columns(v), v.family);
      ShownPrefix(v.fields, v.extRcv, v.skip, i);
      assert shown == Columns(v)[..|shown|];
      CellsPrefix(what, Columns(v), v.family, |shown|);
      PaintedPrefix(row, part, all, |part|);
      PaintedBeyond(row, all, |part|, |all|);
    }
  }

  /** What is written first is the beginning of what the whole row writes. */
  lemma {:induction false} PlacesBegin(v: View, what: Content, row: string, i: nat, pen: Pen)
    requires i <= |v.fields| && DrawnTo(v, what, row, i, pen)
    ensures pen.places <= Places(v, what) && (i == |v.fields| ==> pen.places == Places(v, what))
  {
    var shown := Shown(v.fields[..i], v.extRcv, v.skip);
    var part, all := Cells(what, shown, v.family), Cells(what, Columns(v), v.family);
    ShownPrefix(v.fields, v.extRcv, v.skip, i);
    CellsPrefix(what, Columns(v), v.family, |shown|);
    assert shown == Columns(v)[..|shown|] && part == all[..|shown|];
    forall k | 0 <= k < |shown| ensures Placed(shown, part)[k] == Places(v, what)[k] {
      PaintedPrefix([], part, all, k);
    }
    if i == |v.fields| {
      assert v.fields[..i] == v.fields;
    }
  }

  /** Past the right edge, the rest is placed beyond it. */
  lemma {:induction false} PlacesBeyond(v: View, what: Content, row: string, i: nat, pen: Pen)
    requires i <= |v.fields| && DrawnTo(v, what, row, i, pen) && (i == |v.fields| || pen.x >= |row|)
    ensures |pen.places| <= |Places(v, what)|
    ensures forall k | |pen.places| <= k < |Places(v, what)| :: Places(v, what)[k].1 >= |row|
  {
    PlacesBegin(v, what, row, i, pen);
    var shown := Shown(v.fields[..i], v.extRcv, v.skip);
    var n, all := |shown|, Cells(what, Columns(v), v.family);
    if i < |v.fields| {
      ShownPrefix(v.fields, v.extRcv, v.skip, i);
      assert shown == Columns(v)[..n];
      CellsPrefix(what, Columns(v), v.family, n);
      PaintedPrefix([], Cells(what, shown, v.family), all, n);
      forall k | n <= k < |all| ensures Start(all, k) >= |row| {
        StartsBeyond(all, n, k, |row|);
      }
    }
  }

  /** One field of a connection's row. */
  method DrawField(win: Window, y: nat, v: View, c: Conn, f: Field, x: nat, skipX: nat, drawn: bool, ghost places: seq<(Field, nat)>)
      returns (rejects: bool, x': nat, skipX': nat, drawn': bool, ghost places': seq<(Field, nat)>)
    requires win.Valid() && y < win.lines.Length
    requires Visible(f, v.extRcv) && f.filterOn && f.extRcv in c.ext ==> f.filter.Some?
    modifies win.lines
    ensures win.Valid()
    ensures forall r | 0 <= r < win.lines.Length && r != y :: win.lines[r] == old(win.lines[r])
    ensures rejects <==> !Passes(f, v.extRcv, c)
    ensures !rejects ==>
              Pen(win.lines[y], x', skipX', drawn', places')
              == NextPen(v, Of(c), f, Pen(old(win.lines[y]), x, skipX, drawn, places))
  {
    rejects, x', skipX', drawn', places' := false, x, skipX, drawn, places;
    if !f.enabled {
      return;
    }
    if !f.drawable {
      return;
    }
    if f.extRcv !in v.extRcv {
      return;
    }
    rejects := FilterRejects(f, c);
    if rejects {
      return;
    }
    if skipX > 0 && !f.pinned {
      skipX' := skipX - 1;
      return;
    }
    var width := ColumnWidth(f, v.family);
    var text := if f.extRcv in c.ext then f.render(c) else Spaces(width);
    places' := places + [(f, if drawn then x + 1 else x)];
    x' := PutColumn(win, y, x, drawn, Cell(width, text));
    drawn' := true;
  }

  /** Draws a connection on row `y` until a filter rejects it. */
  method DrawProtocol(win: Window, y: nat, v: View, c: Conn) returns (rewind: bool, ghost places: seq<(Field, nat)>)
    requires win.Valid() && y < win.lines.Length && v.cols == win.cols && win.lines[y] == Spaces(v.cols)
    requires !FilterMissing(v, c)
    modifies win.lines
    ensures win.Valid()
    ensures forall r | 0 <= r < win.lines.Length && r != y :: win.lines[r] == old(win.lines[r])
    ensures rewind <==> !Accepted(v.fields, v.extRcv, c)
    ensures !rewind ==> win.lines[y] == RowText(v, Of(c)) && places == Places(v, Of(c))
  {
    ghost var row := win.lines[y];
    var x: nat, skipX: nat, drawn, i := 0, v.skip, false, 0;
    places, rewind := [], false;
    while i < |v.fields|
      invariant 0 <= i <= |v.fields| && win.Valid()
      invariant DrawnTo(v, Of(c), row, i, Pen(win.lines[y], x, skipX, drawn, places))
      invariant forall r | 0 <= r < win.lines.Length && r != y :: win.lines[r] == old(win.lines[r])
      invariant forall k | 0 <= k < i :: Passes(v.fields[k], v.extRcv, c)
    {
      PenAdvances(v, Of(c), row, i, Pen(win.lines[y], x, skipX, drawn, places));
      assert !MissingAt(v, c, i);
      rewind, x, skipX, drawn, places := DrawField(win, y, v, c, v.fields[i], x, skipX, drawn, places);
      if rewind {
        return;
      }
      i := i + 1;
    }
    ghost var pen := Pen(win.lines[y], x, skipX, drawn, places);
    PenDone(v, Of(c), row, i, pen);
    PlacesBegin(v, Of(c), row, i, pen);
  }

  /** One field of the header. */
  method DrawHeading(win: Window, v: View, f: Field, x: nat, skipX: nat, drawn: bool, ghost places: seq<(Field, nat)>)
      returns (x': nat, skipX': nat, drawn': bool, ghost places': seq<(Field, nat)>)
    requires win.Valid() && 0 < win.lines.Length
    modifies win.lines
    ensures win.Valid()
    ensures forall r | 0 <= r < win.lines.Length && r != 0 :: win.lines[r] == old(win.lines[r])
    ensures Pen(win.lines[0], x', skipX', drawn', places')
         == NextPen(v, Headers, f, Pen(old(win.lines[0]), x, skipX, drawn, places))
  {
    x', skipX', drawn', places' := x, skipX, drawn, places;
    if !f.enabled {
      return;
    }
    if !f.drawable {
      return;
    }
    if f.extRcv !in v.extRcv {
      return;
    }
    if skipX > 0 && !f.pinned {
      skipX' := skipX - 1;
      return;
    }
    var width := ColumnWidth(f, v.family);
    var text := f.header + Spaces(if |f.header| < width then width - |f.header| else 0);
    places' := places + [(f, if drawn then x + 1 else x)];
    x' := PutColumn(win, 0, x, drawn, Cell(width, text));
    drawn' := true;
  }

  /** Draws the header on row 0, stopping at the right edge. What it writes where is the
      beginning of what every row writes where, and the rest is beyond the edge. */
  method DrawHeader(win: Window, v: View) returns (ghost places: seq<(Field, nat)>)
    requires win.Valid() && 0 < win.lines.Length && v.cols == win.cols && win.lines[0] == Spaces(v.cols)
    modifies win.lines
    ensures win.Valid()
    ensures forall r | 0 <= r < win.lines.Length && r != 0 :: win.lines[r] == old(win.lines[r])
    ensures win.lines[0] == RowText(v, Headers)
    ensures HeaderPlaces(v, places)
  {
    ghost var row := win.lines[0];
    var x: nat, skipX: nat, drawn, i := 0, v.skip, false, 0;
    places := [];
    while i < |v.fields| && x < v.cols
      invariant 0 <= i <= |v.fields| && win.Valid()
      invariant DrawnTo(v, Headers, row, i, Pen(win.lines[0], x, skipX, drawn, places))
      invariant forall r | 0 <= r < win.lines.Length && r != 0 :: win.lines[r] == old(win.lines[r])
    {
      PenAdvances(v, Headers, row, i, Pen(win.lines[0], x, skipX, drawn, places));
      x, skipX, drawn, places := DrawHeading(win, v, v.fields[i], x, skipX, drawn, places);
      i := i + 1;
    }
    ghost var pen := Pen(win.lines[0], x, skipX, drawn, places);
    PenDone(v, Headers, row, i, pen);
    HeaderBegins(v, row, i, pen);
  }

  lemma {:induction false} HeaderBegins(v: View, row: string, i: nat, pen: Pen)
    requires i <= |v.fields| && DrawnTo(v, Headers, row, i, pen) && (i == |v.fields| || pen.x >= |row|) && |row| == v.cols
    ensures HeaderPlaces(v, pen.places)
  {
    PlacesBegin(v, Headers, row, i, pen);
    PlacesBeyond(v, Headers, row, i, pen);
    forall c ensures Places(v, Of(c)) == Places(v, Headers) {
      SamePlaces(v, c);
    }
  }

  ghost predicate HeaderPlaces(v: View, places: seq<(Field, nat)>)
  {
    forall c :: places <= Places(v, Of(c)) && forall k | |places| <= k < |Places(v, Of(c))| :: Places(v, Of(c))[k].1 >= v.cols
  }

  // ----- the whole frame

  /** The rows painted so far: header, `shown` connections, blanks. */
  ghost predicate PaintedTo(win: Window, v: View, shown: seq<Conn>)
    reads win, win.lines
  {
    && win.cols == v.cols && win.Valid() && |shown| < win.lines.Length
    && forall y | 0 <= y < win.lines.Length :: win.lines[y] == FrameRow(v, shown, y)
  }

  /** Draws one connection on the first blank row; a rejected one leaves it blank. */
  method DrawConnection(win: Window, y: nat, v: View, c: Conn, ghost shown: seq<Conn>) returns (y': nat)
    requires PaintedTo(win, v, shown) && y == |shown| + 1 && y < win.lines.Length
    requires !FilterMissing(v, c)
    modifies win.lines
    ensures var shown' := shown + if Accepted(v.fields, v.extRcv, c) then [c] else [];
            PaintedTo(win, v, shown') && y' == |shown'| + 1
  {
    var rewind;
    ghost var places;
    rewind, places := DrawProtocol(win, y, v, c);
    if rewind {
      OverlayBlank(win.lines[y]);
      win.Print(y, 0, Spaces(v.cols));
      assert shown + [] == shown;
      y' := y;
    } else {
      y' := y + 1;
    }
  }

  /** How far down the list row drawing has come after `i` entries. */
  ghost function ShownAfter(v: View, cs: seq<Conn>, skip: nat, i: nat): (shown: seq<Conn>)
    requires skip <= |cs| && i <= |cs|
    ensures |shown| <= i
  {
    if i < skip then [] else AcceptedConns(v, cs[skip..i])
  }

  lemma {:induction false} ShownAfterNext(v: View, cs: seq<Conn>, skip: nat, i: nat)
    requires skip <= |cs| && i < |cs|
    ensures ShownAfter(v, cs, skip, i + 1)
         == ShownAfter(v, cs, skip, i) + if i >= skip && Accepted(v.fields, v.extRcv, cs[i]) then [cs[i]] else []
  {
    if i >= skip {
      assert cs[skip..i + 1][..i - skip] == cs[skip..i];
    }
  }

  /** Passes over or draws the entry at the front of the list. */
  method DrawFront(win: Window, y: nat, v: View, list: ConnList, ci: Link, p: Link, ghost nodes: seq<Link>,
                   ghost cs: seq<Conn>, ghost skip: nat, ghost i: nat, skipY: nat) returns (y': nat, skipY': nat)
    requires list.Draining(ci, p, nodes, cs, i) && i < |nodes| && skip <= |cs|
    requires PaintedTo(win, v, ShownAfter(v, cs, skip, i)) && y == |ShownAfter(v, cs, skip, i)| + 1
    requires win.lines.Length == |nodes| + 1 && skipY == if i < skip then skip - i else 0
    requires i >= skip ==> !FilterMissing(v, cs[i])
    modifies win.lines
    ensures PaintedTo(win, v, ShownAfter(v, cs, skip, i + 1)) && y' == |ShownAfter(v, cs, skip, i + 1)| + 1
    ensures skipY' == if i + 1 < skip then skip - (i + 1) else 0
  {
    ShownAfterNext(v, cs, skip, i);
    y', skipY' := y, skipY;
    if skipY > 0 {
      skipY' := skipY - 1;
      assert ShownAfter(v, cs, skip, i) + [] == ShownAfter(v, cs, skip, i);
    } else {
      list.FrontConn(ci, p, nodes, cs, i);
      y' := DrawConnection(win, y, v, ci.info.value, ShownAfter(v, cs, skip, i));
    }
  }

  /** Draws or passes over the front entry, then drops it from the list. */
  method DrawAndDrop(win: Window, y: nat, v: View, list: ConnList, ci: Link, p: Link, ghost nodes: seq<Link>,
                     ghost cs: seq<Conn>, ghost skip: nat, ghost i: nat, skipY: nat)
      returns (y': nat, skipY': nat, ci': Link, p': Link)
    requires list.Draining(ci, p, nodes, cs, i) && i < |nodes| && skip <= |cs|
    requires PaintedTo(win, v, ShownAfter(v, cs, skip, i)) && y == |ShownAfter(v, cs, skip, i)| + 1
    requires win.lines.Length == |nodes| + 1 && skipY == if i < skip then skip - i else 0
    requires i >= skip ==> !FilterMissing(v, cs[i])
    modifies win.lines, list, list.head, list.nodes
    ensures list.Draining(ci', p', nodes, cs, i + 1)
    ensures PaintedTo(win, v, ShownAfter(v, cs, skip, i + 1)) && y' == |ShownAfter(v, cs, skip, i + 1)| + 1
    ensures skipY' == if i + 1 < skip then skip - (i + 1) else 0
  {
    y', skipY' := DrawFront(win, y, v, list, ci, p, nodes, cs, skip, i, skipY);
    assert list.Draining(ci, p, nodes, cs, i);
    ci', p' := list.DrainNext(ci, p, nodes, cs, i);
  }

  /** Draws all rows and drains the list: every entry is unlinked and freed once. */
  method DrawRows(win: Window, v: View, list: ConnList, skip: nat)
    requires list.Valid() && list.Counted() && list.NoLeak() && skip <= |list.nodes|
    requires PaintedTo(win, v, []) && win.lines.Length == |list.nodes| + 1
    requires forall i | skip <= i < |list.nodes| :: !FilterMissing(v, list.Conns()[i])
    modifies win.lines, list, list.head, list.nodes
    ensures list.Valid() && list.Counted() && list.nodes == [] && list.live == {}
    ensures PaintedTo(win, v, AcceptedConns(v, old(list.Conns())[skip..]))
  {
    ghost var cs, nodes, i := list.Conns(), list.nodes, 0;
    var y, skipY := 1, skip;
    var ci, p := list.StartDraining();
    while ci != list.head
      invariant list.Draining(ci, p, nodes, cs, i)
      invariant skipY == if i < skip then skip - i else 0
      invariant PaintedTo(win, v, ShownAfter(v, cs, skip, i)) && y == |ShownAfter(v, cs, skip, i)| + 1
      decreases |nodes| - i
    {
      y, skipY, ci, p := DrawAndDrop(win, y, v, list, ci, p, nodes, cs, skip, i, skipY);
      i := i + 1;
    }
    list.DrainingDone(ci, p, nodes, cs, i);
    assert cs[skip..i] == cs[skip..];
  }

  /** The frame itself: header, then rows, on a window one row higher than the list. */
  method DrawFrame(v: View, list: ConnList, skip: nat) returns (win: Window)
    requires list.Valid() && list.Counted() && list.NoLeak() && skip <= |list.nodes|
    requires forall i | skip <= i < |list.nodes| :: !FilterMissing(v, list.Conns()[i])
    modifies list, list.head, list.nodes
    ensures list.Valid() && list.Counted() && list.nodes == [] && list.live == {}
    ensures fresh(win) && fresh(win.lines) && win.lines.Length == |old(list.nodes)| + 1
    ensures PaintedTo(win, v, AcceptedConns(v, old(list.Conns())[skip..]))
  {
    win := new Window(list.nrConns + 1, v.cols);
    ghost var places := DrawHeader(win, v);
    DrawRows(win, v, list, skip);
  }
}
