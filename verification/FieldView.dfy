/** What the field screen shows, including the preview of a move. */
module FieldView {
  import opened Types
  import opened FieldEditor
  import opened UiModel
  import Layout

  /** One drawn line of the field screen: its text and how it is set. */
  datatype Row = Row(text: string, bold: bool, underlined: bool, reverse: bool)

  const NAME_WIDTH := 25

  /** The name, right-aligned unless it is a heading. */
  function NameText(f: Field): (s: string)
  {
    var fill := Layout.Spaces(if |f.header| < NAME_WIDTH then NAME_WIDTH - |f.header| else 0);
    if f.drawable then fill + f.header else f.header + fill
  }

  function Marker(isKey: bool, ascending: bool): (c: char)
  {
    if isKey then (if ascending then 'A' else 'D') else ' '
  }

  /** The line of a field, cut at the right edge. */
  function DrawnRow(f: Field, isKey: bool, ascending: bool, highlighted: bool, cols: nat): (r: Row)
  {
    var flags := [' ', if f.pinned then 'P' else ' ', ' ', Marker(isKey, ascending), ' ', if f.filterOn then 'F' else ' ', ' '];
    var text := NameText(f) + flags + f.desc;
    Row(if |text| > cols then text[..cols] else text, f.drawable && f.enabled, !f.drawable, highlighted)
  }

  /** The row drawn for table position `i`: while a field is selected, the preview. */
  function RowAt(ui: Ui, i: nat, cols: nat): (r: Row)
    requires Shown(ui) && i < |ui.fields|
  {
    var k := if ui.sel.None? then i else PreviewIndex(i, ui.sel.value, ui.cursor);
    DrawnRow(ui.fields[k], ui.sortKey == Some(k), ui.ascending, i == ui.cursor, cols)
  }

  predicate Shown(ui: Ui)
  {
    0 <= ui.cursor < |ui.fields| && (ui.sel.Some? ==> ui.sel.value < |ui.fields|)
  }

  /** How many rows are scrolled away; the source lets it go below zero for a table
      shorter than the screen. */
  function Skip(cursor: int, rows: nat, lines: int): (s: int)
  {
    var s := cursor - HalfPage(lines);
    var s := if s < 0 then 0 else s;
    if rows - s < lines - 4 then rows - (lines - 4) else s
  }

  function FirstRow(cursor: int, rows: nat, lines: int): (first: nat)
  {
    if Skip(cursor, rows, lines) < 0 then 0 else Skip(cursor, rows, lines)
  }

  /** How many rows there is room for. */
  function RowCount(cursor: int, rows: nat, lines: int): (n: nat)
  {
    var left := rows - FirstRow(cursor, rows, lines);
    var room := lines - 4;
    if room <= 0 || left <= 0 then 0 else if room < left then room else left
  }

  /** The whole field screen below its help lines. */
  function Rows(ui: Ui, env: Env): (rows: seq<Row>)
    requires Shown(ui)
    ensures |rows| == RowCount(ui.cursor, |ui.fields|, env.lines)
  {
    var first := FirstRow(ui.cursor, |ui.fields|, env.lines);
    seq(RowCount(ui.cursor, |ui.fields|, env.lines),
        r requires 0 <= r < RowCount(ui.cursor, |ui.fields|, env.lines) => RowAt(ui, first + r, env.cols))
  }

  /** With at least 5 lines the cursor's row is on the screen. */
  lemma {:induction false} CursorVisible(cursor: int, rows: nat, lines: int)
    requires lines >= 5 && 0 <= cursor < rows
    ensures FirstRow(cursor, rows, lines) <= cursor < FirstRow(cursor, rows, lines) + lines - 4
    ensures cursor - FirstRow(cursor, rows, lines) < RowCount(cursor, rows, lines)
  {
  }

  /** Committing a move changes nothing on the screen: every row of the preview,
      marker included, is the row of the moved table. */
  lemma {:induction false} CommitShowsPreview(ui: Ui, env: Env)
    requires Inv(ui) && Commits(ui)
    ensures Rows(LeftKey(ui), env) == Rows(ui, env)
  {
    forall i: nat | i < |ui.fields| ensures RowAt(LeftKey(ui), i, env.cols) == RowAt(ui, i, env.cols) {
      PreviewShowsMove(ui.fields, ui.sel.value, ui.cursor, i);
      if ui.sortKey.Some? {
        assert MovedIndex(ui.sortKey.value, ui.sel.value, ui.cursor) == i
               <==> ui.sortKey.value == PreviewIndex(i, ui.sel.value, ui.cursor);
      }
    }
  }

  /** Selecting a field changes nothing on the screen either. */
  lemma {:induction false} SelectShowsSame(ui: Ui, env: Env)
    requires Inv(ui)
    ensures Shown(RightKey(ui)) && Rows(RightKey(ui), env) == Rows(ui, env)
  {
    forall i: nat | i < |ui.fields| ensures RowAt(RightKey(ui), i, env.cols) == RowAt(ui, i, env.cols) {
    }
  }

  lemma {:induction false} ScreenShowsSame(ui: Ui, screen: Screen, env: Env)
    requires Shown(ui)
    ensures Rows(ui.(screen := screen), env) == Rows(ui, env)
  {
    forall i: nat | i < |ui.fields| ensures RowAt(ui.(screen := screen), i, env.cols) == RowAt(ui, i, env.cols) {
    }
  }
}
