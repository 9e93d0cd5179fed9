/** What each key leads to, key by key, and what a line of the field screen reads. Keys
    are given by their codes. */
module KeyTable {
  import opened Types
  import opened FilterText
  import opened FieldEditor
  import opened UiModel
  import opened FieldView

  /** The keys of the main screen. */
  lemma {:induction false} MainKeys(ui: Ui, env: Env, input: string)
    requires Inv(ui) && ui.screen.MainScreen?
    ensures Step(ui, env, '4', input) == (ui.(family := Inet), input)
    ensures Step(ui, env, '6', input) == (ui.(family := Inet6), input)
    ensures Step(ui, env, 't', input) == (ui.(protocol := Tcp), input)
    ensures Step(ui, env, 'u', input) == (ui.(protocol := Udp), input)
    ensures Step(ui, env, 'f', input) == (ui.(screen := FieldScreen), input)
    ensures Step(ui, env, 'h', input) == (ui.(screen := HelpScreen), input)
    ensures Step(ui, env, 'q', input) == (ui.(stop := true), input)
    ensures Step(ui, env, '\U{0003}', input) == (ui.(stop := true), input)
  {
  }

  /** Down, up, left and right scroll by one, but not before the beginning. */
  lemma {:induction false} ScrollKeys(ui: Ui, env: Env, input: string)
    requires Inv(ui) && ui.screen.MainScreen?
    ensures Step(ui, env, '\U{0102}', input) == (ui.(scrollY := ui.scrollY + 1), input)
    ensures Step(ui, env, '\U{0103}', input) == (ui.(scrollY := if ui.scrollY > 0 then ui.scrollY - 1 else 0), input)
    ensures Step(ui, env, '\U{0104}', input) == (ui.(scrollX := if ui.scrollX > 0 then ui.scrollX - 1 else 0), input)
    ensures Step(ui, env, '\U{0105}', input) == (ui.(scrollX := ui.scrollX + 1), input)
  {
  }

  /** The page keys scroll by half the lines below the first four. */
  lemma {:induction false} ScrollPages(ui: Ui, env: Env, input: string)
    requires Inv(ui) && ui.screen.MainScreen? && env.lines >= 4
    ensures Step(ui, env, '\U{0152}', input) == (ui.(scrollY := ui.scrollY + (env.lines - 4) / 2), input)
    ensures var y := ui.scrollY - (env.lines - 4) / 2;
            Step(ui, env, '\U{0153}', input) == (ui.(scrollY := if y > 0 then y else 0), input)
  {
  }

  /** The delay dialog takes a number from 1 to 255. */
  lemma {:induction false} DelayKey(ui: Ui, env: Env, n: nat, rest: string)
    requires Inv(ui) && ui.screen.MainScreen?
    ensures Step(ui, env, 'd', Digits(n) + ['\n'] + rest) == (ui.(delay := if 1 <= n <= 255 then n else ui.delay), rest)
  {
    LineOf(Digits(n), '\n', rest);
    DecimalOfDigits(n);
  }

  /** The help screen is left with `q` or escape. */
  lemma {:induction false} HelpKeys(ui: Ui, env: Env, input: string)
    requires Inv(ui) && ui.screen.HelpScreen?
    ensures Step(ui, env, 'q', input) == (ui.(screen := MainScreen), input)
    ensures Step(ui, env, '\U{001b}', input) == (ui.(screen := MainScreen), input)
  {
  }

  // ----- the field screen

  /** A blank shows or hides the field under the cursor, `p` pins it or lets it go. */
  lemma {:induction false} ToggleKeys(ui: Ui, env: Env, input: string)
    requires Inv(ui) && ui.screen.FieldScreen?
    ensures var f := ui.fields[ui.cursor];
            var on := ui.(fields := ui.fields[ui.cursor := f.(enabled := !f.enabled)]);
            Step(ui, env, ' ', input) == (if f.drawable then on else ui, input)
    ensures var f := ui.fields[ui.cursor];
            var pin := ui.(fields := ui.fields[ui.cursor := f.(pinned := !f.pinned)]);
            Step(ui, env, 'p', input) == (if f.drawable then pin else ui, input)
  {
  }

  /** `f` switches a filter that is on off, and does nothing to a heading. */
  lemma {:induction false} FilterOff(ui: Ui, env: Env, input: string)
    requires Inv(ui) && ui.screen.FieldScreen?
    ensures var f := ui.fields[ui.cursor];
            && (!f.drawable ==> Step(ui, env, 'f', input) == (ui, input))
            && (f.drawable && f.filterOn ==>
                  Step(ui, env, 'f', input) == (ui.(fields := ui.fields[ui.cursor := f.(filterOn := false)]), input))
  {
  }

  /** `f` on a field whose filter is off runs its dialog; the filter that the dialog leaves
      is switched on unless the line was wrong. */
  lemma {:induction false} FilterOn(ui: Ui, env: Env, line: string, rest: string)
    requires Inv(ui) && ui.screen.FieldScreen? && NoEol(line)
    requires var f := ui.fields[ui.cursor]; f.drawable && !f.filterOn && (f.kind.NumberKind? || f.kind.TextKind?)
    ensures var f := ui.fields[ui.cursor];
            var o := CommonOutcome(f.kind, line, f.filter);
            Step(ui, env, 'f', line + ['\n'] + rest)
            == (ui.(fields := ui.fields[ui.cursor := f.(filter := o.filter, filterOn := !o.err)]), rest)
  {
    LineOf(line, '\n', rest);
  }

  /** The cursor moves by one row and stays in the table. */
  lemma {:induction false} CursorKeys(ui: Ui, env: Env, input: string)
    requires Inv(ui) && ui.screen.FieldScreen?
    ensures Step(ui, env, '\U{0102}', input) == (ui.(cursor := if ui.cursor < |ui.fields| - 1 then ui.cursor + 1 else ui.cursor), input)
    ensures Step(ui, env, '\U{0103}', input) == (ui.(cursor := if ui.cursor > 0 then ui.cursor - 1 else 0), input)
  {
  }

  lemma {:induction false} CursorPages(ui: Ui, env: Env, input: string)
    requires Inv(ui) && ui.screen.FieldScreen? && env.lines >= 4
    ensures var y, last := ui.cursor + (env.lines - 4) / 2, |ui.fields| - 1;
            Step(ui, env, '\U{0152}', input) == (ui.(cursor := if y < last then y else last), input)
    ensures var y := ui.cursor - (env.lines - 4) / 2;
            Step(ui, env, '\U{0153}', input) == (ui.(cursor := if y > 0 then y else 0), input)
  {
  }

  /** Right selects the field under the cursor, Left puts the selected field there and,
      unless that is where it is or a heading, takes the selection back. */
  lemma {:induction false} MoveKeys(ui: Ui, env: Env, input: string)
    requires Inv(ui) && ui.screen.FieldScreen?
    ensures ui.sel.None? && ui.fields[ui.cursor].drawable ==>
              Step(ui, env, '\U{0105}', input) == (ui.(sel := Some(ui.cursor as nat)), input)
    ensures ui.sel.Some? || !ui.fields[ui.cursor].drawable ==> Step(ui, env, '\U{0105}', input) == (ui, input)
    ensures ui.sel.None? || ui.sel.value == ui.cursor || !ui.fields[ui.cursor].drawable ==>
              Step(ui, env, '\U{0104}', input) == (ui, input)
  {
  }

  lemma {:induction false} MoveMoves(ui: Ui, env: Env, input: string)
    requires Inv(ui) && ui.screen.FieldScreen?
    requires ui.sel.Some? && ui.sel.value != ui.cursor && ui.fields[ui.cursor].drawable
    ensures var after := Step(ui, env, '\U{0104}', input).0;
            var from, to := ui.sel.value, ui.cursor;
            && after.sel.None? && |after.fields| == |ui.fields| && after.fields[to] == ui.fields[from]
            && (forall i | from < i <= to :: after.fields[i - 1] == ui.fields[i])
            && (forall i | to <= i < from :: after.fields[i + 1] == ui.fields[i])
            && (forall i | 0 <= i < |ui.fields| && ((i < from && i < to) || (i > from && i > to)) :: after.fields[i] == ui.fields[i])
  {
    MovedRows(ui.fields, ui.sel.value, ui.cursor);
  }

  /** `s` sorts by the field under the cursor, descending first, then ascending, then not. */
  lemma {:induction false} SortKeys(ui: Ui, env: Env, input: string)
    requires Inv(ui) && ui.screen.FieldScreen?
    ensures ui.sortKey != Some(ui.cursor as nat) ==>
              Step(ui, env, 's', input) == (ui.(sortKey := Some(ui.cursor as nat), ascending := false), input)
    ensures ui.sortKey == Some(ui.cursor as nat) && !ui.ascending ==> Step(ui, env, 's', input) == (ui.(ascending := true), input)
    ensures ui.sortKey == Some(ui.cursor as nat) && ui.ascending ==> Step(ui, env, 's', input) == (ui.(sortKey := None), input)
  {
  }

  /** `q` and escape go back to the main screen; owners, for instance, are then asked for
      exactly if a field that is switched on asks for them. */
  lemma {:induction false} QuitKeys(ui: Ui, env: Env, input: string, key: char)
    requires Inv(ui) && ui.screen.FieldScreen? && key in {'q', '\U{001b}'}
    ensures var after := Step(ui, env, key, input).0;
            && after == ui.(extReq := after.extReq, sel := None, screen := MainScreen)
            && forall k: nat :: k in after.extReq <==> k != 0 && exists i :: 0 <= i < |ui.fields| && ui.fields[i].enabled && ui.fields[i].extReq == k
  {
  }

  /** The state at start: the main screen on TCP over IPv4, unsorted, three seconds apart. */
  lemma {:induction false} Start(table: seq<Field>)
    requires InitialTable(table)
    ensures var ui := InitialUi(table);
            && ui.fields == table && ui.screen == MainScreen && !ui.stop && ui.sortKey.None? && ui.sel.None?
            && ui.family == Inet && ui.protocol == Tcp && ui.delay == 30
            && ui.scrollX == 0 && ui.scrollY == 0 && ui.cursor == 0 && ui.extReq == {}
  {
  }

  // ----- what the field screen reads

  /** As many rows as fit below the first four lines, one after the other, the first of
      them being on top as long as the table fits. */
  lemma {:induction false} RowsFill(ui: Ui, env: Env)
    requires Inv(ui) && env.lines >= 4
    ensures var first, n := FirstRow(ui.cursor, |ui.fields|, env.lines), |ui.fields|;
            && |Rows(ui, env)| == (if n < env.lines - 4 then n else env.lines - 4)
            && first + |Rows(ui, env)| <= n && (n <= env.lines - 4 ==> first == 0)
            && forall r | 0 <= r < |Rows(ui, env)| :: Rows(ui, env)[r] == RowAt(ui, first + r, env.cols)
  {
  }

  /** The cursor's row is in the middle as far as the table goes. */
  lemma {:induction false} FirstRowIs(cursor: nat, rows: nat, lines: int)
    requires lines >= 4 && cursor < rows
    ensures var last, first := rows - (lines - 4), cursor - (lines - 4) / 2;
            FirstRow(cursor, rows, lines) == if last < 0 || first < 0 then 0 else if first < last then first else last
  {
  }

  /** The text of a row: the name in 25 columns, right-aligned unless it is a heading, then
      `P`, `A` or `D`, and `F`, each behind a blank, then the description. */
  lemma {:induction false} RowReads(f: Field, isKey: bool, ascending: bool, highlighted: bool, cols: nat)
    requires |f.header| <= 25 && cols >= 32 + |f.desc|
    ensures var row := DrawnRow(f, isKey, ascending, highlighted, cols);
            && |row.text| == 32 + |f.desc|
            && row.text[if f.drawable then 25 - |f.header| else 0..][..|f.header|] == f.header
            && row.text[26] == (if f.pinned then 'P' else ' ')
            && row.text[28] == (if isKey then (if ascending then 'A' else 'D') else ' ')
            && row.text[30] == (if f.filterOn then 'F' else ' ')
            && row.text[32..] == f.desc
            && (row.bold <==> f.drawable && f.enabled) && (row.underlined <==> !f.drawable) && row.reverse == highlighted
  {
    var fill := Layout.Spaces(25 - |f.header|);
    var name := if f.drawable then fill + f.header else f.header + fill;
    var row := DrawnRow(f, isKey, ascending, highlighted, cols);
    assert row.text[..25] == name;
    assert row.text[if f.drawable then 25 - |f.header| else 0..][..|f.header|] == f.header;
  }

  /** The sort marker is at the sort key and the cursor at its row, while nothing is selected. */
  lemma {:induction false} MarkedRows(ui: Ui, i: nat, cols: nat)
    requires Inv(ui) && ui.sel.None? && i < |ui.fields|
    ensures RowAt(ui, i, cols) == DrawnRow(ui.fields[i], ui.sortKey == Some(i), ui.ascending, i == ui.cursor, cols)
  {
  }
}
