/** What each key does to the program's state, and what every run of keys keeps. */
module UiModel {
  import opened Types
  import opened Keys
  import opened Comparators
  import opened Prefix
  import opened FilterText
  import opened FilterDialog
  import opened FieldEditor

  /** The size of the terminal and the address parser, fixed for a run. */
  datatype Env = Env(lines: int, cols: nat, pton: Pton)

  /** `(lines - 4) / 2`, rounding towards zero as C does. */
  function HalfPage(lines: int): (h: int)
  {
    if lines >= 4 then (lines - 4) / 2 else -((4 - lines) / 2)
  }

  /** The request bits of the enabled fields; a field that asks for nothing has number 0. */
  function RequestBits(fields: seq<Field>): (bits: set<nat>)
  {
    set i | 0 <= i < |fields| && fields[i].enabled && fields[i].extReq != 0 :: fields[i].extReq
  }

  predicate IsSomePrefixMask(mask: Bytes16)
  {
    exists k :: 0 <= k <= 128 && IsPrefixMask(mask, k)
  }

  /** What the dialog of a kind of field can make. */
  predicate MadeBy(kind: Kind, flt: Filter)
  {
    match flt
    case NumberFilter(_, v) => kind.NumberKind? && v < U64
    case TextFilter(_, s) => kind.TextKind? && s != [] && |s| < BUFFER && AllAccepted(TextKind, s)
    case AddressFilter(op, _, _, mask) => kind.AddressKind? && op in {EQ, NE} && IsSomePrefixMask(mask)
    case ChoiceFilter(selected) => kind.ChoiceKind? && forall v | v in selected :: kind.first <= v <= kind.last
  }

  /** The field's filter, if it has one, is one that its dialog makes. */
  predicate RightFilter(f: Field)
  {
    f.filter.Some? ==> MadeBy(f.kind, f.filter.value)
  }

  ghost predicate GoodField(f: Field)
  {
    RightFilter(f) && (f.kind.ChoiceKind? ==> f.kind.first <= f.kind.last) && ReadsCStrings(f)
  }

  /** What every reachable state satisfies. */
  ghost predicate Inv(ui: Ui)
  {
    && 0 <= ui.cursor < |ui.fields|
    && (ui.sel.Some? ==> ui.sel.value < |ui.fields| && ui.fields[ui.sel.value].drawable && ui.screen.FieldScreen?)
    && (ui.sortKey.Some? ==> ui.sortKey.value < |ui.fields|)
    && (!ui.screen.FieldScreen? ==> ui.extReq == RequestBits(ui.fields))
    && (forall i | 0 <= i < |ui.fields| :: GoodField(ui.fields[i]))
    && ui.scrollX >= 0 && ui.scrollY >= 0
  }

  function AtCursor(ui: Ui): (f: Field)
    requires 0 <= ui.cursor < |ui.fields|
  {
    ui.fields[ui.cursor]
  }

  function SetAtCursor(ui: Ui, f: Field): (r: Ui)
    requires 0 <= ui.cursor < |ui.fields|
  {
    ui.(fields := ui.fields[ui.cursor := f])
  }

  // ----- keys of the field screen

  function SpaceKey(ui: Ui): (r: Ui)
    requires 0 <= ui.cursor < |ui.fields|
  {
    var f := AtCursor(ui);
    if f.drawable then SetAtCursor(ui, f.(enabled := !f.enabled)) else ui
  }

  function PinKey(ui: Ui): (r: Ui)
    requires 0 <= ui.cursor < |ui.fields|
  {
    var f := AtCursor(ui);
    if f.drawable then SetAtCursor(ui, f.(pinned := !f.pinned)) else ui
  }

  /** The filter dialog of a field: what it returns and the input it leaves. */
  function Dialog(f: Field, pton: Pton, input: string): (r: (Outcome, string))
    requires GoodField(f)
  {
    match f.kind
    case AddressKind => (AddressOutcome(FirstLine(input), f.filter, AddressParser(pton)), AfterLine(input))
    case ChoiceKind(first, last) =>
      var r := Choose(input, first, last, 1, SelectedIn(f.filter));
      (ChoiceOutcome(r.0, f.filter), r.1)
    case _ => (CommonOutcome(f.kind, FirstLine(input), f.filter), AfterLine(input))
  }

  /** The user types the dialog to its end. */
  predicate DialogTyped(f: Field, input: string)
  {
    if f.kind.ChoiceKind? then HasChoiceEnd(input) else HasEol(input)
  }

  /** The dialog writes behind its buffer. */
  predicate DialogOverruns(f: Field, input: string)
  {
    !f.kind.ChoiceKind? && !FitsBuffer(f.kind, FirstLine(input))
  }

  predicate DialogReady(f: Field, input: string)
  {
    DialogTyped(f, input) && !DialogOverruns(f, input)
  }

  function FilterKey(ui: Ui, pton: Pton, input: string): (r: (Ui, string))
    requires 0 <= ui.cursor < |ui.fields| && GoodField(AtCursor(ui))
  {
    var f := AtCursor(ui);
    if !f.drawable then (ui, input)
    else if f.filterOn then (SetAtCursor(ui, f.(filterOn := false)), input)
    else
      var (o, rest) := Dialog(f, pton, input);
      (SetAtCursor(ui, f.(filter := o.filter, filterOn := !o.err)), rest)
  }

  function FieldQuitKey(ui: Ui): (r: Ui)
  {
    ui.(extReq := RequestBits(ui.fields), sel := None, screen := MainScreen)
  }

  function SortKey(ui: Ui): (r: Ui)
    requires 0 <= ui.cursor
  {
    if ui.sortKey == Some(ui.cursor as nat) then
      if !ui.ascending then ui.(ascending := true) else ui.(sortKey := None)
    else
      ui.(sortKey := Some(ui.cursor as nat), ascending := false)
  }

  function DownKey(ui: Ui): (r: Ui)
  {
    if ui.cursor >= |ui.fields| - 1 then ui else ui.(cursor := ui.cursor + 1)
  }

  function UpKey(ui: Ui): (r: Ui)
  {
    if ui.cursor <= 0 then ui else ui.(cursor := ui.cursor - 1)
  }

  function PageDownKey(ui: Ui, lines: int): (r: Ui)
  {
    if ui.cursor >= |ui.fields| - 1 then ui
    else
      var y := ui.cursor + HalfPage(lines);
      ui.(cursor := if y > |ui.fields| - 1 then |ui.fields| - 1 else y)
  }

  function PageUpKey(ui: Ui, lines: int): (r: Ui)
  {
    if ui.cursor <= 0 then ui
    else
      var y := ui.cursor - HalfPage(lines);
      ui.(cursor := if y < 0 then 0 else y)
  }

  function RightKey(ui: Ui): (r: Ui)
    requires 0 <= ui.cursor < |ui.fields|
  {
    if ui.sel.Some? || !AtCursor(ui).drawable then ui else ui.(sel := Some(ui.cursor as nat))
  }

  /** Does this state's Left key move the selected field? */
  predicate Commits(ui: Ui)
    requires 0 <= ui.cursor < |ui.fields|
  {
    ui.sel.Some? && ui.sel.value < |ui.fields| && AtCursor(ui).drawable && ui.sel.value != ui.cursor
  }

  function LeftKey(ui: Ui): (r: Ui)
    requires 0 <= ui.cursor < |ui.fields|
  {
    if !Commits(ui) then ui
    else
      ui.(fields := Moved(ui.fields, ui.sel.value, ui.cursor),
          sortKey := match ui.sortKey case None => None
                                      case Some(k) => Some(MovedIndex(k, ui.sel.value, ui.cursor)),
          sel := None)
  }

  // ----- dispatch

  function MainKey(ui: Ui, lines: int, key: char, input: string): (r: (Ui, string))
  {
    if key == 'd' then (ui.(delay := DelayOutcome(FirstLine(input), ui.delay)), AfterLine(input))
    else (PlainMainKey(ui, lines, key), input)
  }

  /** The keys of the main screen that open no dialog. */
  function PlainMainKey(ui: Ui, lines: int, key: char): (r: Ui)
  {
    if key == CTRL_C || key == 'q' then ui.(stop := true)
    else if key == '4' then ui.(family := Inet)
    else if key == '6' then ui.(family := Inet6)
    else if key == 'f' then ui.(screen := FieldScreen)
    else if key == 'h' then ui.(screen := HelpScreen)
    else if key == 't' then ui.(protocol := Tcp)
    else if key == 'u' then ui.(protocol := Udp)
    else ScrollKey(ui, lines, key)
  }

  function ScrollKey(ui: Ui, lines: int, key: char): (r: Ui)
  {
    if key == KEY_DOWN then ui.(scrollY := ui.scrollY + 1)
    else if key == KEY_UP then (if ui.scrollY <= 0 then ui else ui.(scrollY := ui.scrollY - 1))
    else if key == KEY_LEFT then (if ui.scrollX <= 0 then ui else ui.(scrollX := ui.scrollX - 1))
    else if key == KEY_RIGHT then ui.(scrollX := ui.scrollX + 1)
    else if key == KEY_NPAGE then ui.(scrollY := ui.scrollY + HalfPage(lines))
    else if key == KEY_PPAGE then
      (if ui.scrollY <= 0 then ui
       else
         var y := ui.scrollY - HalfPage(lines);
         ui.(scrollY := if y < 0 then 0 else y))
    else ui
  }

  function FieldKey(ui: Ui, env: Env, key: char, input: string): (r: (Ui, string))
    requires 0 <= ui.cursor < |ui.fields| && GoodField(AtCursor(ui))
  {
    if key == KEY_ESC || key == 'q' then (FieldQuitKey(ui), input)
    else if key == ' ' then (SpaceKey(ui), input)
    else if key == 'f' then FilterKey(ui, env.pton, input)
    else if key == 'p' then (PinKey(ui), input)
    else if key == 's' then (SortKey(ui), input)
    else if key == KEY_DOWN then (DownKey(ui), input)
    else if key == KEY_UP then (UpKey(ui), input)
    else if key == KEY_LEFT then (LeftKey(ui), input)
    else if key == KEY_RIGHT then (RightKey(ui), input)
    else if key == KEY_NPAGE then (PageDownKey(ui, env.lines), input)
    else if key == KEY_PPAGE then (PageUpKey(ui, env.lines), input)
    else (ui, input)
  }

  /** One key, and the input left after it. */
  function Step(ui: Ui, env: Env, key: char, input: string): (r: (Ui, string))
    requires 0 <= ui.cursor < |ui.fields| && GoodField(AtCursor(ui))
  {
    match ui.screen
    case MainScreen => MainKey(ui, env.lines, key, input)
    case FieldScreen => FieldKey(ui, env, key, input)
    case HelpScreen => (if key == KEY_ESC || key == 'q' then ui.(screen := MainScreen) else ui, input)
  }

  /** The key opens a dialog; `input` is what is typed into it. */
  predicate OpensDialog(ui: Ui, key: char)
    requires 0 <= ui.cursor < |ui.fields|
  {
    ui.screen.FieldScreen? && key == 'f' && AtCursor(ui).drawable && !AtCursor(ui).filterOn
  }

  /** A key is there, and the dialog it opens is typed to its end. */
  predicate KeyTyped(ui: Ui, input: string)
    requires 0 <= ui.cursor < |ui.fields|
  {
    && input != []
    && (OpensDialog(ui, input[0]) ==> DialogTyped(AtCursor(ui), input[1..]))
    && (ui.screen.MainScreen? && input[0] == 'd' ==> HasEol(input[1..]))
  }

  /** The key opens a dialog that writes behind its buffer. */
  predicate Overruns(ui: Ui, input: string)
    requires 0 <= ui.cursor < |ui.fields|
  {
    input != [] && OpensDialog(ui, input[0]) && DialogOverruns(AtCursor(ui), input[1..])
  }

  predicate KeyReady(ui: Ui, input: string)
    requires 0 <= ui.cursor < |ui.fields|
  {
    KeyTyped(ui, input) && !Overruns(ui, input)
  }

  /** The state after all keys of `input`, as far as its dialogs are typed to their ends. */
  ghost function Run(ui: Ui, env: Env, input: string): (r: Ui)
    requires Inv(ui) && env.lines >= 3
    ensures Inv(r)
    decreases |input|
  {
    if ui.stop || !KeyReady(ui, input) then ui
    else
      StepKeepsInv(ui, env, input[0], input[1..]);
      var (next, rest) := Step(ui, env, input[0], input[1..]);
      Run(next, env, rest)
  }

  // ----- invariants

  lemma {:induction false} AfterLineShorter(input: string)
    ensures |AfterLine(input)| <= |input|
  {
    if input != [] && !IsEol(input[0]) {
      AfterLineShorter(input[1..]);
    }
  }

  lemma {:induction false} CommonMakes(kind: Kind, line: string, current: Option<Filter>)
    requires kind.NumberKind? || kind.TextKind?
    requires current.Some? ==> MadeBy(kind, current.value)
    ensures var o := CommonOutcome(kind, line, current); o.filter.Some? ==> MadeBy(kind, o.filter.value)
  {
  }

  lemma {:induction false} ParseMakes(op: CmpOp, text: string, pton: Pton)
    requires op in {EQ, NE}
    ensures var r := ParseAddress(op, text, pton); r.Some? ==> MadeBy(AddressKind, r.value)
  {
    var r := ParseAddress(op, text, pton);
    if r.Some? {
      var slash := LastSlash(text);
      var pfix := if slash.Some? then PrefixLength(text[slash.value + 1..]).value else 128;
      assert r.value.mask == PrefixMask(pfix);
      assert IsPrefixMask(r.value.mask, pfix);
    }
  }

  lemma {:induction false} AddressMakes(line: string, current: Option<Filter>, pton: Pton)
    requires current.Some? ==> MadeBy(AddressKind, current.value)
    ensures var o := AddressOutcome(line, current, AddressParser(pton)); o.filter.Some? ==> MadeBy(AddressKind, o.filter.value)
  {
    var rest := SkipBlanks(line);
    match AddressOperatorOf(rest)
    case Some((op, n)) => ParseMakes(op, RemoveBlanks(rest[n..]), pton);
    case None =>
  }

  lemma {:induction false} ChoiceMakes(kind: Kind, input: string, current: Option<Filter>)
    requires kind.ChoiceKind? && kind.first <= kind.last && (current.Some? ==> MadeBy(kind, current.value))
    ensures var o := ChoiceOutcome(Choose(input, kind.first, kind.last, 1, SelectedIn(current)).0, current);
            o.filter.Some? ==> MadeBy(kind, o.filter.value)
  {
    ChoosesOffered(input, kind.first, kind.last, 1, SelectedIn(current));
  }

  lemma {:induction false} DialogKeepsKind(f: Field, pton: Pton, input: string)
    requires GoodField(f)
    ensures GoodField(f.(filter := Dialog(f, pton, input).0.filter))
    ensures |Dialog(f, pton, input).1| <= |input|
  {
    AfterLineShorter(input);
    match f.kind
    case AddressKind => AddressMakes(FirstLine(input), f.filter, pton);
    case ChoiceKind(_, _) => ChoiceMakes(f.kind, input, f.filter);
    case _ => CommonMakes(f.kind, FirstLine(input), f.filter);
  }

  lemma {:induction false} FieldsStayGood(s: seq<Field>, from: nat, to: nat)
    requires from < |s| && to < |s| && forall i | 0 <= i < |s| :: GoodField(s[i])
    ensures forall i | 0 <= i < |s| :: GoodField(Moved(s, from, to)[i])
  {
    forall i | 0 <= i < |s| ensures GoodField(Moved(s, from, to)[i]) {
      PreviewShowsMove(s, from, to, i);
    }
  }

  lemma {:induction false} LeftKeepsInv(ui: Ui)
    requires Inv(ui) && ui.screen.FieldScreen?
    ensures Inv(LeftKey(ui))
  {
    if Commits(ui) {
      FieldsStayGood(ui.fields, ui.sel.value, ui.cursor);
    }
  }

  lemma {:induction false} SetKeepsInv(ui: Ui, f: Field)
    requires Inv(ui) && ui.screen.FieldScreen? && GoodField(f) && f.drawable == AtCursor(ui).drawable
    ensures Inv(SetAtCursor(ui, f))
  {
  }

  lemma {:induction false} FilterKeepsInv(ui: Ui, pton: Pton, input: string)
    requires Inv(ui) && ui.screen.FieldScreen?
    ensures Inv(FilterKey(ui, pton, input).0) && |FilterKey(ui, pton, input).1| <= |input|
  {
    var f := AtCursor(ui);
    if f.drawable {
      if f.filterOn {
        SetKeepsInv(ui, f.(filterOn := false));
      } else {
        DialogKeepsKind(f, pton, input);
        var o := Dialog(f, pton, input).0;
        SetKeepsInv(ui, f.(filter := o.filter, filterOn := !o.err));
      }
    }
  }

  lemma {:induction false} ToggleKeepsInv(ui: Ui)
    requires Inv(ui) && ui.screen.FieldScreen?
    ensures Inv(SpaceKey(ui)) && Inv(PinKey(ui))
  {
    var f := AtCursor(ui);
    SetKeepsInv(ui, f.(enabled := !f.enabled));
    SetKeepsInv(ui, f.(pinned := !f.pinned));
  }

  lemma {:induction false} CursorKeepsInv(ui: Ui, lines: int)
    requires Inv(ui) && ui.screen.FieldScreen? && lines >= 3
    ensures Inv(DownKey(ui)) && Inv(UpKey(ui)) && Inv(PageDownKey(ui, lines)) && Inv(PageUpKey(ui, lines))
  {
  }

  lemma {:induction false} OthersKeepInv(ui: Ui)
    requires Inv(ui) && ui.screen.FieldScreen?
    ensures Inv(SortKey(ui)) && Inv(RightKey(ui)) && Inv(FieldQuitKey(ui))
  {
  }

  lemma {:induction false} FieldKeepsInv(ui: Ui, env: Env, key: char, input: string)
    requires Inv(ui) && ui.screen.FieldScreen? && env.lines >= 3
    ensures var r := FieldKey(ui, env, key, input); Inv(r.0) && |r.1| <= |input|
  {
    if key == 'f' {
      FilterKeepsInv(ui, env.pton, input);
    } else {
      LeftKeepsInv(ui);
      ToggleKeepsInv(ui);
      CursorKeepsInv(ui, env.lines);
      OthersKeepInv(ui);
    }
  }

  /** Keys of the main screen leave the table and what refers to it alone. */
  ghost predicate MainFramed(ui: Ui, r: Ui)
  {
    && r == ui.(screen := r.screen, family := r.family, scrollY := r.scrollY, scrollX := r.scrollX,
                delay := r.delay, protocol := r.protocol, stop := r.stop)
    && r.scrollX >= 0 && r.scrollY >= 0
  }

  lemma {:induction false} PlainMainKeyFrame(ui: Ui, lines: int, key: char)
    requires ui.scrollX >= 0 && ui.scrollY >= 0 && lines >= 3
    ensures MainFramed(ui, PlainMainKey(ui, lines, key))
  {
    ScrollKeyFrame(ui, lines, key);
  }

  lemma {:induction false} ScrollKeyFrame(ui: Ui, lines: int, key: char)
    requires ui.scrollX >= 0 && ui.scrollY >= 0 && lines >= 3
    ensures var r := ScrollKey(ui, lines, key);
            r == ui.(scrollY := r.scrollY, scrollX := r.scrollX) && r.scrollX >= 0 && r.scrollY >= 0
  {
  }

  lemma {:induction false} MainKeyFrame(ui: Ui, lines: int, key: char, input: string)
    requires ui.scrollX >= 0 && ui.scrollY >= 0 && lines >= 3
    ensures MainFramed(ui, MainKey(ui, lines, key, input).0)
  {
    if key != 'd' {
      PlainMainKeyFrame(ui, lines, key);
    }
  }

  lemma {:induction false} MainKeepsInv(ui: Ui, lines: int, key: char, input: string)
    requires Inv(ui) && ui.screen.MainScreen? && lines >= 3
    ensures Inv(MainKey(ui, lines, key, input).0) && |MainKey(ui, lines, key, input).1| <= |input|
  {
    AfterLineShorter(input);
    MainKeyFrame(ui, lines, key, input);
    var r := MainKey(ui, lines, key, input).0;
    assert r.fields == ui.fields;
  }

  /** With at least 3 lines every key keeps the invariant. */
  lemma {:induction false} StepKeepsInv(ui: Ui, env: Env, key: char, input: string)
    requires Inv(ui) && env.lines >= 3
    ensures Inv(Step(ui, env, key, input).0)
    ensures |Step(ui, env, key, input).1| <= |input|
  {
    match ui.screen
    case MainScreen => MainKeepsInv(ui, env.lines, key, input);
    case FieldScreen => FieldKeepsInv(ui, env, key, input);
    case HelpScreen =>
  }

  /** A wait that ends without a key changes nothing. */
  lemma {:induction false} TimeoutDoesNothing(ui: Ui, env: Env, input: string)
    requires Inv(ui)
    ensures Step(ui, env, ERR, input) == (ui, input)
  {
  }

  /** The state at start: the request word is empty, and no field enabled at start asks
      for anything, has a filter or is a sort key. */
  function InitialUi(fields: seq<Field>): (ui: Ui)
  {
    Ui(fields, None, None, false, MainScreen, 0, {}, Inet, 0, 0, 30, Tcp, false)
  }

  ghost predicate InitialTable(fields: seq<Field>)
  {
    && fields != []
    && forall i | 0 <= i < |fields| ::
         GoodField(fields[i]) && fields[i].filter.None? && !fields[i].filterOn && (fields[i].enabled ==> fields[i].extReq == 0)
  }

  lemma {:induction false} InitialInv(fields: seq<Field>)
    requires InitialTable(fields)
    ensures Inv(InitialUi(fields))
  {
  }

  lemma {:induction false} PageKeysStay(ui: Ui, lines: int, y: int)
    requires 0 <= y < |ui.fields| && (lines >= 3 || |ui.fields| == 1)
    ensures 0 <= PageDownKey(ui.(cursor := y), lines).cursor < |ui.fields|
    ensures 0 <= PageUpKey(ui.(cursor := y), lines).cursor < |ui.fields|
  {
  }

  /** The page keys keep the cursor in the table exactly when the screen has 3 lines or
      the table a single row. */
  lemma {:induction false} PageKeysExactly(ui: Ui, lines: int)
    requires ui.fields != []
    ensures (forall y: int | 0 <= y < |ui.fields| ::
               && 0 <= PageDownKey(ui.(cursor := y), lines).cursor < |ui.fields|
               && 0 <= PageUpKey(ui.(cursor := y), lines).cursor < |ui.fields|)
       <==> lines >= 3 || |ui.fields| == 1
  {
    if lines < 3 && |ui.fields| > 1 {
      assert PageDownKey(ui.(cursor := 0), lines).cursor < 0;
    } else {
      forall y: int | 0 <= y < |ui.fields|
        ensures 0 <= PageDownKey(ui.(cursor := y), lines).cursor < |ui.fields|
        ensures 0 <= PageUpKey(ui.(cursor := y), lines).cursor < |ui.fields|
      {
        PageKeysStay(ui, lines, y);
      }
    }
  }

  /** For instance, on 2 lines half a page is -1 row. */
  lemma {:induction false} PageKeysExample(ui: Ui)
    requires |ui.fields| > 1
    ensures PageDownKey(ui.(cursor := 0), 2).cursor == -1
  {
  }

  // ----- what a key does not touch

  /** What no key changes in a field: all of it but the four things a user sets. */
  function Core(f: Field): (core: Field)
  {
    f.(enabled := false, pinned := false, filterOn := false, filter := None)
  }

  ghost function Cores(fields: seq<Field>): (cores: seq<Field>)
    ensures |cores| == |fields|
    ensures forall i | 0 <= i < |fields| :: cores[i] == Core(fields[i])
  {
    seq(|fields|, i requires 0 <= i < |fields| => Core(fields[i]))
  }

  lemma {:induction false} MovedCores(s: seq<Field>, from: nat, to: nat)
    requires from < |s| && to < |s|
    ensures Cores(Moved(s, from, to)) == Moved(Cores(s), from, to)
  {
    forall i | 0 <= i < |s| ensures Cores(Moved(s, from, to))[i] == Moved(Cores(s), from, to)[i] {
      PreviewShowsMove(s, from, to, i);
      PreviewShowsMove(Cores(s), from, to, i);
    }
  }

  predicate Moves(ui: Ui, key: char)
    requires 0 <= ui.cursor < |ui.fields|
  {
    ui.screen.FieldScreen? && key == KEY_LEFT && Commits(ui)
  }

  /** Except for a move, the table keeps its rows in place; only the row under the
      cursor can change, and only in what a user sets. */
  ghost predicate RowsInPlace(ui: Ui, r: Ui)
  {
    && |r.fields| == |ui.fields|
    && forall i | 0 <= i < |ui.fields| ::
         && Core(r.fields[i]) == Core(ui.fields[i])
         && (i != ui.cursor ==> r.fields[i] == ui.fields[i])
  }

  /** What a key other than a move leaves alone. */
  ghost predicate Framed(ui: Ui, r: Ui, key: char)
    requires 0 <= ui.cursor < |ui.fields|
  {
    && RowsInPlace(ui, r)
    && (key != 's' ==> r.sortKey == ui.sortKey)
    && (key != 'f' ==> AtSame(ui, r))
  }

  lemma {:induction false} SetFrame(ui: Ui, f: Field, key: char)
    requires Inv(ui) && Core(f) == Core(AtCursor(ui))
    requires key != 'f' ==> f.filterOn == AtCursor(ui).filterOn && f.filter == AtCursor(ui).filter
    ensures Framed(ui, SetAtCursor(ui, f), key)
  {
  }

  lemma {:induction false} ToggleFrame(ui: Ui)
    requires Inv(ui)
    ensures Framed(ui, SpaceKey(ui), ' ') && Framed(ui, PinKey(ui), 'p')
  {
    var f := AtCursor(ui);
    SetFrame(ui, f.(enabled := !f.enabled), ' ');
    SetFrame(ui, f.(pinned := !f.pinned), 'p');
  }

  lemma {:induction false} FilterFrame(ui: Ui, pton: Pton, input: string)
    requires Inv(ui)
    ensures Framed(ui, FilterKey(ui, pton, input).0, 'f')
  {
    var f := AtCursor(ui);
    if f.drawable && !f.filterOn {
      var o := Dialog(f, pton, input).0;
      SetFrame(ui, f.(filter := o.filter, filterOn := !o.err), 'f');
    }
  }

  lemma {:induction false} SameFieldsFrame(ui: Ui, r: Ui, key: char)
    requires Inv(ui) && r.fields == ui.fields && (key != 's' ==> r.sortKey == ui.sortKey)
    ensures Framed(ui, r, key)
  {
  }

  lemma {:induction false} OtherKeysKeepRows(ui: Ui, env: Env, key: char, input: string)
    requires Inv(ui) && !(key == KEY_LEFT && Commits(ui)) && key !in {'f', ' ', 'p'}
    ensures var r := FieldKey(ui, env, key, input).0;
            r.fields == ui.fields && (key != 's' ==> r.sortKey == ui.sortKey)
  {
  }

  lemma {:induction false} FieldKeyFrame(ui: Ui, env: Env, key: char, input: string)
    requires Inv(ui) && !(key == KEY_LEFT && Commits(ui))
    ensures Framed(ui, FieldKey(ui, env, key, input).0, key)
  {
    if key == 'f' {
      FilterFrame(ui, env.pton, input);
    } else if key == ' ' || key == 'p' {
      ToggleFrame(ui);
    } else {
      OtherKeysKeepRows(ui, env, key, input);
      SameFieldsFrame(ui, FieldKey(ui, env, key, input).0, key);
    }
  }

  predicate AtSame(ui: Ui, r: Ui)
    requires 0 <= ui.cursor < |ui.fields|
  {
    |r.fields| == |ui.fields| && r.fields[ui.cursor].filterOn == ui.fields[ui.cursor].filterOn
    && r.fields[ui.cursor].filter == ui.fields[ui.cursor].filter
  }

  lemma {:induction false} StepFrame(ui: Ui, env: Env, key: char, input: string)
    requires Inv(ui) && env.lines >= 3 && !Moves(ui, key)
    ensures var r := Step(ui, env, key, input).0;
            && RowsInPlace(ui, r)
            && (!(ui.screen.FieldScreen? && key == 's') ==> r.sortKey == ui.sortKey)
            && (!(ui.screen.FieldScreen? && key == 'f') ==> AtSame(ui, r))
  {
    match ui.screen
    case MainScreen =>
      MainKeyFrame(ui, env.lines, key, input);
      SameFieldsFrame(ui, MainKey(ui, env.lines, key, input).0, ' ');
    case FieldScreen => FieldKeyFrame(ui, env, key, input);
    case HelpScreen => SameFieldsFrame(ui, Step(ui, env, key, input).0, ' ');
  }

  lemma {:induction false} InPlaceKeepsCores(ui: Ui, r: Ui)
    requires Inv(ui) && RowsInPlace(ui, r)
    ensures Cores(r.fields) == Cores(ui.fields)
  {
  }

  lemma {:induction false} MoveKeepsCores(ui: Ui)
    requires Inv(ui) && Commits(ui)
    ensures multiset(Cores(LeftKey(ui).fields)) == multiset(Cores(ui.fields))
  {
    MovedCores(ui.fields, ui.sel.value, ui.cursor);
    MoveConserves(Cores(ui.fields), ui.sel.value, ui.cursor);
  }

  /** No key adds, drops or duplicates a field. */
  lemma {:induction false} StepConservesFields(ui: Ui, env: Env, key: char, input: string)
    requires Inv(ui) && env.lines >= 3
    ensures multiset(Cores(Step(ui, env, key, input).0.fields)) == multiset(Cores(ui.fields))
  {
    if Moves(ui, key) {
      MoveKeepsCores(ui);
    } else {
      StepFrame(ui, env, key, input);
      InPlaceKeepsCores(ui, Step(ui, env, key, input).0);
    }
  }

  /** The field the list is sorted by, whatever row it is on. */
  function SortField(ui: Ui): (f: Option<Field>)
  {
    match ui.sortKey
    case Some(k) => if k < |ui.fields| then Some(Core(ui.fields[k])) else None
    case None => None
  }

  lemma {:induction false} SortKeyMoves(ui: Ui)
    requires Inv(ui) && Commits(ui)
    ensures SortField(LeftKey(ui)) == SortField(ui)
    ensures ui.sortKey.Some? ==>
              var r := LeftKey(ui);
              r.sortKey.Some? && r.sortKey.value < |r.fields|
              && r.fields[r.sortKey.value] == ui.fields[ui.sortKey.value]
    ensures ui.sortKey.None? ==> LeftKey(ui).sortKey.None?
  {
    if ui.sortKey.Some? {
      PreviewShowsMove(ui.fields, ui.sel.value, ui.cursor, MovedIndex(ui.sortKey.value, ui.sel.value, ui.cursor));
    }
  }

  /** Only the sort key itself changes which field the list is sorted by: moving
      fields around does not. */
  lemma {:induction false} StepKeepsSortField(ui: Ui, env: Env, key: char, input: string)
    requires Inv(ui) && env.lines >= 3 && !(ui.screen.FieldScreen? && key == 's')
    ensures SortField(Step(ui, env, key, input).0) == SortField(ui)
  {
    if Moves(ui, key) {
      SortKeyMoves(ui);
    } else {
      StepFrame(ui, env, key, input);
    }
  }

  /** Three presses on a field that is not the sort key: descending, ascending, unsorted. */
  lemma {:induction false} ThreeSortPresses(ui: Ui)
    requires 0 <= ui.cursor < |ui.fields| && ui.sortKey != Some(ui.cursor as nat)
    ensures SortKey(ui).sortKey == Some(ui.cursor as nat) && !SortKey(ui).ascending
    ensures SortKey(SortKey(ui)).sortKey == Some(ui.cursor as nat) && SortKey(SortKey(ui)).ascending
    ensures SortKey(SortKey(SortKey(ui))) == ui.(sortKey := None, ascending := true)
  {
  }

  // ----- what the rest of the program relies on, and which keys break it

  /** The sort key has a comparator. */
  predicate SortReady(ui: Ui)
  {
    ui.sortKey.Some? ==> ui.sortKey.value < |ui.fields| && ui.fields[ui.sortKey.value].drawable
  }

  /** Sorting by a heading row, which has no comparator, is the one way to lose this. */
  lemma {:induction false} StepKeepsSortReady(ui: Ui, env: Env, key: char, input: string)
    requires Inv(ui) && env.lines >= 3 && SortReady(ui)
    ensures SortReady(Step(ui, env, key, input).0)
       <==> !(ui.screen.FieldScreen? && key == 's' && !AtCursor(ui).drawable)
  {
    if Moves(ui, key) {
      SortKeyMoves(ui);
    } else {
      StepFrame(ui, env, key, input);
    }
  }

  /** For instance, `f`, `s` and `q`, pressed at start when the first row is a heading. */
  lemma {:induction false} HeadingKeyExample(table: seq<Field>, env: Env)
    requires InitialTable(table) && env.lines >= 3 && !table[0].drawable
    ensures Inv(InitialUi(table))
    ensures var r := Run(InitialUi(table), env, "fsq"); r.screen.MainScreen? && !SortReady(r)
  {
    InitialInv(table);
    var ui := InitialUi(table);
    var choosing, sorted := ui.(screen := FieldScreen), ui.(screen := FieldScreen, sortKey := Some(0));
    assert "fsq"[1..] == "sq" && "sq"[1..] == "q" && "q"[1..] == "";
    assert Step(ui, env, 'f', "sq") == (choosing, "sq");
    assert Step(choosing, env, 's', "q") == (sorted, "q");
    assert Step(sorted, env, 'q', "") == (FieldQuitKey(sorted), "");
    var closed := FieldQuitKey(sorted);
    StepKeepsInv(ui, env, 'f', "sq");
    StepKeepsInv(choosing, env, 's', "q");
    StepKeepsInv(sorted, env, 'q', "");
    assert Run(closed, env, "") == closed;
    assert Run(sorted, env, "q") == closed;
    assert Run(choosing, env, "sq") == closed;
  }

  /** Every filter that is switched on exists. */
  predicate FiltersReady(ui: Ui)
  {
    forall i | 0 <= i < |ui.fields| && ui.fields[i].filterOn :: ui.fields[i].filter.Some?
  }

  /** An operator without an operand. */
  predicate IsBareOperator(kind: Kind, line: string)
  {
    var rest := SkipBlanks(line);
    match (if kind.AddressKind? then AddressOperatorOf(rest) else OperatorOf(rest))
    case Some((_, n)) => Content(kind, rest[n..]) == []
    case None => false
  }

  /** A dialog succeeds without leaving a filter exactly when there was none and an
      operator was typed alone. */
  lemma {:induction false} DialogWithoutFilter(f: Field, pton: Pton, input: string)
    requires GoodField(f)
    ensures var o := Dialog(f, pton, input).0;
            !o.err && o.filter.None?
            <==> f.filter.None? && !f.kind.ChoiceKind? && IsBareOperator(f.kind, FirstLine(input))
  {
  }

  lemma {:induction false} SetKeepsFilters(ui: Ui, f: Field)
    requires 0 <= ui.cursor < |ui.fields| && FiltersReady(ui)
    ensures FiltersReady(SetAtCursor(ui, f)) <==> (f.filterOn ==> f.filter.Some?)
  {
    assert SetAtCursor(ui, f).fields[ui.cursor] == f;
  }

  lemma {:induction false} FilterKeyKeepsFiltersReady(ui: Ui, pton: Pton, input: string)
    requires Inv(ui) && FiltersReady(ui)
    ensures var f := AtCursor(ui);
            FiltersReady(FilterKey(ui, pton, input).0)
            <==> !(f.drawable && !f.filterOn && f.filter.None? && !f.kind.ChoiceKind?
                   && IsBareOperator(f.kind, FirstLine(input)))
  {
    var f := AtCursor(ui);
    if f.drawable && !f.filterOn {
      DialogWithoutFilter(f, pton, input);
      var o := Dialog(f, pton, input).0;
      SetKeepsFilters(ui, f.(filter := o.filter, filterOn := !o.err));
    } else if f.drawable {
      SetKeepsFilters(ui, f.(filterOn := false));
    }
  }

  /** The one way to switch on a filter that does not exist: an operator alone, typed
      for a field that has no filter yet. */
  lemma {:induction false} StepKeepsFiltersReady(ui: Ui, env: Env, key: char, input: string)
    requires Inv(ui) && env.lines >= 3 && FiltersReady(ui)
    ensures FiltersReady(Step(ui, env, key, input).0)
       <==> !(&& OpensDialog(ui, key) && AtCursor(ui).filter.None? && !AtCursor(ui).kind.ChoiceKind?
              && IsBareOperator(AtCursor(ui).kind, FirstLine(input)))
  {
    if Moves(ui, key) {
      MoveKeepsFilters(ui.fields, ui.sel.value, ui.cursor);
    } else if ui.screen.FieldScreen? && key == 'f' {
      FilterKeyKeepsFiltersReady(ui, env.pton, input);
    } else {
      StepFrame(ui, env, key, input);
    }
  }

  lemma {:induction false} MoveKeepsFilters(s: seq<Field>, from: nat, to: nat)
    requires from < |s| && to < |s| && forall i | 0 <= i < |s| && s[i].filterOn :: s[i].filter.Some?
    ensures forall i | 0 <= i < |s| && Moved(s, from, to)[i].filterOn :: Moved(s, from, to)[i].filter.Some?
  {
    forall i | 0 <= i < |s| ensures Moved(s, from, to)[i].filterOn ==> Moved(s, from, to)[i].filter.Some? {
      PreviewShowsMove(s, from, to, i);
    }
  }

  /** For instance, `=` and an end of line typed for a numeric field. */
  lemma {:induction false} BareOperatorExample()
    ensures CommonOutcome(NumberKind, FirstLine("=\n"), None) == Outcome(false, None)
    ensures IsBareOperator(NumberKind, FirstLine("=\n"))
  {
    TypedBack("=");
    assert SkipBlanks("=") == "=" && "="[1..] == "";
  }

  // ----- whole runs

  lemma {:induction false} RunConservesFields(ui: Ui, env: Env, input: string)
    requires Inv(ui) && env.lines >= 3
    ensures multiset(Cores(Run(ui, env, input).fields)) == multiset(Cores(ui.fields))
    decreases |input|
  {
    if !ui.stop && KeyReady(ui, input) {
      var key, typed := input[0], input[1..];
      StepKeepsInv(ui, env, key, typed);
      StepConservesFields(ui, env, key, typed);
      var (next, rest) := Step(ui, env, key, typed);
      RunConservesFields(next, env, rest);
    }
  }

  /** Every state that keys can lead to from the start. */
  lemma {:induction false} ReachableStates(table: seq<Field>, env: Env, input: string)
    requires InitialTable(table) && env.lines >= 3
    ensures Inv(InitialUi(table))
    ensures var r := Run(InitialUi(table), env, input);
            && 0 <= r.cursor < |r.fields| == |table|
            && (r.sel.Some? ==> r.screen.FieldScreen? && r.sel.value < |table| && r.fields[r.sel.value].drawable)
            && (r.sortKey.Some? ==> r.sortKey.value < |table|)
            && (!r.screen.FieldScreen? ==> r.extReq == RequestBits(r.fields))
            && multiset(Cores(r.fields)) == multiset(Cores(table))
  {
    InitialInv(table);
    RunConservesFields(InitialUi(table), env, input);
    var r := Run(InitialUi(table), env, input);
    assert |multiset(Cores(r.fields))| == |Cores(r.fields)| && |multiset(Cores(table))| == |Cores(table)|;
  }

  // ----- every filter a user can make reads back

  ghost predicate SameMatches(a: Filter, b: Filter)
    requires a.AddressFilter? && b.AddressFilter?
  {
    forall family: Family, address: Bytes16 :: AddressMatches(a, family, address) == AddressMatches(b, family, address)
  }

  lemma {:induction false} AddressReadsBack(flt: Filter, ntop: Ntop, pton: Pton, current: Option<Filter>)
    requires IsResolver(ntop, pton) && MadeBy(AddressKind, flt)
    ensures var o := AddressOutcome(FirstLine(Printed(flt, ntop) + ['\n']), current, AddressParser(pton));
            !o.err && o.filter.Some? && o.filter.value.AddressFilter? && SameMatches(o.filter.value, flt)
  {
    var k :| 0 <= k <= 128 && IsPrefixMask(flt.mask, k);
    var o := AddressOutcome(FirstLine(Printed(flt, ntop) + ['\n']), current, AddressParser(pton));
    AddressRoundTrip(flt, k, ntop, pton, current, Inet, flt.addr);
    forall family: Family, address: Bytes16
      ensures AddressMatches(o.filter.value, family, address) == AddressMatches(flt, family, address)
    {
      AddressRoundTrip(flt, k, ntop, pton, current, family, address);
    }
  }

  /** What typing the printed filter of a field into its dialog does: a number is rebuilt
      exactly if its operator is numeric, a text exactly if its operator is one for strings
      and it is printed whole, and an address filter comes back with the same meaning. */
  ghost predicate ReadsBack(f: Field, ntop: Ntop, pton: Pton)
    requires GoodField(f)
  {
    f.filter.Some? ==>
      var flt := f.filter.value;
      var o := Dialog(f, pton, Printed(flt, ntop) + ['\n']).0;
      match flt
      case NumberFilter(op, _) => o == Outcome(false, f.filter) <==> op !in {CT, NC}
      case TextFilter(op, t) => o == Outcome(false, f.filter) <==> op in {EQ, CT, NC} && |OpText(flt)| + |t| < BUFFER
      case AddressFilter(_, _, _, _) =>
        !o.err && o.filter.Some? && o.filter.value.AddressFilter? && SameMatches(o.filter.value, flt)
      case ChoiceFilter(_) => true
  }

  lemma {:induction false} FieldReadsBack(f: Field, ntop: Ntop, pton: Pton)
    requires GoodField(f) && IsResolver(ntop, pton)
    ensures ReadsBack(f, ntop, pton)
  {
    if f.filter.Some? {
      var flt := f.filter.value;
      match flt
      case NumberFilter(op, v) => NumberRoundTrip(op, v, ntop, f.filter);
      case TextFilter(op, t) => TextRoundTrip(op, t, ntop, f.filter);
      case AddressFilter(_, _, _, _) => AddressReadsBack(flt, ntop, pton, f.filter);
      case ChoiceFilter(_) =>
    }
  }

  /** Every filter of every state that keys can lead to reads back like that. */
  lemma {:induction false} ReachableFiltersReadBack(table: seq<Field>, env: Env, input: string, ntop: Ntop)
    requires InitialTable(table) && env.lines >= 3 && IsResolver(ntop, env.pton)
    ensures Inv(InitialUi(table))
    ensures forall f | f in Run(InitialUi(table), env, input).fields :: GoodField(f) && ReadsBack(f, ntop, env.pton)
  {
    InitialInv(table);
    forall f | f in Run(InitialUi(table), env, input).fields ensures GoodField(f) && ReadsBack(f, ntop, env.pton) {
      FieldReadsBack(f, ntop, env.pton);
    }
  }
}
