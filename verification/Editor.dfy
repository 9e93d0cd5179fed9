/** The key handlers on the program's own table and context. */
module Editor {
  import opened Types
  import opened Keys
  import opened FilterText
  import opened FilterDialog
  import opened FieldEditor
  import opened UiModel
  import opened FieldView
  import opened FilterMemory

  class Context {
    const fields: array<Field>
    const env: Env
    const store: FilterStore
    var sel: Option<nat>
    var sortKey: Option<nat>
    var ascending: bool
    var screen: Screen
    var cursor: int
    var extReq: set<nat>
    var family: Family
    var scrollY: int
    var scrollX: int
    var delay: nat
    var protocol: Protocol
    var stop: bool
    // The rows on the field screen as they were last drawn.
    var rows: seq<Row>

    function State(): (ui: Ui)
      reads this, fields
    {
      Ui(fields[..], sel, sortKey, ascending, screen, cursor, extReq, family, scrollY, scrollX, delay, protocol, stop)
    }

    /** The invariant, and a field screen that is never out of date although neither
        selecting nor committing a move draws it. */
    ghost predicate Valid()
      reads this, fields
    {
      Inv(State()) && env.lines >= 3 && (screen.FieldScreen? ==> rows == Rows(State(), env))
    }

    /** The fields own the memory of their filters. */
    ghost predicate Owned()
      reads this, fields, store
    {
      store.Owns(fields[..])
    }

    constructor (table: array<Field>, env: Env)
      requires InitialTable(table[..]) && env.lines >= 3
      ensures Valid() && fields == table && this.env == env && State() == InitialUi(table[..])
      ensures Owned() && fresh(store)
    {
      fields, this.env := table, env;
      sel, sortKey, ascending, screen, cursor := None, None, false, MainScreen, 0;
      extReq, family, scrollY, scrollX, delay, protocol, stop, rows := {}, Inet, 0, 0, 30, Tcp, false, [];
      store := new FilterStore(table[..]);
      new;
      InitialInv(fields[..]);
    }

    /** The drawn row for table position `i`, the preview computed by index arithmetic. */
    method DrawHeader(i: nat) returns (row: Row)
      requires Shown(State()) && i < fields.Length
      ensures row == RowAt(State(), i, env.cols)
    {
      var k: nat := i;
      if sel.Some? {
        if sel.value < cursor {
          if sel.value <= k && k < cursor {
            k := k + 1;
          } else if k == cursor {
            k := sel.value;
          }
        } else if sel.value > cursor {
          if k == cursor {
            k := sel.value;
          } else if cursor < k && k <= sel.value {
            k := k - 1;
          }
        }
      }
      row := DrawnRow(fields[k], sortKey == Some(k), ascending, i == cursor, env.cols);
    }

    /** How many rows are scrolled away. */
    method RowsToSkip() returns (skip: int)
      requires Shown(State())
      ensures skip == Skip(cursor, fields.Length, env.lines)
    {
      skip := cursor - HalfPage(env.lines);
      if skip < 0 {
        skip := 0;
      }
      if fields.Length - skip < env.lines - 4 {
        skip := fields.Length - (env.lines - 4);
      }
    }

    /** The rows from the first visible one down to the last line. */
    method DrawVisible() returns (drawn: seq<Row>)
      requires Shown(State())
      ensures drawn == Rows(State(), env)
    {
      var skip := RowsToSkip();
      ghost var all, first := Rows(State(), env), FirstRow(cursor, fields.Length, env.lines);
      drawn := [];
      var i, y := 0, 4;
      while i < fields.Length && y < env.lines
        invariant 0 <= i <= fields.Length && |drawn| == y - 4
        invariant if skip > 0 then drawn == [] && skip + i == first else first + |drawn| == i
        invariant |drawn| <= |all| && forall k | 0 <= k < |drawn| :: drawn[k] == all[k]
      {
        if skip > 0 {
          skip := skip - 1;
        } else {
          var row := DrawHeader(i);
          assert row == all[|drawn|];
          drawn := drawn + [row];
          y := y + 1;
        }
        i := i + 1;
      }
      assert |drawn| == |all|;
    }

    /** Draws the field screen. */
    method DrawFieldHeader()
      requires Shown(State())
      modifies this`rows, this`screen
      ensures State() == old(State()).(screen := FieldScreen) && rows == Rows(State(), env)
    {
      rows := DrawVisible();
      ScreenShowsSame(State(), FieldScreen, env);
      screen := FieldScreen;
    }

    method SwapField(a: nat, b: nat)
      requires a < fields.Length && b < fields.Length && Owned()
      modifies this`sortKey, fields, store
      ensures Owned()
      ensures (fields[..], sortKey) == SwapRows(old(fields[..]), old(sortKey), a, b)
    {
      if sortKey == Some(a) {
        sortKey := Some(b);
      } else if sortKey == Some(b) {
        sortKey := Some(a);
      }
      ghost var was := fields[..];
      store.Swap(a, b, was);
      var tmp := fields[a];
      fields[a] := fields[b];
      fields[b] := tmp;
      assert fields[..] == was[a := was[b]][b := was[a]];
    }

    /** Adjacent swaps from row `from` down to row `to`, the sort key following its field. */
    method MoveDown(from: nat, to: nat)
      requires from < to < fields.Length && Owned()
      modifies this`sortKey, fields, store
      ensures Owned() && (fields[..], sortKey) == SwapAlong(old(fields[..]), old(sortKey), from, to)
    {
      ghost var table, key := fields[..], sortKey;
      var f := from;
      while f < to
        invariant from <= f <= to && Owned() && (fields[..], sortKey) == SwapAlong(table, key, from, f)
      {
        SwapField(f, f + 1);
        f := f + 1;
      }
    }

    /** The same upwards. */
    method MoveUp(from: nat, to: nat)
      requires to < from < fields.Length && Owned()
      modifies this`sortKey, fields, store
      ensures Owned() && (fields[..], sortKey) == SwapAlong(old(fields[..]), old(sortKey), from, to)
    {
      ghost var table, key := fields[..], sortKey;
      var f := from;
      while f > to
        invariant to <= f <= from && Owned() && (fields[..], sortKey) == SwapAlong(table, key, from, f)
      {
        SwapField(f, f - 1);
        f := f - 1;
      }
    }

    /** Moves row `from` to row `to`. */
    method MoveField(from: nat, to: nat)
      requires from < fields.Length && to < fields.Length && from != to && Owned()
      modifies this`sortKey, fields, store
      ensures Owned() && fields[..] == Moved(old(fields[..]), from, to) && sortKey == FollowKey(old(sortKey), from, to)
    {
      SwapsMove(fields[..], sortKey, from, to);
      if from < to {
        MoveDown(from, to);
      } else {
        MoveUp(from, to);
      }
    }

    method CommitMove()
      requires 0 <= cursor < fields.Length && Commits(State()) && Owned()
      modifies this`sortKey, this`sel, fields, store
      ensures Owned() && State() == LeftKey(old(State()))
    {
      MoveField(sel.value, cursor);
      sel := None;
    }

    /** Puts the selected field where the cursor is. */
    method FieldKeyLeft()
      requires Valid() && Owned() && screen.FieldScreen?
      modifies this, fields, store
      ensures Valid() && Owned() && State() == LeftKey(old(State()))
    {
      if sel.None? || !fields[cursor].drawable || sel.value == cursor {
        return;
      }
      LeftKeepsInv(State());
      CommitShowsPreview(State(), env);
      CommitMove();
    }

    /** Marks the field under the cursor; the screen already shows it. */
    method FieldKeyRight()
      requires Valid() && screen.FieldScreen?
      modifies this
      ensures Valid() && State() == RightKey(old(State()))
    {
      OthersKeepInv(State());
      SelectShowsSame(State(), env);
      if sel.Some? || !fields[cursor].drawable {
        return;
      }
      sel := Some(cursor);
    }

    /** Writes the row under the cursor. */
    method SetField(f: Field)
      requires 0 <= cursor < fields.Length && store.Owns(fields[..][cursor := f])
      modifies fields
      ensures State() == SetAtCursor(old(State()), f) && Owned()
    {
      fields[cursor] := f;
      assert fields[..] == old(fields[..])[cursor := f];
    }

    method FieldSpace()
      requires Valid() && Owned() && screen.FieldScreen?
      modifies this, fields
      ensures Valid() && Owned() && State() == SpaceKey(old(State()))
    {
      ToggleKeepsInv(State());
      var f := fields[cursor];
      if !f.drawable {
        return;
      }
      store.KeepsFilter(fields[..], cursor, f.(enabled := !f.enabled));
      SetField(f.(enabled := !f.enabled));
      DrawFieldHeader();
    }

    method FieldPin()
      requires Valid() && Owned() && screen.FieldScreen?
      modifies this, fields
      ensures Valid() && Owned() && State() == PinKey(old(State()))
    {
      ToggleKeepsInv(State());
      var f := fields[cursor];
      if !f.drawable {
        return;
      }
      store.KeepsFilter(fields[..], cursor, f.(pinned := !f.pinned));
      SetField(f.(pinned := !f.pinned));
      DrawFieldHeader();
    }

    /** Runs the filter dialog of `f` on the keyboard. */
    method FilterParse(kb: Keyboard, f: Field) returns (err: bool, filter: Option<Filter>, made: bool)
      requires GoodField(f) && DialogReady(f, kb.input)
      modifies kb
      ensures (Outcome(err, filter), kb.input) == Dialog(f, env.pton, old(kb.input))
      ensures filter.Some? <==> made || f.filter.Some?
    {
      var overran;
      match f.kind {
        case AddressKind => err, filter, made, overran := FpAddr(kb, f.filter, env.pton);
        case ChoiceKind(first, last) => err, filter, made := FpChoice(kb, first, last, f.filter);
        case _ => err, filter, made, overran := FpCommon(kb, f.kind, f.filter);
      }
    }

    /** Runs the dialog of the field under the cursor and puts a filter that is made in
        the place of the old one. */
    method NewFilter(kb: Keyboard, f: Field) returns (f': Field)
      requires 0 <= cursor < fields.Length && Owned() && f == fields[cursor] && GoodField(f) && DialogReady(f, kb.input)
      modifies kb, store
      ensures var (o, rest) := Dialog(f, env.pton, old(kb.input));
              f' == f.(filter := o.filter, filterOn := !o.err) && kb.input == rest
      ensures store.Owns(fields[..][cursor := f'])
    {
      var err, filter, made := FilterParse(kb, f);
      f' := f.(filter := filter, filterOn := !err);
      if made {
        store.Replace(cursor, f.kind.TextKind?, fields[..], f');
      } else {
        store.KeepsFilter(fields[..], cursor, f');
      }
    }

    method FieldFilter(kb: Keyboard)
      requires Valid() && Owned() && screen.FieldScreen?
      requires OpensDialog(State(), 'f') ==> DialogReady(fields[cursor], kb.input)
      modifies this, fields, kb, store
      ensures Valid() && Owned() && (State(), kb.input) == FilterKey(old(State()), env.pton, old(kb.input))
    {
      FilterKeepsInv(State(), env.pton, kb.input);
      var f := fields[cursor];
      if !f.drawable {
        return;
      }
      if !f.filterOn {
        f := NewFilter(kb, f);
      } else {
        f := f.(filterOn := false);
        store.KeepsFilter(fields[..], cursor, f);
      }
      SetField(f);
      DrawFieldHeader();
    }

    /** Collects the request bits of the enabled fields. */
    method RequestWord() returns (bits: set<nat>)
      ensures bits == RequestBits(fields[..])
    {
      bits := {};
      var i := 0;
      while i < fields.Length
        invariant 0 <= i <= fields.Length
        invariant bits == RequestBits(fields[..i])
      {
        var f := fields[i];
        RequestBitsGrow(fields[..], i);
        if f.enabled && f.extReq != 0 {
          bits := bits + {f.extReq};
        }
        i := i + 1;
      }
      assert fields[..i] == fields[..];
    }

    /** Leaves the field screen with the request word recomputed. */
    method FieldQuit()
      requires Valid() && screen.FieldScreen?
      modifies this
      ensures Valid() && State() == FieldQuitKey(old(State()))
    {
      OthersKeepInv(State());
      var bits := RequestWord();
      if extReq != bits {
        extReq := bits;
      }
      if sel.Some? {
        sel := None;
      }
      screen := MainScreen;
    }

    method FieldSort()
      requires Valid() && screen.FieldScreen?
      modifies this
      ensures Valid() && State() == SortKey(old(State()))
    {
      OthersKeepInv(State());
      if sortKey == Some(cursor) {
        if !ascending {
          ascending := true;
        } else {
          sortKey := None;
        }
      } else {
        sortKey := Some(cursor);
        ascending := false;
      }
      DrawFieldHeader();
    }

    method FieldKeyDown()
      requires Valid() && screen.FieldScreen?
      modifies this
      ensures Valid() && State() == DownKey(old(State()))
    {
      CursorKeepsInv(State(), env.lines);
      if cursor >= fields.Length - 1 {
        return;
      }
      cursor := cursor + 1;
      DrawFieldHeader();
    }

    method FieldKeyUp()
      requires Valid() && screen.FieldScreen?
      modifies this
      ensures Valid() && State() == UpKey(old(State()))
    {
      CursorKeepsInv(State(), env.lines);
      if cursor <= 0 {
        return;
      }
      cursor := cursor - 1;
      DrawFieldHeader();
    }

    method FieldPageDown()
      requires Valid() && screen.FieldScreen?
      modifies this
      ensures Valid() && State() == PageDownKey(old(State()), env.lines)
    {
      CursorKeepsInv(State(), env.lines);
      if cursor >= fields.Length - 1 {
        return;
      }
      cursor := cursor + HalfPage(env.lines);
      if cursor > fields.Length - 1 {
        cursor := fields.Length - 1;
      }
      DrawFieldHeader();
    }

    method FieldPageUp()
      requires Valid() && screen.FieldScreen?
      modifies this
      ensures Valid() && State() == PageUpKey(old(State()), env.lines)
    {
      CursorKeepsInv(State(), env.lines);
      if cursor <= 0 {
        return;
      }
      cursor := cursor - HalfPage(env.lines);
      if cursor < 0 {
        cursor := 0;
      }
      DrawFieldHeader();
    }

    method FieldHandler(kb: Keyboard, ch: char)
      requires Valid() && Owned() && screen.FieldScreen?
      requires OpensDialog(State(), ch) ==> DialogReady(fields[cursor], kb.input)
      modifies this, fields, kb, store
      ensures Valid() && Owned() && (State(), kb.input) == FieldKey(old(State()), env, ch, old(kb.input))
    {
      if ch == KEY_ESC || ch == 'q' {
        FieldQuit();
      } else if ch == ' ' {
        FieldSpace();
      } else if ch == 'f' {
        FieldFilter(kb);
      } else if ch == 'p' {
        FieldPin();
      } else if ch == 's' {
        FieldSort();
      } else if ch == KEY_DOWN {
        FieldKeyDown();
      } else if ch == KEY_UP {
        FieldKeyUp();
      } else if ch == KEY_LEFT {
        FieldKeyLeft();
      } else if ch == KEY_RIGHT {
        FieldKeyRight();
      } else if ch == KEY_NPAGE {
        FieldPageDown();
      } else if ch == KEY_PPAGE {
        FieldPageUp();
      }
    }

    method MainHandler(kb: Keyboard, ch: char)
      requires Valid() && screen.MainScreen? && (ch == 'd' ==> HasEol(kb.input))
      modifies this, kb
      ensures Valid() && (State(), kb.input) == MainKey(old(State()), env.lines, ch, old(kb.input))
    {
      MainKeepsInv(State(), env.lines, ch, kb.input);
      if ch == 'd' {
        delay := ReadDelay(kb, delay);
      } else {
        PlainMainHandler(ch);
      }
    }

    /** The keys of the main screen that open no dialog. */
    method PlainMainHandler(ch: char)
      requires Shown(State())
      modifies this
      ensures State() == PlainMainKey(old(State()), env.lines, ch)
      ensures screen.FieldScreen? ==> old(screen).FieldScreen? || rows == Rows(State(), env)
    {
      if ch == CTRL_C || ch == 'q' {
        stop := true;
      } else if ch == '4' {
        family := Inet;
      } else if ch == '6' {
        family := Inet6;
      } else if ch == 'f' {
        DrawFieldHeader();
      } else if ch == 'h' {
        screen := HelpScreen;
      } else if ch == 't' {
        protocol := Tcp;
      } else if ch == 'u' {
        protocol := Udp;
      } else {
        ScrollHandler(ch);
      }
    }

    method ScrollHandler(ch: char)
      modifies this`scrollX, this`scrollY
      ensures State() == ScrollKey(old(State()), env.lines, ch)
    {
      if ch == KEY_DOWN {
        scrollY := scrollY + 1;
      } else if ch == KEY_UP {
        if scrollY > 0 {
          scrollY := scrollY - 1;
        }
      } else if ch == KEY_LEFT {
        if scrollX > 0 {
          scrollX := scrollX - 1;
        }
      } else if ch == KEY_RIGHT {
        scrollX := scrollX + 1;
      } else if ch == KEY_NPAGE {
        scrollY := scrollY + HalfPage(env.lines);
      } else if ch == KEY_PPAGE {
        if scrollY > 0 {
          scrollY := scrollY - HalfPage(env.lines);
          if scrollY < 0 {
            scrollY := 0;
          }
        }
      }
    }

    /** Keeps the vertical offset on a list of `conns` entries. */
    method ClampScroll(conns: nat)
      requires Valid() && screen.MainScreen?
      modifies this`scrollY
      ensures Valid() && State() == old(State()).(scrollY := ClampedScroll(old(scrollY), conns))
    {
      if conns > 0 {
        if scrollY > conns - 1 {
          scrollY := conns - 1;
        }
      } else {
        if scrollY > 0 {
          scrollY := 0;
        }
      }
    }

    /** Reads one key and hands it to the screen that is shown. */
    method ShouldStop(kb: Keyboard) returns (stopped: bool)
      requires Valid() && Owned() && KeyReady(State(), kb.input)
      modifies this, fields, kb, store
      ensures Valid() && Owned() && (State(), kb.input) == Step(old(State()), env, old(kb.input[0]), old(kb.input[1..]))
      ensures stopped == stop
    {
      var ch := kb.Getch();
      if ch == ERR {
        TimeoutDoesNothing(State(), env, kb.input);
        return stop;
      }
      match screen {
        case MainScreen => MainHandler(kb, ch);
        case FieldScreen => FieldHandler(kb, ch);
        case HelpScreen =>
          if ch == KEY_ESC || ch == 'q' {
            screen := MainScreen;
          }
      }
      stopped := stop;
    }
  }

  lemma {:induction false} RequestBitsGrow(fields: seq<Field>, i: nat)
    requires i < |fields|
    ensures RequestBits(fields[..i + 1])
         == RequestBits(fields[..i]) + if fields[i].enabled && fields[i].extReq != 0 then {fields[i].extReq} else {}
  {
    var a, b := fields[..i + 1], fields[..i];
    forall k | 0 <= k < |b| && b[k].enabled && b[k].extReq != 0 ensures b[k].extReq in RequestBits(a) {
      assert a[k] == b[k];
    }
    if fields[i].enabled && fields[i].extReq != 0 {
      assert a[i].extReq in RequestBits(a);
    }
    forall x | x in RequestBits(a) ensures x in RequestBits(b) || (x == fields[i].extReq && fields[i].enabled && x != 0) {
      var k :| 0 <= k < |a| && a[k].enabled && a[k].extReq != 0 && a[k].extReq == x;
      if k < i {
        assert b[k] == a[k];
      }
    }
  }

  function ClampedScroll(y: int, conns: nat): (r: int)
    ensures 0 <= y ==> 0 <= r && (r < conns || r == 0)
  {
    if conns > 0 then (if y > conns - 1 then conns - 1 else y) else if y > 0 then 0 else y
  }

  function FollowKey(key: Option<nat>, from: nat, to: nat): (k: Option<nat>)
  {
    match key case None => None case Some(k) => Some(MovedIndex(k, from, to))
  }

  /** What exchanging rows `a` and `b` does to the table and the sort key. */
  function SwapRows(table: seq<Field>, key: Option<nat>, a: nat, b: nat): (r: (seq<Field>, Option<nat>))
    requires a < |table| && b < |table|
  {
    (table[a := table[b]][b := table[a]], if key == Some(a) then Some(b) else if key == Some(b) then Some(a) else key)
  }

  /** Swapping row `from` with its neighbour again and again until it is row `to`. */
  function SwapAlong(table: seq<Field>, key: Option<nat>, from: nat, to: nat): (r: (seq<Field>, Option<nat>))
    requires from < |table| && to < |table|
    ensures |r.0| == |table|
    decreases if from < to then to - from else from - to
  {
    if from == to then (table, key)
    else
      var at := if from < to then to - 1 else to + 1;
      var (t, k) := SwapAlong(table, key, from, at);
      SwapRows(t, k, at, to)
  }

  /** The swaps make one move. */
  lemma {:induction false} SwapsMove(table: seq<Field>, key: Option<nat>, from: nat, to: nat)
    requires from < |table| && to < |table|
    ensures SwapAlong(table, key, from, to) == (Moved(table, from, to), FollowKey(key, from, to))
    decreases if from < to then to - from else from - to
  {
    if from == to {
      assert Moved(table, from, from) == table;
    } else {
      var at := if from < to then to - 1 else to + 1;
      SwapsMove(table, key, from, at);
      FollowSwap(table, key, from, at, to);
    }
  }

  /** One swap takes a move and the sort key that follows it one row further. */
  lemma {:induction false} FollowSwap(table: seq<Field>, key: Option<nat>, from: nat, at: nat, next: nat)
    requires from < |table| && at < |table| && next < |table|
    requires (from <= at && next == at + 1) || (at <= from && at == next + 1)
    ensures var m := Moved(table, from, at);
            m[at := m[next]][next := m[at]] == Moved(table, from, next)
    ensures var k := FollowKey(key, from, at);
            FollowKey(key, from, next) == if k == Some(at) then Some(next) else if k == Some(next) then Some(at) else k
  {
    SwapExtendsMove(table, from, at, next);
  }
}
