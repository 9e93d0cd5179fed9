/** Runs of the main loop that follow a null pointer, key by key from the start. */
module CrashRuns {
  import opened Types
  import opened Keys
  import opened FilterText
  import opened FieldEditor
  import opened UiModel
  import opened Owners
  import opened Netlink
  import opened Dump
  import opened Layout
  import opened Monitor

  /** The kernel answers with two records without attributes. */
  function TwoRecords(r: DiagMsg): (round: Round)
    ensures GoodRound(round)
  {
    Round([], true, [Datagram([Diag(r, []), Diag(r, []), Done])])
  }

  lemma {:induction false} RecordTaken(req: Request, owners: map<nat, Owner>, r: DiagMsg, conns: seq<Conn>)
    ensures TakeMsg(req, owners, Diag(r, []), conns) == Progress(conns + [ConnOf(req, owners, r, [])], More)
  {
    assert AttrsFrom([], 0) == [] && AllSupported([]);
  }

  /** Both records are listed, and carry the base groups. */
  lemma {:induction false} TwoRecordsTaken(req: Request, r: DiagMsg) returns (c: Conn)
    ensures Answer(req, TwoRecords(r)) == Progress([c, c], Finished) && BASE_EXT <= c.ext
    ensures FailureOf(req, TwoRecords(r)).None?
  {
    var round, owners := TwoRecords(r), OwnersSeen(req, TwoRecords(r));
    c := ConnOf(req, owners, r, []);
    var msgs := round.recvs[0].msgs;
    RecordTaken(req, owners, r, []);
    RecordTaken(req, owners, r, [c]);
    assert [] + [c] == [c] && [c] + [c] == [c, c];
    assert msgs[1..] == [Diag(r, []), Done] && msgs[1..][1..] == [Done];
    assert TakeMsgs(req, owners, [Done], [c, c]) == Progress([c, c], Finished);
    assert TakeMsgs(req, owners, msgs[1..], [c]) == Progress([c, c], Finished);
    assert TakeRecv(req, owners, round.recvs[0], []) == Progress([c, c], Finished);
  }

  /** A first refresh with the two records leaves the state at start as it is. */
  lemma {:induction false} FirstRefresh(table: seq<Field>, env: Env, input: string, r: DiagMsg, rounds: seq<Round>)
    requires InitialTable(table) && GoodRounds(rounds)
    ensures var ui := InitialUi(table);
            && Inv(ui)
            && var t := RefreshTurn(ui, env, input, [TwoRecords(r)] + rounds);
               t.ending.None? && t.ui == ui && t.rounds == rounds
  {
    InitialInv(table);
    var ui := InitialUi(table);
    var c := TwoRecordsTaken(RequestOf(ui), r);
    ReadyNeverCallsNull(ui, TwoRecords(r), env.cols);
    assert ([TwoRecords(r)] + rounds)[1..] == rounds;
  }

  /** One key on the way that leaves the loop running. */
  lemma {:induction false} LoopKey(ui: Ui, env: Env, key: char, rest: string, rounds: seq<Round>, after: Ui, left: string)
    requires Inv(ui) && env.lines >= 3 && GoodRounds(rounds) && !ui.screen.MainScreen?
    requires KeyReady(ui, [key] + rest) && Step(ui, env, key, rest) == (after, left) && !after.stop
    ensures Inv(after)
    ensures Loop(ui, env, [key] + rest, rounds).ending == Loop(after, env, left, rounds).ending
  {
    StepKeepsInv(ui, env, key, rest);
    assert ([key] + rest)[0] == key && ([key] + rest)[1..] == rest;
    assert OneTurn(ui, env, [key] + rest, rounds) == Turn(after, left, rounds, [], None);
  }

  /** The key `f` at start, after a refresh with the two records. */
  lemma {:induction false} OpenFields(table: seq<Field>, env: Env, rest: string, r: DiagMsg, rounds: seq<Round>)
    requires InitialTable(table) && env.lines >= 3 && GoodRounds(rounds)
    ensures Inv(InitialUi(table)) && Inv(InitialUi(table).(screen := FieldScreen))
    ensures Loop(InitialUi(table), env, ['f'] + rest, [TwoRecords(r)] + rounds).ending
         == Loop(InitialUi(table).(screen := FieldScreen), env, rest, rounds).ending
  {
    var ui, input := InitialUi(table), ['f'] + rest;
    FirstRefresh(table, env, input, r, rounds);
    StepKeepsInv(ui, env, 'f', rest);
    assert input[0] == 'f' && input[1..] == rest;
    assert GoodRounds([TwoRecords(r)] + rounds);
    var t := OneTurn(ui, env, input, [TwoRecords(r)] + rounds);
    assert t.ui == ui.(screen := FieldScreen) && t.input == rest && t.rounds == rounds && t.ending.None?;
  }

  /** With a heading of a base group in the first row, the keys `f`, `s` and `q` and two
      connections are enough. */
  lemma {:induction false} HeadingRun(table: seq<Field>, env: Env, r: DiagMsg)
    requires InitialTable(table) && env.lines >= 3 && !table[0].drawable && table[0].extRcv in BASE_EXT
    ensures Inv(InitialUi(table))
    ensures Loop(InitialUi(table), env, "fsq", [TwoRecords(r), TwoRecords(r)]).ending == Some(NullCall)
  {
    OpenFields(table, env, "sq", r, [TwoRecords(r)]);
    assert ['f'] + "sq" == "fsq" && [TwoRecords(r)] + [TwoRecords(r)] == [TwoRecords(r), TwoRecords(r)];
    SortByHeading(InitialUi(table).(screen := FieldScreen), env, r);
  }

  lemma {:induction false} SortByHeading(ui: Ui, env: Env, r: DiagMsg)
    requires Inv(ui) && env.lines >= 3 && ui.screen.FieldScreen? && !ui.stop && ui.sortKey.None?
    requires !AtCursor(ui).drawable && AtCursor(ui).extRcv in BASE_EXT
    ensures Loop(ui, env, "sq", [TwoRecords(r)]).ending == Some(NullCall)
  {
    var sorted := SortKey(ui);
    assert ['s'] + "q" == "sq";
    LoopKey(ui, env, 's', "q", [TwoRecords(r)], sorted, "q");
    QuitFields(sorted, env, [TwoRecords(r)]);
    HeadingCrash(FieldQuitKey(sorted), env, "", r);
  }

  /** The key `q` on the field screen. */
  lemma {:induction false} QuitFields(ui: Ui, env: Env, rounds: seq<Round>)
    requires Inv(ui) && env.lines >= 3 && GoodRounds(rounds) && ui.screen.FieldScreen? && !ui.stop
    ensures Inv(FieldQuitKey(ui))
    ensures Loop(ui, env, "q", rounds).ending == Loop(FieldQuitKey(ui), env, "", rounds).ending
  {
    assert ['q'] + "" == "q";
    LoopKey(ui, env, 'q', "", rounds, FieldQuitKey(ui), "");
  }

  lemma {:induction false} HeadingCrash(ui: Ui, env: Env, input: string, r: DiagMsg)
    requires Inv(ui) && env.lines >= 3 && ui.screen.MainScreen?
    requires ui.sortKey.Some? && var key := ui.fields[ui.sortKey.value]; !key.drawable && key.extRcv in BASE_EXT
    ensures Loop(ui, env, input, [TwoRecords(r)]).ending == Some(NullCall)
  {
    var c := TwoRecordsTaken(RequestOf(ui), r);
    var conns := Answer(RequestOf(ui), TwoRecords(r)).conns;
    assert conns[0] == c && conns[1] == c;
    assert ComparesHeading(ui.fields[ui.sortKey.value], conns);
  }

  /** With a drawn field of a base group in the second row, whose dialog takes operators,
      an operator alone and a connection are enough. */
  lemma {:induction false} BareOperatorRun(table: seq<Field>, env: Env, r: DiagMsg)
    requires InitialTable(table) && env.lines >= 3 && |table| > 1
    requires table[1].drawable && table[1].enabled && table[1].extRcv in BASE_EXT && !table[1].kind.ChoiceKind?
    ensures Inv(InitialUi(table))
    ensures Loop(InitialUi(table), env, ['f', KEY_DOWN, 'f', '=', '\n', 'q'], [TwoRecords(r), TwoRecords(r)]).ending == Some(NullCall)
  {
    OpenFields(table, env, [KEY_DOWN, 'f', '=', '\n', 'q'], r, [TwoRecords(r)]);
    assert ['f'] + [KEY_DOWN, 'f', '=', '\n', 'q'] == ['f', KEY_DOWN, 'f', '=', '\n', 'q'];
    assert [TwoRecords(r)] + [TwoRecords(r)] == [TwoRecords(r), TwoRecords(r)];
    FilterSecond(InitialUi(table).(screen := FieldScreen), env, r);
  }

  lemma {:induction false} FilterSecond(ui: Ui, env: Env, r: DiagMsg)
    requires Inv(ui) && env.lines >= 3 && ui.screen.FieldScreen? && !ui.stop && ui.cursor == 0 && |ui.fields| > 1
    requires ui.sortKey.None? && ui.scrollY == 0 && !ui.fields[0].filterOn
    requires var f := ui.fields[1];
             f.drawable && f.enabled && !f.filterOn && f.filter.None? && f.extRcv in BASE_EXT && !f.kind.ChoiceKind?
    ensures Loop(ui, env, [KEY_DOWN, 'f', '=', '\n', 'q'], [TwoRecords(r)]).ending == Some(NullCall)
  {
    var second := DownKey(ui);
    assert [KEY_DOWN] + ['f', '=', '\n', 'q'] == [KEY_DOWN, 'f', '=', '\n', 'q'];
    assert ['f'] + ['=', '\n', 'q'] == ['f', '=', '\n', 'q'];
    LoopKey(ui, env, KEY_DOWN, ['f', '=', '\n', 'q'], [TwoRecords(r)], second, ['f', '=', '\n', 'q']);
    var filtered := FilterAlone(second, env, [TwoRecords(r)]);
    QuitFields(filtered, env, [TwoRecords(r)]);
    FilterCrash(FieldQuitKey(filtered), env, "", r);
  }

  /** The operator `=` alone, typed for the field under the cursor. */
  lemma {:induction false} FilterAlone(ui: Ui, env: Env, rounds: seq<Round>) returns (after: Ui)
    requires Inv(ui) && env.lines >= 3 && GoodRounds(rounds) && ui.screen.FieldScreen? && !ui.stop
    requires var f := AtCursor(ui); f.drawable && !f.filterOn && f.filter.None? && !f.kind.ChoiceKind?
    ensures Inv(after) && after == SetAtCursor(ui, AtCursor(ui).(filterOn := true))
    ensures Loop(ui, env, ['f'] + ['=', '\n', 'q'], rounds).ending == Loop(after, env, "q", rounds).ending
  {
    var f, typed := AtCursor(ui), ['=', '\n', 'q'];
    after := SetAtCursor(ui, f.(filterOn := true));
    LineOf("=", '\n', "q");
    assert "=" + ['\n'] + "q" == typed;
    assert SkipBlanks("=") == "=" && "="[1..] == "" && IsBareOperator(f.kind, "=");
    assert IsEol(typed[1]) && HasEol(typed);
    DialogWithoutFilter(f, env.pton, typed);
    assert f.(filter := None, filterOn := true) == f.(filterOn := true);
    LoopKey(ui, env, 'f', typed, rounds, after, "q");
  }

  lemma {:induction false} FilterCrash(ui: Ui, env: Env, input: string, r: DiagMsg)
    requires Inv(ui) && env.lines >= 3 && ui.screen.MainScreen? && ui.sortKey.None? && ui.scrollY == 0 && |ui.fields| > 1
    requires var f := ui.fields[1]; f.drawable && f.enabled && f.filterOn && f.filter.None? && f.extRcv in BASE_EXT
    requires !ui.fields[0].filterOn
    ensures Loop(ui, env, input, [TwoRecords(r)]).ending == Some(NullCall)
  {
    var req, round := RequestOf(ui), TwoRecords(r);
    var c := TwoRecordsTaken(req, r);
    var conns, listed := Answer(req, round).conns, Listed(req, round);
    Comparators.NoKeyKeepsArrivalOrder(req.ascending, conns);
    assert listed == conns && listed[0] == c;
    ExtOfMembers(conns, ui.fields[1].extRcv);
    var v := ViewOf(Refreshed(ui, round), ExtOf(conns), env.cols);
    assert MissingAt(v, c, 1);
    assert FilterMissing(v, listed[0]);
  }
}
