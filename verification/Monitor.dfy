/** The main loop: build the owner table, dump, draw, handle a key, and clean up at exit. */
module Monitor {
  import opened Types
  import opened StableSort
  import opened Comparators
  import opened ConnRing
  import opened Owners
  import opened Dump
  import opened FilterText
  import opened FilterDialog
  import opened FieldEditor
  import opened UiModel
  import opened Editor
  import opened Layout
  import opened Frame

  /** What the system answers in one refresh. */
  datatype Round = Round(procs: seq<Proc>, sent: bool, recvs: seq<Recv>)

  predicate GoodRound(r: Round)
  {
    |AllSockets(r.procs)| <= INT_MAX && forall i | 0 <= i < |r.recvs| :: GoodRecv(r.recvs[i])
  }

  // ----- what one refresh shows, and when it fails

  function RequestOf(ui: Ui): (req: Request)
    requires ui.sortKey.Some? ==> ui.sortKey.value < |ui.fields|
  {
    Request(if ui.sortKey.None? then None else Some(ui.fields[ui.sortKey.value]), ui.ascending, ui.extReq)
  }

  function ViewOf(ui: Ui, extRcv: set<nat>, cols: nat): (v: View)
    requires ui.scrollX >= 0
  {
    View(ui.fields, extRcv, ui.family, ui.scrollX, cols)
  }

  /** The owners a refresh sees. */
  function OwnersSeen(req: Request, round: Round): (m: map<nat, Owner>)
  {
    if INET_DIAG_PROC in req.extReq then OwnersFrom(AllSockets(round.procs)) else map[]
  }

  /** What a refresh is told about connections, in arrival order. */
  function Answer(req: Request, round: Round): (p: Progress)
    requires GoodRound(round)
  {
    TakeAll(req, OwnersSeen(req, round), round.recvs, [])
  }

  function Listed(req: Request, round: Round): (cs: seq<Conn>)
    requires GoodRound(round)
    ensures |cs| == |Answer(req, round).conns|
  {
    ArriveLength(OrderOf(req), Answer(req, round).conns);
    Arrive(OrderOf(req), Answer(req, round).conns)
  }

  lemma {:induction false} ArriveLength(lt: (Conn, Conn) -> bool, cs: seq<Conn>)
    ensures |Arrive(lt, cs)| == |cs|
  {
    if cs != [] {
      ArriveLength(lt, cs[..|cs| - 1]);
    }
  }

  /** Why a refresh fails: a process cannot be read, or the dump does not come to its end. */
  datatype Failure = NoOwners | NoDump

  function FailureOf(req: Request, round: Round): (f: Option<Failure>)
    requires GoodRound(round)
  {
    if INET_DIAG_PROC in req.extReq && exists i :: 0 <= i < |round.procs| && round.procs[i].comm.None? then Some(NoOwners)
    else if !round.sent || !Answer(req, round).end.Finished? then Some(NoDump)
    else None
  }

  function Clamped(ui: Ui, req: Request, round: Round): (r: Ui)
    requires GoodRound(round)
  {
    ui.(scrollY := ClampedScroll(ui.scrollY, |Answer(req, round).conns|))
  }

  /** The state once a round is listed. */
  function Refreshed(ui: Ui, round: Round): (r: Ui)
    requires GoodRound(round) && (ui.sortKey.Some? ==> ui.sortKey.value < |ui.fields|)
  {
    Clamped(ui, RequestOf(ui), round)
  }

  /** The picture of `listed`: header, then from the vertical offset on the connections
      that no filter rejects, then blank rows. */
  function PictureOf(ui: Ui, conns: seq<Conn>, listed: seq<Conn>, cols: nat): (frame: seq<string>)
    requires ui.scrollX >= 0 && 0 <= ui.scrollY <= |listed|
  {
    var v := ViewOf(ui, ExtOf(conns), cols);
    var shown := AcceptedConns(v, listed[ui.scrollY..]);
    seq(|listed| + 1, y requires 0 <= y <= |listed| => FrameRow(v, shown, y))
  }

  function Picture(ui: Ui, req: Request, round: Round, cols: nat): (frame: seq<string>)
    requires GoodRound(round) && ui.scrollX >= 0 && 0 <= ui.scrollY <= |Listed(req, round)|
  {
    PictureOf(ui, Answer(req, round).conns, Listed(req, round), cols)
  }

  /** The kernel's answer is compared by a heading's missing comparator. */
  predicate ComparesNull(req: Request, round: Round)
    requires GoodRound(round)
  {
    && FailureOf(req, round) != Some(NoOwners) && round.sent
    && req.sortKey.Some? && ComparesHeading(req.sortKey.value, Answer(req, round).conns)
  }

  /** A drawn connection reaches a switched-on filter that does not exist. */
  predicate EvaluatesNull(ui: Ui, req: Request, round: Round, cols: nat)
    requires GoodRound(round) && ui.scrollX >= 0 && 0 <= ui.scrollY
  {
    && FailureOf(req, round).None?
    && exists i :: ui.scrollY <= i < |Listed(req, round)|
         && FilterMissing(ViewOf(ui, ExtOf(Answer(req, round).conns), cols), Listed(req, round)[i])
  }

  /** The refresh follows a null pointer: nothing is said of what happens then. */
  predicate CallsNull(ui: Ui, round: Round, cols: nat)
    requires GoodRound(round) && ui.scrollX >= 0 && 0 <= ui.scrollY
    requires ui.sortKey.Some? ==> ui.sortKey.value < |ui.fields|
  {
    ComparesNull(RequestOf(ui), round) || EvaluatesNull(Refreshed(ui, round), RequestOf(ui), round, cols)
  }

  /** Unless a heading is the sort key or a filter is switched on that does not exist,
      no refresh follows a null pointer. */
  lemma {:induction false} ReadyNeverCallsNull(ui: Ui, round: Round, cols: nat)
    requires Inv(ui) && SortReady(ui) && FiltersReady(ui) && GoodRound(round)
    ensures !CallsNull(ui, round, cols)
  {
  }

  /** The picture is one of any stable sort of a one-family answer, however it is made. */
  lemma {:induction false} PictureOfTheStableSort(ui: Ui, req: Request, round: Round, cols: nat, family: Family, sorted: seq<Conn>)
    requires GoodRound(round) && ui.scrollX >= 0 && 0 <= ui.scrollY <= |Listed(req, round)|
    requires Within(Answer(req, round).conns, Sortable(req.sortKey, family))
    ensures IsStableSort(OrderOf(req), Answer(req, round).conns, sorted) <==> sorted == Listed(req, round)
    ensures IsStableSort(OrderOf(req), Answer(req, round).conns, sorted) ==>
              Picture(ui, req, round, cols) == PictureOf(ui, Answer(req, round).conns, sorted, cols)
  {
    ListOrderIsStrictWeakOrder(req.sortKey, req.ascending, family);
    ArriveIsTheStableSort(OrderOf(req), Sortable(req.sortKey, family), Answer(req, round).conns, sorted);
  }

  // ----- the whole loop as a function

  /** How the loop ended: a key asked for it, a refresh failed, the answers or the keys of
      this run are used up, a null pointer was followed, or a dialog wrote behind its buffer. */
  datatype Ending = Stopped | RefreshFailed(why: Failure) | OutOfRounds | OutOfKeys | NullCall | Overrun

  /** Where the loop is: its state, the keys and answers to come, and the frames shown. */
  datatype Turn = Turn(ui: Ui, input: string, rounds: seq<Round>, frames: seq<seq<string>>, ending: Option<Ending>)

  predicate GoodRounds(rounds: seq<Round>)
  {
    forall i | 0 <= i < |rounds| :: GoodRound(rounds[i])
  }

  /** The refresh of one turn: only the main screen has one. */
  ghost function RefreshTurn(ui: Ui, env: Env, input: string, rounds: seq<Round>): (t: Turn)
    requires Inv(ui) && GoodRounds(rounds)
    ensures Inv(t.ui) && GoodRounds(t.rounds) && t.input == input
  {
    if !ui.screen.MainScreen? then Turn(ui, input, rounds, [], None)
    else if rounds == [] then Turn(ui, input, rounds, [], Some(OutOfRounds))
    else if CallsNull(ui, rounds[0], env.cols) then Turn(ui, input, rounds, [], Some(NullCall))
    else
      var req := RequestOf(ui);
      match FailureOf(req, rounds[0])
      case Some(why) => Turn(ui, input, rounds[1..], [], Some(RefreshFailed(why)))
      case None =>
        var after := Refreshed(ui, rounds[0]);
        RefreshKeepsInv(ui, rounds[0]);
        Turn(after, input, rounds[1..], [Picture(after, req, rounds[0], env.cols)], None)
  }

  lemma {:induction false} RefreshKeepsInv(ui: Ui, round: Round)
    requires Inv(ui) && GoodRound(round)
    ensures Inv(Refreshed(ui, round)) && Refreshed(ui, round).scrollY <= |Listed(RequestOf(ui), round)|
  {
  }

  /** The key of one turn. */
  ghost function KeyTurn(t: Turn, env: Env): (r: Turn)
    requires Inv(t.ui) && env.lines >= 3 && t.ending.None?
    ensures Inv(r.ui) && r.rounds == t.rounds
    ensures r.ending.None? ==> |r.input| < |t.input|
  {
    if !KeyTyped(t.ui, t.input) then t.(ending := Some(OutOfKeys))
    else if Overruns(t.ui, t.input) then t.(ending := Some(Overrun))
    else
      StepKeepsInv(t.ui, env, t.input[0], t.input[1..]);
      var (ui, rest) := Step(t.ui, env, t.input[0], t.input[1..]);
      Turn(ui, rest, t.rounds, t.frames, if ui.stop then Some(Stopped) else None)
  }

  ghost function OneTurn(ui: Ui, env: Env, input: string, rounds: seq<Round>): (t: Turn)
    requires Inv(ui) && env.lines >= 3 && GoodRounds(rounds)
    ensures Inv(t.ui) && GoodRounds(t.rounds)
    ensures t.ending.None? ==> |t.input| < |input|
  {
    var t := RefreshTurn(ui, env, input, rounds);
    if t.ending.Some? then t else KeyTurn(t, env)
  }

  /** All turns. */
  ghost function Loop(ui: Ui, env: Env, input: string, rounds: seq<Round>): (t: Turn)
    requires Inv(ui) && env.lines >= 3 && GoodRounds(rounds)
    ensures Inv(t.ui) && GoodRounds(t.rounds) && t.ending.Some?
    decreases |input|
  {
    var t := OneTurn(ui, env, input, rounds);
    if t.ending.Some? then t
    else
      var later := Loop(t.ui, env, t.input, t.rounds);
      Behind(t.frames, later)
  }

  /** A turn with frames that were shown before it. */
  function Behind(frames: seq<seq<string>>, t: Turn): (r: Turn)
  {
    t.(frames := frames + t.frames)
  }

  lemma {:induction false} BehindTwice(a: seq<seq<string>>, b: seq<seq<string>>, t: Turn)
    ensures Behind(a, Behind(b, t)) == Behind(a + b, t)
  {
    assert a + (b + t.frames) == (a + b) + t.frames;
  }

  /** One turn, then the rest: the same loop. */
  lemma {:induction false} LoopNext(ui: Ui, env: Env, input: string, rounds: seq<Round>, frames: seq<seq<string>>)
      returns (t: Turn)
    requires Inv(ui) && env.lines >= 3 && GoodRounds(rounds)
    ensures t == OneTurn(ui, env, input, rounds)
    ensures Behind(frames, Loop(ui, env, input, rounds))
         == if t.ending.Some? then Behind(frames, t)
            else Behind(frames + t.frames, Loop(t.ui, env, t.input, t.rounds))
  {
    t := OneTurn(ui, env, input, rounds);
    if t.ending.None? {
      BehindTwice(frames, t.frames, Loop(t.ui, env, t.input, t.rounds));
    }
  }

  lemma {:induction false} TurnConservesFields(ui: Ui, env: Env, input: string, rounds: seq<Round>)
    requires Inv(ui) && env.lines >= 3 && GoodRounds(rounds)
    ensures multiset(Cores(OneTurn(ui, env, input, rounds).ui.fields)) == multiset(Cores(ui.fields))
  {
    var t := RefreshTurn(ui, env, input, rounds);
    assert t.ui.fields == ui.fields;
    if t.ending.None? && KeyReady(t.ui, input) {
      StepConservesFields(t.ui, env, input[0], input[1..]);
    }
  }

  /** Over every run of the main loop no field is lost, duplicated or changed in what is
      not the user's to set. */
  lemma {:induction false} LoopConservesFields(ui: Ui, env: Env, input: string, rounds: seq<Round>)
    requires Inv(ui) && env.lines >= 3 && GoodRounds(rounds)
    ensures multiset(Cores(Loop(ui, env, input, rounds).ui.fields)) == multiset(Cores(ui.fields))
    decreases |input|
  {
    TurnConservesFields(ui, env, input, rounds);
    var t := OneTurn(ui, env, input, rounds);
    if t.ending.None? {
      LoopConservesFields(t.ui, env, t.input, t.rounds);
    }
  }

  /** The loop has come to its last answer: `later` is what is behind round `k`. */
  predicate IsAnswer(rounds: seq<Round>, later: seq<Round>, k: int)
  {
    0 <= k < |rounds| && later == rounds[k + 1..]
  }

  /** The last answer taken makes the refresh fail for the reason `why`. */
  ghost predicate LastFails(t: Turn, rounds: seq<Round>, why: Failure)
    requires Inv(t.ui) && GoodRounds(rounds)
  {
    exists k :: IsAnswer(rounds, t.rounds, k) && FailureOf(RequestOf(t.ui), rounds[k]) == Some(why)
  }

  /** What the reasons to end with mean. */
  ghost predicate EndsRightly(t: Turn, env: Env, rounds: seq<Round>)
    requires Inv(t.ui) && GoodRounds(rounds) && GoodRounds(t.rounds)
  {
    match t.ending
    case None => true
    case Some(Stopped) => t.ui.stop
    case Some(OutOfRounds) => t.ui.screen.MainScreen? && t.rounds == []
    case Some(OutOfKeys) => !KeyTyped(t.ui, t.input)
    case Some(Overrun) => KeyTyped(t.ui, t.input) && Overruns(t.ui, t.input)
    case Some(NullCall) => t.ui.screen.MainScreen? && t.rounds != [] && CallsNull(t.ui, t.rounds[0], env.cols)
    case Some(RefreshFailed(why)) => t.ui.screen.MainScreen? && LastFails(t, rounds, why)
  }

  lemma {:induction false} TurnEndsRightly(ui: Ui, env: Env, input: string, rounds: seq<Round>)
    requires Inv(ui) && env.lines >= 3 && GoodRounds(rounds)
    ensures EndsRightly(OneTurn(ui, env, input, rounds), env, rounds)
  {
    var t := OneTurn(ui, env, input, rounds);
    if t.ending.Some? && t.ending.value.RefreshFailed? {
      assert IsAnswer(rounds, t.rounds, 0);
    }
  }

  lemma {:induction false} TurnTakesOne(ui: Ui, env: Env, input: string, rounds: seq<Round>)
    requires Inv(ui) && env.lines >= 3 && GoodRounds(rounds)
    ensures var t := OneTurn(ui, env, input, rounds); t.rounds == rounds || (rounds != [] && t.rounds == rounds[1..])
  {
  }

  lemma {:induction false} FailsLater(t: Turn, rounds: seq<Round>, why: Failure)
    requires Inv(t.ui) && GoodRounds(rounds) && rounds != [] && LastFails(t, rounds[1..], why)
    ensures LastFails(t, rounds, why)
  {
    var k :| IsAnswer(rounds[1..], t.rounds, k) && FailureOf(RequestOf(t.ui), rounds[1..][k]) == Some(why);
    assert rounds[1..][k + 1..] == rounds[k + 2..];
    assert IsAnswer(rounds, t.rounds, k + 1);
  }

  lemma {:induction false} LoopEndings(ui: Ui, env: Env, input: string, rounds: seq<Round>)
    requires Inv(ui) && env.lines >= 3 && GoodRounds(rounds)
    ensures EndsRightly(Loop(ui, env, input, rounds), env, rounds)
    decreases |input|
  {
    TurnEndsRightly(ui, env, input, rounds);
    TurnTakesOne(ui, env, input, rounds);
    var t := OneTurn(ui, env, input, rounds);
    if t.ending.None? {
      LoopEndings(t.ui, env, t.input, t.rounds);
      var end := Loop(ui, env, input, rounds);
      if end.ending.value.RefreshFailed? && t.rounds != rounds {
        FailsLater(Loop(t.ui, env, t.input, t.rounds), rounds, end.ending.value.why);
      }
    }
  }

  /** No heading becomes the sort key and no missing filter is switched on. */
  ghost predicate Safe(ui: Ui)
  {
    SortReady(ui) && FiltersReady(ui)
  }

  /** The key neither sorts by a heading nor ends a dialog with an operator alone. */
  ghost predicate SafeKey(ui: Ui, input: string)
    requires Inv(ui) && input != []
  {
    && !(ui.screen.FieldScreen? && input[0] == 's' && !AtCursor(ui).drawable)
    && !(OpensDialog(ui, input[0]) && AtCursor(ui).filter.None? && !AtCursor(ui).kind.ChoiceKind?
         && IsBareOperator(AtCursor(ui).kind, FirstLine(input[1..])))
  }

  /** Every key of the run is safe, in the state it is pressed in. */
  ghost predicate SafeKeys(ui: Ui, env: Env, input: string, rounds: seq<Round>)
    requires Inv(ui) && env.lines >= 3 && GoodRounds(rounds)
    decreases |input|
  {
    var r := RefreshTurn(ui, env, input, rounds);
    var t := OneTurn(ui, env, input, rounds);
    && (r.ending.None? && KeyReady(r.ui, input) ==> SafeKey(r.ui, input))
    && (t.ending.None? ==> SafeKeys(t.ui, env, t.input, t.rounds))
  }

  lemma {:induction false} SafeTurn(ui: Ui, env: Env, input: string, rounds: seq<Round>)
    requires Inv(ui) && env.lines >= 3 && GoodRounds(rounds) && Safe(ui)
    requires var r := RefreshTurn(ui, env, input, rounds); r.ending.None? && KeyReady(r.ui, input) ==> SafeKey(r.ui, input)
    ensures var t := OneTurn(ui, env, input, rounds); t.ending != Some(NullCall) && (t.ending.None? ==> Safe(t.ui))
  {
    if ui.screen.MainScreen? && rounds != [] {
      ReadyNeverCallsNull(ui, rounds[0], env.cols);
    }
    var r := RefreshTurn(ui, env, input, rounds);
    assert Safe(r.ui);
    if r.ending.None? && KeyReady(r.ui, input) {
      StepKeepsSortReady(r.ui, env, input[0], input[1..]);
      StepKeepsFiltersReady(r.ui, env, input[0], input[1..]);
    }
  }

  /** A run whose keys are all safe never follows a null pointer. */
  lemma {:induction false} SafeRun(ui: Ui, env: Env, input: string, rounds: seq<Round>)
    requires Inv(ui) && env.lines >= 3 && GoodRounds(rounds) && Safe(ui) && SafeKeys(ui, env, input, rounds)
    ensures Loop(ui, env, input, rounds).ending != Some(NullCall)
    decreases |input|
  {
    SafeTurn(ui, env, input, rounds);
    var t := OneTurn(ui, env, input, rounds);
    if t.ending.None? {
      SafeRun(t.ui, env, t.input, t.rounds);
    }
  }

  // ----- the program

  /** Between refreshes nothing is listed and no owner is stored. */
  ghost predicate Idle(list: ConnList, table: OwnerTable)
    reads list, list.head, list.nodes, table, table.hb, table.log
  {
    ListReady(list) && list.nodes == [] && table.Valid() && table.log == []
  }

  /** A failed refresh may leave entries and owners behind, owners only if asked for. */
  ghost predicate Left(list: ConnList, table: OwnerTable, extReq: set<nat>)
    reads list, list.head, list.nodes, table, table.hb, table.log
  {
    ListReady(list) && table.Valid() && (INET_DIAG_PROC !in extReq ==> table.log == [])
  }

  /** The comparisons of a round all have a comparator. */
  lemma {:induction false} AnswerFits(ui: Ui, round: Round)
    requires Inv(ui) && GoodRound(round) && !ComparesNull(RequestOf(ui), round)
    ensures var req := RequestOf(ui);
            FailureOf(req, round) != Some(NoOwners) && round.sent ==> KeyFits(req.sortKey, Answer(req, round).conns)
  {
    var req := RequestOf(ui);
    var conns := Answer(req, round).conns;
    if req.sortKey.Some? {
      assert GoodField(req.sortKey.value);
      KeyFitsExactly(req.sortKey.value, conns);
    } else {
      NoKeyFits(conns);
    }
  }

  lemma {:induction false} NoKeyFits(conns: seq<Conn>)
    ensures KeyFits(None, conns)
  {
    if conns != [] {
      NoKeyFits(conns[..|conns| - 1]);
    }
  }

  /** Builds the table and fills the list. */
  method Collect(list: ConnList, table: OwnerTable, req: Request, round: Round, extRcv: set<nat>)
      returns (failure: Option<Failure>, extRcv': set<nat>)
    requires Idle(list, table) && GoodRound(round)
    requires FailureOf(req, round) != Some(NoOwners) && round.sent ==> KeyFits(req.sortKey, Answer(req, round).conns)
    modifies list, list.head, list.nodes, table, table.hb
    ensures Left(list, table, req.extReq)
    ensures failure == FailureOf(req, round)
    ensures failure.None? ==>
              && Holds(list, req, Answer(req, round).conns, extRcv')
              && StablySorted(req, Answer(req, round).conns, list.Conns())
    ensures table.hb == old(table.hb)
    ensures forall k | 0 <= k < |table.log| :: fresh(table.log[k])
    ensures forall n | n in list.nodes :: fresh(n)
  {
    extRcv' := extRcv;
    var err := BuildMap(table, req.extReq, round.procs);
    if err {
      return Some(NoOwners), extRcv;
    }
    err, extRcv' := ConnectionsDump(list, table, req, round.sent, round.recvs, extRcv);
    failure := if err then Some(NoDump) else None;
  }

  /** Draws what was collected, which empties the list and the owner table. */
  method DrawConnections(list: ConnList, table: OwnerTable, extReq: set<nat>, v: View, skip: nat) returns (win: Window)
    requires Left(list, table, extReq) && skip <= |list.nodes|
    requires forall i | skip <= i < |list.nodes| :: !FilterMissing(v, list.Conns()[i])
    modifies list, list.head, list.nodes, table, table.hb
    ensures Idle(list, table)
    ensures fresh(win) && fresh(win.lines) && win.lines.Length == |old(list.nodes)| + 1
    ensures PaintedTo(win, v, AcceptedConns(v, old(list.Conns())[skip..]))
    ensures INET_DIAG_PROC in extReq ==> IsBestShift(table.shift, |old(table.log)|)
    ensures table.hb == old(table.hb) || fresh(table.hb)
  {
    win := DrawFrame(v, list, skip);
    table.Free(extReq, true);
  }

  /** Draws the answer of a successful round. */
  method DrawAnswer(ui: Ui, list: ConnList, table: OwnerTable, req: Request, round: Round, extRcv: set<nat>, cols: nat)
      returns (frame: seq<string>)
    requires GoodRound(round) && FailureOf(req, round).None?
    requires Left(list, table, ui.extReq) && Holds(list, req, Answer(req, round).conns, extRcv)
    requires ui.scrollX >= 0 && 0 <= ui.scrollY <= |Listed(req, round)| && !EvaluatesNull(ui, req, round, cols)
    modifies list, list.head, list.nodes, table, table.hb
    ensures Idle(list, table) && frame == Picture(ui, req, round, cols)
    ensures table.hb == old(table.hb) || fresh(table.hb)
  {
    var win := DrawConnections(list, table, ui.extReq, ViewOf(ui, extRcv, cols), ui.scrollY);
    frame := win.lines[..];
  }

  /** One refresh of the main screen. */
  method Refresh(ui: Context, list: ConnList, table: OwnerTable, round: Round, extRcv: set<nat>)
      returns (failure: Option<Failure>, extRcv': set<nat>, frame: seq<string>)
    requires ui.Valid() && ui.screen.MainScreen? && Idle(list, table) && GoodRound(round)
    requires !CallsNull(ui.State(), round, ui.env.cols)
    modifies ui`scrollY, list, list.head, list.nodes, table, table.hb
    ensures ui.Valid() && failure == FailureOf(RequestOf(old(ui.State())), round)
    ensures failure.Some? ==> ui.State() == old(ui.State()) && Left(list, table, ui.extReq)
    ensures failure.None? ==>
              && Idle(list, table) && ui.State() == Refreshed(old(ui.State()), round)
              && frame == Picture(ui.State(), RequestOf(ui.State()), round, ui.env.cols)
              && StablySorted(RequestOf(ui.State()), Answer(RequestOf(ui.State()), round).conns, Listed(RequestOf(ui.State()), round))
    ensures table.hb == old(table.hb) || fresh(table.hb)
    ensures forall k | 0 <= k < |table.log| :: fresh(table.log[k])
    ensures forall n | n in list.nodes :: fresh(n)
  {
    AnswerFits(ui.State(), round);
    var req := RequestOf(ui.State());
    frame := [];
    failure, extRcv' := Collect(list, table, req, round, extRcv);
    if failure.None? {
      ArrivalsAreSorted(req, Answer(req, round).conns);
      frame := Redraw(ui, list, table, req, round, extRcv');
    }
  }

  /** Clamps the vertical offset to what was listed, then draws. */
  method Redraw(ui: Context, list: ConnList, table: OwnerTable, req: Request, round: Round, extRcv: set<nat>)
      returns (frame: seq<string>)
    requires ui.Valid() && ui.screen.MainScreen? && GoodRound(round) && req == RequestOf(ui.State())
    requires FailureOf(req, round).None? && !EvaluatesNull(Refreshed(ui.State(), round), req, round, ui.env.cols)
    requires Left(list, table, ui.extReq) && Holds(list, req, Answer(req, round).conns, extRcv)
    modifies ui`scrollY, list, list.head, list.nodes, table, table.hb
    ensures ui.Valid() && ui.State() == Refreshed(old(ui.State()), round)
    ensures Idle(list, table) && frame == Picture(ui.State(), req, round, ui.env.cols)
    ensures table.hb == old(table.hb) || fresh(table.hb)
  {
    ArriveLength(OrderOf(req), Answer(req, round).conns);
    ui.ClampScroll(list.nrConns);
    frame := DrawAnswer(ui.State(), list, table, req, round, extRcv, ui.env.cols);
  }

  /** The filters are owned, or have been freed because the screen is closed. */
  ghost predicate FiltersKept(ui: Context)
    reads ui, ui.fields, ui.store
  {
    if ui.store.weCalled then ui.store.live == multiset{} else ui.Owned()
  }

  /** The refresh of one turn. An error that is reported closes the screen first. */
  method RefreshIfShown(ui: Context, list: ConnList, table: OwnerTable, rounds: seq<Round>, extRcv: set<nat>, ghost input: string)
      returns (ending: Option<Ending>, rounds': seq<Round>, frames: seq<seq<string>>, extRcv': set<nat>)
    requires ui.Valid() && ui.Owned() && Idle(list, table) && GoodRounds(rounds)
    modifies ui`scrollY, ui.store, list, list.head, list.nodes, table, table.hb
    ensures ui.Valid() && (if ending.None? then Idle(list, table) && ui.Owned() else Left(list, table, ui.extReq) && FiltersKept(ui))
    ensures Turn(ui.State(), input, rounds', frames, ending) == RefreshTurn(old(ui.State()), ui.env, input, rounds)
    ensures table.hb == old(table.hb) || fresh(table.hb)
    ensures forall k | 0 <= k < |table.log| :: fresh(table.log[k])
    ensures forall n | n in list.nodes :: fresh(n)
  {
    ending, rounds', frames, extRcv' := None, rounds, [], extRcv;
    if !ui.screen.MainScreen? {
      return;
    }
    if rounds == [] {
      ending := Some(OutOfRounds);
      return;
    }
    if CallsNull(ui.State(), rounds[0], ui.env.cols) {
      ending := Some(NullCall);
      return;
    }
    var failure, frame;
    failure, extRcv', frame := Refresh(ui, list, table, rounds[0], extRcv);
    rounds' := rounds[1..];
    if failure.Some? {
      ending := Some(RefreshFailed(failure.value));
      if failure.value.NoDump? {
        ui.store.WindowExit(ui.fields);
      }
    } else {
      frames := [frame];
    }
  }

  /** Waits for a key and handles it. */
  method HandleKey(ui: Context, kb: Keyboard, ghost t: Turn) returns (ending: Option<Ending>)
    requires ui.Valid() && ui.Owned() && t.ending.None? && t.ui == ui.State() && t.input == kb.input
    modifies ui, ui.fields, ui.store, kb
    ensures ui.Valid() && ui.Owned()
    ensures Turn(ui.State(), kb.input, t.rounds, t.frames, ending) == KeyTurn(t, ui.env)
  {
    if !KeyTyped(ui.State(), kb.input) {
      return Some(OutOfKeys);
    }
    if Overruns(ui.State(), kb.input) {
      return Some(Overrun);
    }
    var stopped := ui.ShouldStop(kb);
    ending := if stopped then Some(Stopped) else None;
  }

  /** One turn of the loop. */
  method Iterate(ui: Context, list: ConnList, table: OwnerTable, kb: Keyboard, rounds: seq<Round>, extRcv: set<nat>)
      returns (ending: Option<Ending>, rounds': seq<Round>, frames: seq<seq<string>>, extRcv': set<nat>)
    requires ui.Valid() && ui.Owned() && Idle(list, table) && GoodRounds(rounds)
    modifies ui, ui.fields, ui.store, kb, list, list.head, list.nodes, table, table.hb
    ensures ui.Valid() && (if ending.None? then Idle(list, table) && ui.Owned() else Left(list, table, ui.extReq) && FiltersKept(ui))
    ensures Turn(ui.State(), kb.input, rounds', frames, ending) == OneTurn(old(ui.State()), ui.env, old(kb.input), rounds)
    ensures table.hb == old(table.hb) || fresh(table.hb)
    ensures forall k | 0 <= k < |table.log| :: fresh(table.log[k])
    ensures forall n | n in list.nodes :: fresh(n)
  {
    ghost var t := RefreshTurn(ui.State(), ui.env, kb.input, rounds);
    ending, rounds', frames, extRcv' := RefreshIfShown(ui, list, table, rounds, extRcv, kb.input);
    if ending.None? {
      ghost var idle := Idle(list, table);
      ending := HandleKey(ui, kb, t);
      assert Idle(list, table) == idle;
    }
  }

  /** Nothing is listed or stored, and nothing allocated is left. */
  ghost predicate Released(ui: Context, list: ConnList, table: OwnerTable)
    reads ui, ui.store, list, list.head, list.nodes, table
  {
    && list.Valid() && list.nodes == [] && list.live == {} && list.nrConns == 0
    && table.log == [] && table.live == {} && table.nrSockets == 0 && table.arrays == {}
    && ui.store.weCalled && ui.store.live == multiset{}
  }

  /** Frees what a loop has left. The request word has not changed since the owner
      table was built, so the table is emptied whenever it was filled. */
  method CleanUp(ui: Context, list: ConnList, table: OwnerTable)
    requires Left(list, table, ui.extReq) && FiltersKept(ui)
    modifies ui.store, list, list.head, list.nodes, table, table.hb
    ensures Released(ui, list, table) && ui.State() == old(ui.State())
  {
    table.Exit(ui.extReq);
    ui.store.WindowExit(ui.fields);
    ghost var freed := list.Drain();
  }

  /** The endings that leave the loop. A run that follows a null pointer or writes behind
      a buffer gets nowhere that is known; one whose keys or answers are used up is still
      in the loop. */
  predicate Leaves(ending: Ending)
  {
    ending.Stopped? || ending.RefreshFailed?
  }

  /** The main loop and the cleanup behind it. What it does is `Loop`: the keys taken, the
      frames shown, the state and the reason it ends with. When it leaves the loop, nothing
      that was allocated for connections, owners, the owner table and filters is left. */
  method Run(ui: Context, list: ConnList, table: OwnerTable, kb: Keyboard, rounds: seq<Round>)
      returns (ending: Ending, rounds': seq<Round>, frames: seq<seq<string>>)
    requires ui.Valid() && ui.Owned() && Idle(list, table) && GoodRounds(rounds)
    modifies ui, ui.fields, ui.store, kb, list, list.head, list.nodes, table, table.hb
    ensures Turn(ui.State(), kb.input, rounds', frames, Some(ending)) == Loop(old(ui.State()), ui.env, old(kb.input), rounds)
    ensures Leaves(ending) ==> Released(ui, list, table)
  {
    ending, rounds', frames := TakeTurns(ui, list, table, kb, rounds);
    if Leaves(ending) {
      ghost var input := kb.input;
      CleanUp(ui, list, table);
      assert kb.input == input;
    }
  }

  method TakeTurns(ui: Context, list: ConnList, table: OwnerTable, kb: Keyboard, rounds: seq<Round>)
      returns (ending: Ending, rounds': seq<Round>, frames: seq<seq<string>>)
    requires ui.Valid() && ui.Owned() && Idle(list, table) && GoodRounds(rounds)
    modifies ui, ui.fields, ui.store, kb, list, list.head, list.nodes, table, table.hb
    ensures Left(list, table, ui.extReq) && FiltersKept(ui)
    ensures Turn(ui.State(), kb.input, rounds', frames, Some(ending)) == Loop(old(ui.State()), ui.env, old(kb.input), rounds)
    ensures table.hb == old(table.hb) || fresh(table.hb)
    ensures forall k | 0 <= k < |table.log| :: fresh(table.log[k])
    ensures forall n | n in list.nodes :: fresh(n)
  {
    var extRcv: set<nat>, end: Option<Ending> := {}, None;
    ghost var all := Loop(ui.State(), ui.env, kb.input, rounds);
    rounds', frames := rounds, [];
    while end.None?
      invariant ui.Valid() && GoodRounds(rounds')
      invariant if end.None? then Idle(list, table) && ui.Owned() else Left(list, table, ui.extReq) && FiltersKept(ui)
      invariant all == if end.Some? then Turn(ui.State(), kb.input, rounds', frames, end)
                       else Behind(frames, Loop(ui.State(), ui.env, kb.input, rounds'))
      invariant table.hb == old(table.hb) || fresh(table.hb)
      invariant forall k | 0 <= k < |table.log| :: fresh(table.log[k])
      invariant forall n | n in list.nodes :: fresh(n)
      decreases end.None?, |kb.input|
    {
      ghost var t := LoopNext(ui.State(), ui.env, kb.input, rounds', frames);
      var more;
      end, rounds', more, extRcv := Iterate(ui, list, table, kb, rounds', extRcv);
      frames := frames + more;
    }
    ending := end.value;
  }
}
