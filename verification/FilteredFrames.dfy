/** What a typed filter does to the next frame. */
module FilteredFrames {
  import opened Types
  import opened FilterText
  import opened TypedFilters
  import opened Comparators
  import opened FilterMatch
  import opened FieldEditor
  import opened UiModel
  import opened Layout
  import opened Monitor

  /** The connections that carry the field's group and whose value the filter matches. */
  function Narrowed(f: Field, flt: Filter, cs: seq<Conn>): (r: seq<Conn>)
  {
    if cs == [] then []
    else
      var c := cs[|cs| - 1];
      Narrowed(f, flt, cs[..|cs| - 1]) + if f.extRcv in c.ext && Matches(flt, f.read(c)) then [c] else []
  }

  lemma {:induction false} NarrowedNext(f: Field, flt: Filter, cs: seq<Conn>, c: Conn)
    ensures Narrowed(f, flt, cs + [c])
         == Narrowed(f, flt, cs) + if f.extRcv in c.ext && Matches(flt, f.read(c)) then [c] else []
  {
    assert (cs + [c])[..|cs|] == cs;
  }

  /** The dialog of the field under the cursor makes the filter `flt`. */
  ghost predicate MakesFilter(ui: Ui, pton: Pton, input: string, flt: Filter)
  {
    && Inv(ui) && AtCursor(ui).drawable && !AtCursor(ui).filterOn
    && Dialog(AtCursor(ui), pton, input).0 == Outcome(false, Some(flt))
  }

  /** A connection is accepted exactly if it was before and the new filter matches it. */
  lemma {:induction false} TypedFilterDecides(ui: Ui, pton: Pton, input: string, flt: Filter, extRcv: set<nat>, c: Conn)
    requires MakesFilter(ui, pton, input, flt) && AtCursor(ui).enabled && AtCursor(ui).extRcv in extRcv
    ensures var f := AtCursor(ui);
            Accepted(FilterKey(ui, pton, input).0.fields, extRcv, c)
            <==> Accepted(ui.fields, extRcv, c) && f.extRcv in c.ext && Matches(flt, f.read(c))
  {
    var f, k := AtCursor(ui), ui.cursor;
    var g := f.(filter := Some(flt), filterOn := true);
    var after := FilterKey(ui, pton, input).0.fields;
    assert after == ui.fields[k := g];
    assert Passes(f, extRcv, c);
    assert Passes(g, extRcv, c) <==> f.extRcv in c.ext && Matches(flt, f.read(c));
    assert after[k] == g && forall i | 0 <= i < |after| && i != k :: after[i] == ui.fields[i];
  }

  lemma {:induction false} AcceptedNext(v: View, cs: seq<Conn>, c: Conn)
    ensures AcceptedConns(v, cs + [c]) == if Accepted(v.fields, v.extRcv, c) then AcceptedConns(v, cs) + [c] else AcceptedConns(v, cs)
  {
    assert (cs + [c])[..|cs|] == cs;
  }

  lemma {:induction false} NarrowsAccepted(v: View, after: View, f: Field, flt: Filter, cs: seq<Conn>)
    requires forall c :: Accepted(after.fields, after.extRcv, c)
                         <==> Accepted(v.fields, v.extRcv, c) && f.extRcv in c.ext && Matches(flt, f.read(c))
    ensures AcceptedConns(after, cs) == Narrowed(f, flt, AcceptedConns(v, cs))
  {
    if cs != [] {
      var front, c := cs[..|cs| - 1], cs[|cs| - 1];
      NarrowsAccepted(v, after, f, flt, front);
      AcceptedNext(v, front, c);
      AcceptedNext(after, front, c);
      NarrowedNext(f, flt, AcceptedConns(v, front), c);
      assert cs == front + [c];
    }
  }

  /** The next frame lists those of the connections it listed that the new filter matches. */
  lemma {:induction false} TypedFilterNarrows(ui: Ui, pton: Pton, input: string, flt: Filter, extRcv: set<nat>, cols: nat, cs: seq<Conn>)
    requires MakesFilter(ui, pton, input, flt) && AtCursor(ui).enabled && AtCursor(ui).extRcv in extRcv
    ensures var after := FilterKey(ui, pton, input).0;
            && after.scrollX == ui.scrollX >= 0
            && AcceptedConns(ViewOf(after, extRcv, cols), cs)
               == Narrowed(AtCursor(ui), flt, AcceptedConns(ViewOf(ui, extRcv, cols), cs))
  {
    var after, f := FilterKey(ui, pton, input).0, AtCursor(ui);
    forall c ensures Accepted(after.fields, extRcv, c) <==> Accepted(ui.fields, extRcv, c) && f.extRcv in c.ext && Matches(flt, f.read(c)) {
      TypedFilterDecides(ui, pton, input, flt, extRcv, c);
    }
    NarrowsAccepted(ViewOf(ui, extRcv, cols), ViewOf(after, extRcv, cols), f, flt, cs);
  }

  /** The picture after a filter was typed for an enabled field that some listed
      connection carries, `listed` being what is listed. */
  lemma {:induction false} FilteredPicture(ui: Ui, pton: Pton, input: string, flt: Filter, conns: seq<Conn>, listed: seq<Conn>, cols: nat, y: nat)
    requires MakesFilter(ui, pton, input, flt) && AtCursor(ui).enabled && AtCursor(ui).extRcv in Dump.ExtOf(conns)
    requires ui.scrollY <= |listed| && y <= |listed|
    ensures var after := FilterKey(ui, pton, input).0;
            && after.scrollX >= 0 && 0 <= after.scrollY <= |listed|
            && PictureOf(after, conns, listed, cols)[y]
               == FrameRow(ViewOf(after, Dump.ExtOf(conns), cols),
                           Narrowed(AtCursor(ui), flt, AcceptedConns(ViewOf(ui, Dump.ExtOf(conns), cols), listed[ui.scrollY..])), y)
  {
    TypedFilterNarrows(ui, pton, input, flt, Dump.ExtOf(conns), cols, listed[ui.scrollY..]);
  }

  /** The connections that carry the field's group with a number that `keeps` holds of. */
  function NumbersKept(f: Field, keeps: nat -> bool, cs: seq<Conn>): (r: seq<Conn>)
  {
    if cs == [] then []
    else
      var c := cs[|cs| - 1];
      NumbersKept(f, keeps, cs[..|cs| - 1]) + if f.extRcv in c.ext && keeps(NumberOf(f.read(c))) then [c] else []
  }

  lemma {:induction false} NarrowedKeeps(f: Field, flt: Filter, keeps: nat -> bool, cs: seq<Conn>)
    requires forall v: Value :: Matches(flt, v) <==> keeps(NumberOf(v))
    ensures Narrowed(f, flt, cs) == NumbersKept(f, keeps, cs)
  {
    if cs != [] {
      NarrowedKeeps(f, flt, keeps, cs[..|cs| - 1]);
    }
  }

  /** Typing a line that accepts the numbers `keeps` holds of makes a frame list exactly
      those of the connections it would have listed whose number it holds of. */
  lemma {:induction false} TypedComparison(ui: Ui, pton: Pton, line: string, rest: string, keeps: nat -> bool,
                                           extRcv: set<nat>, cols: nat, cs: seq<Conn>)
    requires Inv(ui) && AtCursor(ui).drawable && AtCursor(ui).enabled && !AtCursor(ui).filterOn
    requires AtCursor(ui).kind.NumberKind? && AtCursor(ui).extRcv in extRcv
    requires NoEol(line) && AcceptsNumbers(line, AtCursor(ui).filter, keeps)
    ensures var (after, left) := FilterKey(ui, pton, line + ['\n'] + rest);
            && left == rest && after.scrollX >= 0
            && AcceptedConns(ViewOf(after, extRcv, cols), cs)
               == NumbersKept(AtCursor(ui), keeps, AcceptedConns(ViewOf(ui, extRcv, cols), cs))
  {
    var input, f := line + ['\n'] + rest, AtCursor(ui);
    LineOf(line, '\n', rest);
    var flt := CommonOutcome(NumberKind, line, f.filter).filter.value;
    assert MakesFilter(ui, pton, input, flt);
    TypedFilterNarrows(ui, pton, input, flt, extRcv, cols, cs);
    NarrowedKeeps(f, flt, keeps, AcceptedConns(ViewOf(ui, extRcv, cols), cs));
  }

  /** For instance, `>` and a number. */
  lemma {:induction false} FrameAbove(ui: Ui, pton: Pton, n: nat, rest: string, extRcv: set<nat>, cols: nat, cs: seq<Conn>)
    requires Inv(ui) && AtCursor(ui).drawable && AtCursor(ui).enabled && !AtCursor(ui).filterOn
    requires AtCursor(ui).kind.NumberKind? && AtCursor(ui).extRcv in extRcv && n < 0x1_0000_0000_0000_0000
    ensures var after := FilterKey(ui, pton, ">" + Digits(n) + ['\n'] + rest).0;
            && after.scrollX >= 0
            && AcceptedConns(ViewOf(after, extRcv, cols), cs)
               == NumbersKept(AtCursor(ui), v => v > n, AcceptedConns(ViewOf(ui, extRcv, cols), cs))
  {
    TypedAbove(n, AtCursor(ui).filter);
    TypedComparison(ui, pton, ">" + Digits(n), rest, v => v > n, extRcv, cols, cs);
  }
}
