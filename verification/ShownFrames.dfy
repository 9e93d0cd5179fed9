/** What a frame shows in terms of the fields' switches, the offsets and the connections. */
module ShownFrames {
  import opened Types
  import opened SortedLists
  import opened FilterMatch
  import opened Dump
  import opened FieldEditor
  import opened UiModel
  import opened Layout
  import opened Monitor

  // ----- columns

  /** The user wants the field, it can be drawn, and some connection has it. */
  predicate InFrame(f: Field, groups: set<nat>)
  {
    f.enabled && f.drawable && f.extRcv in groups
  }

  /** The number of fields in the frame that move with the horizontal offset. */
  function Unpinned(fields: seq<Field>, groups: set<nat>): (n: nat)
  {
    if fields == [] then 0
    else
      var f := fields[|fields| - 1];
      Unpinned(fields[..|fields| - 1], groups) + if InFrame(f, groups) && !f.pinned then 1 else 0
  }

  /** The fields of the frame, left to right, without the first `offset` that move. */
  function ShownFields(fields: seq<Field>, groups: set<nat>, offset: nat): (shown: seq<Field>)
  {
    if fields == [] then []
    else
      var rest, f := fields[..|fields| - 1], fields[|fields| - 1];
      ShownFields(rest, groups, offset)
      + if InFrame(f, groups) && (f.pinned || Unpinned(rest, groups) >= offset) then [f] else []
  }

  lemma {:induction false} SkipIsCounted(fields: seq<Field>, groups: set<nat>, offset: nat)
    ensures Count(fields, groups, false) == Unpinned(fields, groups)
    ensures SkipLeft(fields, groups, offset) == 0 <==> Unpinned(fields, groups) >= offset
  {
    if fields != [] {
      SkipIsCounted(fields[..|fields| - 1], groups, offset);
    }
    ShownCounts(fields, groups, offset);
  }

  lemma {:induction false} ColumnsExactly(fields: seq<Field>, groups: set<nat>, offset: nat)
    ensures Shown(fields, groups, offset) == ShownFields(fields, groups, offset)
  {
    if fields != [] {
      ColumnsExactly(fields[..|fields| - 1], groups, offset);
      SkipIsCounted(fields[..|fields| - 1], groups, offset);
    }
  }

  /** Only fields that are switched on, can be drawn and are carried get a column. */
  lemma {:induction false} ShownAreInFrame(fields: seq<Field>, groups: set<nat>, offset: nat)
    ensures forall f | f in ShownFields(fields, groups, offset) :: f in fields && f.enabled && f.drawable && f.extRcv in groups
  {
    if fields != [] {
      ShownAreInFrame(fields[..|fields| - 1], groups, offset);
    }
  }

  /** Every such field has one when it is pinned or nothing is scrolled away. */
  lemma {:induction false} InFrameIsShown(fields: seq<Field>, groups: set<nat>, offset: nat, f: Field)
    requires f in fields && f.enabled && f.drawable && f.extRcv in groups && (f.pinned || offset == 0)
    ensures f in ShownFields(fields, groups, offset)
  {
    var rest := fields[..|fields| - 1];
    assert fields == rest + [fields[|fields| - 1]];
    if f in rest {
      InFrameIsShown(rest, groups, offset, f);
    }
  }

  lemma {:induction false} UnpinnedAppend(s: seq<Field>, f: Field, groups: set<nat>)
    ensures Unpinned(s + [f], groups) == Unpinned(s, groups) + if InFrame(f, groups) && !f.pinned then 1 else 0
  {
    assert (s + [f])[..|s|] == s;
  }

  /** Of the columns that move, as many are missing as the offset says, or all. */
  lemma {:induction false} MissingColumns(fields: seq<Field>, groups: set<nat>, offset: nat)
    ensures var n, left := Unpinned(fields, groups), Unpinned(ShownFields(fields, groups, offset), groups);
            left == if offset < n then n - offset else 0
  {
    if fields != [] {
      var rest, f := fields[..|fields| - 1], fields[|fields| - 1];
      MissingColumns(rest, groups, offset);
      UnpinnedAppend(ShownFields(rest, groups, offset), f, groups);
      assert ShownFields(rest, groups, offset) + [] == ShownFields(rest, groups, offset);
    }
  }

  /** An address column is as wide as addresses of the family: its two widths share a number. */
  lemma {:induction false} WidthOf(f: Field, family: Family, short: nat, long: nat)
    requires short < 256 && long < 256
    ensures f.extRcv == 23 && f.width == 256 * short + long ==> ColumnWidth(f, family) == if family.Inet? then short else long
    ensures f.extRcv != 23 ==> ColumnWidth(f, family) == f.width
  {
  }

  /** What stands in a column: its name, or what the connection has there, or blanks. */
  lemma {:induction false} CellReads(shown: seq<Field>, family: Family, c: Conn, k: nat)
    requires k < |shown|
    ensures var f := shown[k];
            && Cells(Headers, shown, family)[k].width == ColumnWidth(f, family)
            && f.header <= Cells(Headers, shown, family)[k].text
            && (forall j | |f.header| <= j < |Cells(Headers, shown, family)[k].text| :: Cells(Headers, shown, family)[k].text[j] == ' ')
            && Cells(Of(c), shown, family)[k].width == ColumnWidth(f, family)
            && (f.extRcv in c.ext ==> Cells(Of(c), shown, family)[k].text == f.render(c))
            && (f.extRcv !in c.ext ==> forall j | 0 <= j < |Cells(Of(c), shown, family)[k].text| :: Cells(Of(c), shown, family)[k].text[j] == ' ')
  {
    CellAt(Headers, shown, family, k);
    CellAt(Of(c), shown, family, k);
  }

  // ----- rows

  /** Every switched-on filter of a field in the frame lets the connection through. */
  predicate LetsThrough(fields: seq<Field>, groups: set<nat>, c: Conn)
  {
    forall i | 0 <= i < |fields| && InFrame(fields[i], groups) && fields[i].filterOn ::
      var f := fields[i];
      f.extRcv in c.ext && f.filter.Some? && Matches(f.filter.value, f.read(c))
  }

  lemma {:induction false} AcceptedExactly(fields: seq<Field>, groups: set<nat>, c: Conn)
    ensures Accepted(fields, groups, c) <==> LetsThrough(fields, groups, c)
  {
    forall i | 0 <= i < |fields|
      ensures Passes(fields[i], groups, c)
         <==> (InFrame(fields[i], groups) && fields[i].filterOn ==>
                 fields[i].extRcv in c.ext && fields[i].filter.Some? && Matches(fields[i].filter.value, fields[i].read(c)))
    {
    }
  }

  /** The connections let through, in the order of `cs`. */
  function Through(fields: seq<Field>, groups: set<nat>, cs: seq<Conn>): (r: seq<Conn>)
  {
    if cs == [] then []
    else (if LetsThrough(fields, groups, cs[0]) then [cs[0]] else []) + Through(fields, groups, cs[1..])
  }

  lemma {:induction false} ThroughAppend(fields: seq<Field>, groups: set<nat>, cs: seq<Conn>, c: Conn)
    ensures Through(fields, groups, cs + [c])
         == Through(fields, groups, cs) + if LetsThrough(fields, groups, c) then [c] else []
  {
    if cs == [] {
      assert [] + [c] == [c] && [c][1..] == [];
    } else {
      assert (cs + [c])[0] == cs[0] && (cs + [c])[1..] == cs[1..] + [c];
      ThroughAppend(fields, groups, cs[1..], c);
    }
  }

  lemma {:induction false} AcceptedThrough(v: View, cs: seq<Conn>)
    ensures AcceptedConns(v, cs) == Through(v.fields, v.extRcv, cs)
  {
    if cs != [] {
      var front, c := cs[..|cs| - 1], cs[|cs| - 1];
      AcceptedThrough(v, front);
      AcceptedExactly(v.fields, v.extRcv, c);
      ThroughAppend(v.fields, v.extRcv, front, c);
      assert cs == front + [c];
    }
  }

  /** A painted line of these columns. */
  function Line(what: Content, shown: seq<Field>, family: Family, cols: nat): (line: string)
  {
    Painted(Spaces(cols), Cells(what, shown, family), |shown|)
  }

  /** The whole picture: row 0 has the names of the shown fields, then come, from the
      vertical offset on, the connections let through, and the rest is blank. */
  lemma {:induction false} PictureReads(ui: Ui, conns: seq<Conn>, listed: seq<Conn>, cols: nat, y: nat)
    requires ui.scrollX >= 0 && 0 <= ui.scrollY <= |listed| && y <= |listed|
    ensures var groups := ExtOf(conns);
            var shown := ShownFields(ui.fields, groups, ui.scrollX);
            var through := Through(ui.fields, groups, listed[ui.scrollY..]);
            && |PictureOf(ui, conns, listed, cols)| == |listed| + 1
            && PictureOf(ui, conns, listed, cols)[y]
               == if y == 0 then Line(Headers, shown, ui.family, cols)
                  else if y <= |through| then Line(Of(through[y - 1]), shown, ui.family, cols)
                  else Spaces(cols)
  {
    ColumnsExactly(ui.fields, ExtOf(conns), ui.scrollX);
    AcceptedThrough(ViewOf(ui, ExtOf(conns), cols), listed[ui.scrollY..]);
  }

  // ----- a field that is switched off

  /** Two tables that differ, if at all, only in fields that are switched off. */
  ghost predicate SameWhereOn(a: seq<Field>, b: seq<Field>)
  {
    |a| == |b| && forall i | 0 <= i < |a| :: a[i] == b[i] || (!a[i].enabled && !b[i].enabled)
  }

  lemma {:induction false} SameColumns(a: seq<Field>, b: seq<Field>, groups: set<nat>, offset: nat)
    requires SameWhereOn(a, b)
    ensures Unpinned(a, groups) == Unpinned(b, groups) && ShownFields(a, groups, offset) == ShownFields(b, groups, offset)
  {
    if a != [] {
      SameColumns(a[..|a| - 1], b[..|b| - 1], groups, offset);
    }
  }

  lemma {:induction false} SameThrough(a: seq<Field>, b: seq<Field>, groups: set<nat>, cs: seq<Conn>)
    requires SameWhereOn(a, b)
    ensures Through(a, groups, cs) == Through(b, groups, cs)
  {
    if cs != [] {
      SameThrough(a, b, groups, cs[1..]);
      assert LetsThrough(a, groups, cs[0]) <==> LetsThrough(b, groups, cs[0]);
    }
  }

  /** Whatever is changed in fields that are switched off, their filters included, the
      picture stays the same. */
  lemma {:induction false} SwitchedOffIsInvisible(ui: Ui, fields: seq<Field>, conns: seq<Conn>, listed: seq<Conn>, cols: nat)
    requires SameWhereOn(ui.fields, fields) && ui.scrollX >= 0 && 0 <= ui.scrollY <= |listed|
    ensures PictureOf(ui.(fields := fields), conns, listed, cols) == PictureOf(ui, conns, listed, cols)
  {
    SameColumns(ui.fields, fields, ExtOf(conns), ui.scrollX);
    SameThrough(ui.fields, fields, ExtOf(conns), listed[ui.scrollY..]);
    forall y: nat | y <= |listed|
      ensures PictureOf(ui.(fields := fields), conns, listed, cols)[y] == PictureOf(ui, conns, listed, cols)[y]
    {
      PictureReads(ui, conns, listed, cols, y);
      PictureReads(ui.(fields := fields), conns, listed, cols, y);
    }
  }

  // ----- a refresh

  /** The list of a refresh is sorted by the field that the user chose, ascending or
      descending as chosen, and without such a field in the order of arrival. */
  lemma {:induction false} ListIsSorted(ui: Ui, round: Round, family: Family)
    requires Inv(ui) && GoodRound(round)
    ensures var conns, listed := Answer(RequestOf(ui), round).conns, Listed(RequestOf(ui), round);
            match ui.sortKey
            case None => listed == conns
            case Some(k) =>
              OneFamily(ui.fields[k], family, conns) ==> SortedBy(ui.fields[k], ui.ascending, family, conns, listed)
  {
    ArrivalsAreSorted(RequestOf(ui), Answer(RequestOf(ui), round).conns);
  }

  /** A refresh fails exactly if owners are asked for and a process cannot be read, or the
      request is not sent, or the dump does not end as it should. */
  lemma {:induction false} RefreshFailsExactly(ui: Ui, round: Round)
    requires Inv(ui) && GoodRound(round)
    ensures var unread := 24 in ui.extReq && exists i :: 0 <= i < |round.procs| && round.procs[i].comm.None?;
            && (FailureOf(RequestOf(ui), round) == Some(NoOwners) <==> unread)
            && (FailureOf(RequestOf(ui), round).None? <==> !unread && round.sent && Answer(RequestOf(ui), round).end.Finished?)
  {
  }

  /** The answer depends on the processes only when owners are asked for. */
  lemma {:induction false} AnswerIsTheDump(ui: Ui, round: Round)
    requires Inv(ui) && GoodRound(round)
    ensures var owners := if 24 in ui.extReq then OwnersFrom(AllSockets(round.procs)) else map[];
            Answer(RequestOf(ui), round) == TakeAll(RequestOf(ui), owners, round.recvs, [])
            && (24 in RequestOf(ui).extReq <==> 24 in ui.extReq)
  {
  }

  /** The vertical offset stays where it is while that is in the list, and goes to the last
      entry otherwise. */
  lemma {:induction false} OffsetIsClamped(ui: Ui, round: Round)
    requires Inv(ui) && GoodRound(round)
    ensures var n := |Listed(RequestOf(ui), round)|;
            Refreshed(ui, round)
            == ui.(scrollY := if ui.scrollY < n then ui.scrollY else if n > 0 then n - 1 else 0)
  {
  }
}
