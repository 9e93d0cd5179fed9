/** The loops that read a typed filter, one character at a time, and print one. */
module FilterDialog {
  import opened Types
  import opened Prefix
  import opened FilterText
  import opened Keys

  /** The characters still to be typed; a character can be pushed back. */
  class Keyboard {
    var input: string

    constructor (input: string)
      ensures this.input == input
    {
      this.input := input;
    }

    method Getch() returns (ch: char)
      requires input != []
      modifies this
      ensures ch == old(input)[0] && input == old(input)[1..]
    {
      ch := input[0];
      input := input[1..];
    }

    method Ungetch(ch: char)
      modifies this
      ensures input == [ch] + old(input)
    {
      input := [ch] + input;
    }
  }

  /** Still to come: `s` on this line, then its end of line and what follows. */
  ghost predicate Pending(kb: Keyboard, s: string, tail: string)
    reads kb
  {
    kb.input == s + tail && NoEol(s) && tail != [] && IsEol(tail[0])
  }

  /** Reads the next character of the line, or its end. */
  method ReadChar(kb: Keyboard, ghost s: string, ghost tail: string) returns (ch: char, ghost left: string)
    requires Pending(kb, s, tail)
    modifies kb
    ensures kb.input == old(kb.input)[1..]
    ensures IsEol(ch) <==> s == []
    ensures s != [] ==> ch == s[0] && left == s[1..] && Pending(kb, left, tail)
    ensures s == [] ==> ch == tail[0] && left == [] && kb.input == tail[1..]
  {
    left := if s == [] then [] else s[1..];
    ch := kb.Getch();
    if s != [] {
      assert (s + tail)[0] == s[0] && (s + tail)[1..] == s[1..] + tail;
    } else {
      assert s + tail == tail;
    }
  }

  /** Reads up to the first character that is not a blank. */
  method FirstChar(kb: Keyboard, ghost s: string, ghost tail: string) returns (ch: char, ghost left: string)
    requires Pending(kb, s, tail)
    modifies kb
    ensures IsEol(ch) <==> SkipBlanks(s) == []
    ensures IsEol(ch) ==> kb.input == tail[1..]
    ensures !IsEol(ch) ==> [ch] + left == SkipBlanks(s) && Pending(kb, left, tail)
  {
    left := s;
    ch := ' ';
    while IsBlank(ch)
      invariant IsBlank(ch) ==> Pending(kb, left, tail) && SkipBlanks(left) == SkipBlanks(s)
      invariant IsEol(ch) <==> !IsBlank(ch) && SkipBlanks(s) == []
      invariant IsEol(ch) ==> kb.input == tail[1..]
      invariant !IsEol(ch) && !IsBlank(ch) ==> [ch] + left == SkipBlanks(s) && Pending(kb, left, tail)
      decreases |kb.input|
    {
      ghost var was := left;
      ch, left := ReadChar(kb, left, tail);
      assert was != [] ==> [ch] + left == was;
    }
  }

  /** Reads the rest of an operator that starts with `first`. */
  method ReadOperator(kb: Keyboard, first: char, ghost s: string, ghost tail: string)
      returns (op: Option<CmpOp>, ghost left: string)
    requires Pending(kb, s, tail) && !IsEol(first)
    modifies kb
    ensures Pending(kb, left, tail)
    ensures match OperatorOf([first] + s)
            case None => op.None?
            case Some((o, n)) => op == Some(o) && left == ([first] + s)[n..]
  {
    left := s;
    if first == '=' {
      op := Some(EQ);
    } else if first == '~' {
      op := Some(CT);
    } else if first == '!' || first == '>' || first == '<' {
      var ch;
      ch, left := ReadChar(kb, s, tail);
      if first == '!' && ch == '=' {
        op := Some(NE);
      } else if first == '!' && ch == '~' {
        op := Some(NC);
      } else if first == '>' && ch == '=' {
        op := Some(GE);
      } else if first == '<' && ch == '=' {
        op := Some(LE);
      } else {
        op := if first == '>' then Some(GT) else if first == '<' then Some(LT) else None;
        kb.Ungetch(ch);
        left := s;
      }
    } else {
      op := None;
    }
  }

  /** Throws the rest of the line away, with its end. */
  method SkipLine(kb: Keyboard, ghost s: string, ghost tail: string)
    requires Pending(kb, s, tail)
    modifies kb
    ensures kb.input == tail[1..]
  {
    ghost var left := s;
    var seenNl := false;
    while !seenNl
      invariant if seenNl then kb.input == tail[1..] else Pending(kb, left, tail)
      decreases !seenNl, |kb.input|
    {
      var ch;
      ch, left := ReadChar(kb, left, tail);
      seenNl := IsEol(ch);
    }
  }

  /** What was read of an operand. */
  datatype Operand = Operand(err: bool, seenInput: bool, v: nat, text: string)

  predicate OperandRead(kind: Kind, s: string, o: Operand)
  {
    !o.err && AllAccepted(kind, Content(kind, s))
    && (o.seenInput <==> Content(kind, s) != [])
    && (Buffered(kind) ==> o.text == Content(kind, s))
    && (!Buffered(kind) ==> o.v == Decimal(Content(kind, s)) % U64)
  }

  lemma {:induction false} ContentGrows(kind: Kind, s: string, c: char)
    ensures !kind.TextKind? && IsBlank(c) ==> Content(kind, s + [c]) == Content(kind, s)
    ensures kind.TextKind? || !IsBlank(c) ==> Content(kind, s + [c]) == Content(kind, s) + [c]
  {
    assert (s + [c])[..|s|] == s;
  }

  lemma {:induction false} ContentPrefix(kind: Kind, s: string, i: nat)
    requires i <= |s|
    ensures Content(kind, s[..i]) <= Content(kind, s)
    decreases |s| - i
  {
    if i < |s| {
      ContentPrefix(kind, s, i + 1);
      assert s[..i + 1] == s[..i] + [s[i]];
      ContentGrows(kind, s[..i], s[i]);
    } else {
      assert s[..i] == s;
    }
  }

  lemma {:induction false} AppendDigit(s: string, c: char)
    requires AllDigits(s) && IsDigit(c)
    ensures AllDigits(s + [c]) && Decimal(s + [c]) % U64 == (10 * (Decimal(s) % U64) + DigitValue(c)) % U64
  {
    assert (s + [c])[..|s|] == s;
    ScaledRemainder(Decimal(s), DigitValue(c));
  }

  lemma {:induction false} ScaledRemainder(a: nat, d: nat)
    ensures (10 * a + d) % U64 == (10 * (a % U64) + d) % U64
  {
    var q, r := a / U64, a % U64;
    assert 10 * a + d == (10 * q) * U64 + (10 * r + d);
  }

  /** One more accepted character that the buffer has room for, or one skipped blank. */
  lemma {:induction false} OneMore(kind: Kind, s: string, i: nat, o: Operand)
    requires i < |s| && OperandRead(kind, s[..i], o)
    ensures !kind.TextKind? && IsBlank(s[i]) ==> OperandRead(kind, s[..i + 1], o)
    ensures Buffered(kind) && Accepts(kind, s[i]) && !(kind.AddressKind? && IsBlank(s[i])) ==>
              OperandRead(kind, s[..i + 1], o.(seenInput := true, text := o.text + [s[i]]))
    ensures !Buffered(kind) && IsDigit(s[i]) ==>
              OperandRead(kind, s[..i + 1], o.(seenInput := true, v := (10 * o.v + DigitValue(s[i])) % U64))
  {
    assert s[..i + 1] == s[..i] + [s[i]];
    ContentGrows(kind, s[..i], s[i]);
    if !Buffered(kind) && IsDigit(s[i]) {
      AppendDigit(Content(kind, s[..i]), s[i]);
    }
  }

  /** A character that stops the loop spoils the whole operand. */
  lemma {:induction false} Spoils(kind: Kind, s: string, i: nat)
    requires i < |s| && (kind.TextKind? || !IsBlank(s[i]))
    requires !Accepts(kind, s[i]) || (Buffered(kind) && |Content(kind, s[..i])| >= BUFFER)
    ensures !OperandOk(kind, s) && !FillsBuffer(kind, s)
  {
    assert s[..i + 1] == s[..i] + [s[i]];
    ContentGrows(kind, s[..i], s[i]);
    ContentPrefix(kind, s, i + 1);
    var n := |Content(kind, s[..i])|;
    assert Content(kind, s)[n] == Content(kind, s[..i + 1])[n] == s[i];
  }

  /** Appends to the buffer, or reports that it is full. */
  method StoreChar(buf: array<char>, n: nat, ch: char) returns (err: bool, n': nat)
    requires n <= buf.Length
    modifies buf
    ensures err <==> n == buf.Length
    ensures err ==> n' == n && buf[..] == old(buf[..])
    ensures !err ==> n' == n + 1 && buf[..n'] == old(buf[..n]) + [ch]
  {
    if n >= buf.Length {
      return true, n;
    }
    buf[n] := ch;
    return false, n + 1;
  }

  /** Takes the operand's character `i`, which is not skipped, or finds it wrong. */
  method TakeChar(kind: Kind, buf: array<char>, n: nat, v: nat, ch: char, ghost s: string, ghost i: nat, ghost was: Operand)
      returns (err: bool, seenInput: bool, n': nat, v': nat)
    requires n <= buf.Length == BUFFER && i < |s| && ch == s[i] && (kind.TextKind? || !IsBlank(ch))
    requires was.v == v && was.text == buf[..n] && OperandRead(kind, s[..i], was)
    modifies buf
    ensures n' <= BUFFER
    ensures err ==> !OperandOk(kind, s) && !FillsBuffer(kind, s)
    ensures !err ==> OperandRead(kind, s[..i + 1], Operand(false, seenInput, v', buf[..n']))
  {
    err, seenInput, n', v' := false, true, n, v;
    if !Accepts(kind, ch) {
      Spoils(kind, s, i);
      err := true;
    } else if Buffered(kind) {
      if n < BUFFER {
        OneMore(kind, s, i, was);
      } else {
        Spoils(kind, s, i);
      }
      err, n' := StoreChar(buf, n, ch);
    } else {
      OneMore(kind, s, i, was);
      v' := (10 * v + DigitValue(ch)) % U64;
    }
  }

  /** The operand loop of both dialogs. It would write its terminator behind the buffer,
      which this model reports and does not do, exactly if the operand fills the buffer. */
  method ReadOperand(kb: Keyboard, kind: Kind, ghost s: string, ghost tail: string)
      returns (o: Operand, overran: bool, ghost left: string)
    requires Pending(kb, s, tail)
    modifies kb
    ensures o.err ==> Pending(kb, left, tail) && !OperandOk(kind, s)
    ensures !o.err ==> kb.input == tail[1..] && OperandRead(kind, s, o)
    ensures overran <==> FillsBuffer(kind, s)
    ensures !o.err && !overran ==> OperandOk(kind, s)
  {
    var buf := new char[BUFFER];
    var n: nat, v: nat := 0, 0;
    var seenInput, err := false, false;
    ghost var i := 0;
    left, overran := s, false;
    assert s[..0] == [] && buf[..0] == [];
    while !err
      invariant i <= |s| && n <= BUFFER && left == s[i..] && Pending(kb, left, tail)
      invariant err ==> !OperandOk(kind, s) && !FillsBuffer(kind, s)
      invariant !overran
      invariant !err ==> OperandRead(kind, s[..i], Operand(false, seenInput, v, buf[..n]))
      decreases !err, |kb.input|
    {
      ghost var was := Operand(false, seenInput, v, buf[..n]);
      var ch;
      ch, left := ReadChar(kb, left, tail);
      if !kind.TextKind? && IsBlank(ch) {
        OneMore(kind, s, i, was);
      } else if IsEol(ch) {
        assert s[..i] == s;
        if Buffered(kind) {
          if n < BUFFER {
            buf[n] := '\0';
          } else {
            overran := true;
          }
        }
        break;
      } else {
        err, seenInput, n, v := TakeChar(kind, buf, n, v, ch, s, i, was);
      }
      i := i + 1;
    }
    o := Operand(err, seenInput, v, buf[..n]);
  }

  /** The typed line leaves the buffer room for its terminator. */
  predicate FitsBuffer(kind: Kind, line: string)
  {
    var rest := SkipBlanks(line);
    match OperatorOf(rest)
    case Some((op, n)) => (kind.AddressKind? && op !in {EQ, NE}) || !FillsBuffer(kind, rest[n..])
    case None => true
  }

  /** For instance, `=` and as many printable characters as the buffer has bytes. */
  lemma {:induction false} OverrunExample(c: char, operand: string)
    requires IsPrintable(c) && |operand| == BUFFER && forall i | 0 <= i < BUFFER :: operand[i] == c
    ensures !FitsBuffer(TextKind, "=" + operand)
  {
    var line := "=" + operand;
    assert SkipBlanks(line) == line && line[1..] == operand;
  }

  lemma {:induction false} StreamIsPending(kb: Keyboard)
    requires HasEol(kb.input)
    ensures |FirstLine(kb.input)| <= |kb.input|
    ensures var s := FirstLine(kb.input);
            && Pending(kb, s, kb.input[|s|..])
            && kb.input[|s|..][1..] == AfterLine(kb.input)
  {
    LineSplits(kb.input);
    var s := FirstLine(kb.input);
    assert kb.input == s + kb.input[|s|..];
    assert kb.input[|s|..][1..] == kb.input[|s| + 1..];
  }

  /** The dialog for numbers and strings. It consumes exactly the typed line. A filter
      that is `made` is a new object in the place of the old one. */
  method FpCommon(kb: Keyboard, kind: Kind, filter: Option<Filter>)
      returns (err: bool, filter': Option<Filter>, made: bool, overran: bool)
    requires HasEol(kb.input) && !kind.AddressKind?
    modifies kb
    ensures kb.input == AfterLine(old(kb.input))
    ensures overran <==> !FitsBuffer(kind, FirstLine(old(kb.input)))
    ensures !overran ==> Outcome(err, filter') == CommonOutcome(kind, FirstLine(old(kb.input)), filter)
    ensures if made then filter'.Some? else filter' == filter
  {
    StreamIsPending(kb);
    ghost var line := FirstLine(kb.input);
    ghost var tail := kb.input[|line|..];
    ghost var left;
    filter', made, overran := filter, false, false;
    var ch;
    ch, left := FirstChar(kb, line, tail);
    if IsEol(ch) {
      err := filter.None?;
      return;
    }
    var op;
    op, left := ReadOperator(kb, ch, left, tail);
    if op.None? {
      err := true;
      SkipLine(kb, left, tail);
      return;
    }
    var o;
    o, overran, left := ReadOperand(kb, kind, left, tail);
    err := o.err;
    if !err && o.seenInput {
      made := true;
      filter' := Some(if kind.TextKind? then TextFilter(op.value, o.text) else NumberFilter(op.value, o.v));
    } else if err {
      SkipLine(kb, left, tail);
    }
  }

  /** The dialog for addresses. */
  method FpAddr(kb: Keyboard, filter: Option<Filter>, pton: Pton)
      returns (err: bool, filter': Option<Filter>, made: bool, overran: bool)
    requires HasEol(kb.input)
    modifies kb
    ensures kb.input == AfterLine(old(kb.input))
    ensures overran <==> !FitsBuffer(AddressKind, FirstLine(old(kb.input)))
    ensures !overran ==> Outcome(err, filter') == AddressOutcome(FirstLine(old(kb.input)), filter, AddressParser(pton))
    ensures if made then filter'.Some? else filter' == filter
  {
    StreamIsPending(kb);
    ghost var line := FirstLine(kb.input);
    ghost var tail := kb.input[|line|..];
    ghost var left;
    filter', made, overran := filter, false, false;
    var ch;
    ch, left := FirstChar(kb, line, tail);
    if IsEol(ch) {
      err := filter.None?;
      return;
    }
    var op;
    op, left := ReadOperator(kb, ch, left, tail);
    if op !in {Some(EQ), Some(NE)} {
      err := true;
      SkipLine(kb, left, tail);
      return;
    }
    err, filter', made, overran := ReadAddressFilter(kb, op.value, filter, pton, left, tail);
  }

  /** The operand of an address filter, up to the end of its line. */
  method ReadAddressFilter(kb: Keyboard, op: CmpOp, filter: Option<Filter>, pton: Pton, ghost s: string, ghost tail: string)
      returns (err: bool, filter': Option<Filter>, made: bool, overran: bool)
    requires Pending(kb, s, tail)
    modifies kb
    ensures kb.input == tail[1..]
    ensures overran <==> FillsBuffer(AddressKind, s)
    ensures if made then filter'.Some? else filter' == filter
    ensures !overran ==> Outcome(err, filter') == AddressOperandOutcome(op, s, filter, AddressParser(pton))
  {
    filter', made := filter, false;
    var o;
    ghost var left;
    o, overran, left := ReadOperand(kb, AddressKind, s, tail);
    err := o.err;
    if !err && o.seenInput {
      var f := ReadAddress(op, o.text, pton);
      err := f.None?;
      if f.Some? {
        filter', made := f, true;
      }
    } else if err {
      SkipLine(kb, left, tail);
    }
  }

  /** Splits an address operand at its last slash and builds the mask. */
  method ReadAddress(op: CmpOp, text: string, pton: Pton) returns (f: Option<Filter>)
    ensures f == ParseAddress(op, text, pton)
  {
    var slash := LastSlash(text);
    var host := text;
    var mask;
    if slash.Some? {
      host := text[..slash.value];
      var pfix := PrefixLength(text[slash.value + 1..]);
      if pfix.None? {
        return None;
      }
      mask := BuildMask(pfix.value);
      PrefixMaskUnique(mask, pfix.value);
    } else {
      mask := FullMask();
      PrefixMaskUnique(mask, 128);
    }
    var addr := pton(Inet, host);
    if addr.Some? {
      return Some(AddressFilter(op, Inet, addr.value, mask));
    }
    addr := pton(Inet6, host);
    if addr.Some? {
      return Some(AddressFilter(op, Inet6, addr.value, mask));
    }
    return None;
  }

  lemma {:induction false} CountedOnes(mask: Bytes16, i: nat, n: nat, k: nat)
    requires i <= k <= n <= 128
    requires forall b | i <= b < k :: BitAt(mask, b)
    requires k < n ==> !BitAt(mask, k)
    ensures OnesFrom(mask, i, n) == k
    decreases n - i
  {
    if i < k {
      CountedOnes(mask, i + 1, n, k);
    }
  }

  /** Prints the filter in force. */
  method DecodeFilter(flt: Filter, ntop: Ntop) returns (buf: string)
    ensures buf == Printed(flt, ntop)
  {
    if flt.AddressFilter? {
      var len := AddressLength(flt.family);
      var dst := ntop(flt.family, flt.addr);
      var pfix := CountPrefix(flt.mask, len);
      CountedOnes(flt.mask, 0, 8 * len, pfix);
      buf := OpText(flt) + (dst + "/" + Digits(pfix));
    } else {
      buf := OpText(flt) + OperandText(flt, ntop);
    }
    if |buf| >= BUFFER {
      buf := buf[..BUFFER - 1];
    }
  }

  // ----- the choice dialog

  predicate EndsChoice(c: char) { c == 'q' || c == 'Q' || c == KEY_ESC }

  /** The selection when the dialog is left, and the input after it. `y` is the line of
      the cursor, the first choice being on line 1. */
  function Choose(input: string, first: nat, last: nat, y: nat, selected: set<nat>): (r: (set<nat>, string))
    requires first <= last && 1 <= y <= last - first + 1
    ensures |r.1| <= |input|
  {
    if input == [] then (selected, [])
    else
      var c, rest := input[0], input[1..];
      if EndsChoice(c) then (selected, rest)
      else if c == KEY_DOWN then Choose(rest, first, last, if y < last - first + 1 then y + 1 else y, selected)
      else if c == KEY_UP then Choose(rest, first, last, if y > 1 then y - 1 else y, selected)
      else if c == ' ' then
        var v := y - 1 + first;
        Choose(rest, first, last, y, if v in selected then selected - {v} else selected + {v})
      else Choose(rest, first, last, y, selected)
  }

  function SelectedIn(filter: Option<Filter>): (s: set<nat>)
  {
    match filter case Some(ChoiceFilter(s)) => s case _ => {}
  }

  /** Nothing selected is an error, yet it empties a filter that exists. */
  function ChoiceOutcome(selected: set<nat>, filter: Option<Filter>): (o: Outcome)
  {
    if selected != {} then Outcome(false, Some(ChoiceFilter(selected)))
    else Outcome(true, if filter.None? then None else Some(ChoiceFilter({})))
  }

  /** Only the offered values can be selected. */
  lemma {:induction false} ChoosesOffered(input: string, first: nat, last: nat, y: nat, selected: set<nat>)
    requires first <= last && 1 <= y <= last - first + 1
    requires forall v | v in selected :: first <= v <= last
    ensures forall v | v in Choose(input, first, last, y, selected).0 :: first <= v <= last
    decreases |input|
  {
    if input != [] && !EndsChoice(input[0]) {
      var c, rest := input[0], input[1..];
      if c == KEY_DOWN {
        ChoosesOffered(rest, first, last, if y < last - first + 1 then y + 1 else y, selected);
      } else if c == KEY_UP {
        ChoosesOffered(rest, first, last, if y > 1 then y - 1 else y, selected);
      } else if c == ' ' {
        var v := y - 1 + first;
        ChoosesOffered(rest, first, last, y, if v in selected then selected - {v} else selected + {v});
      } else {
        ChoosesOffered(rest, first, last, y, selected);
      }
    }
  }

  predicate HasChoiceEnd(input: string)
  {
    exists i :: 0 <= i < |input| && EndsChoice(input[i])
  }

  method FpChoice(kb: Keyboard, first: nat, last: nat, filter: Option<Filter>)
      returns (err: bool, filter': Option<Filter>, made: bool)
    requires HasChoiceEnd(kb.input) && first <= last
    modifies kb
    ensures var r := Choose(old(kb.input), first, last, 1, SelectedIn(filter));
            kb.input == r.1 && Outcome(err, filter') == ChoiceOutcome(r.0, filter)
    ensures made <==> filter.None? && filter'.Some?
  {
    var selected := SelectedIn(filter);
    var y: nat := 1;
    var done := false;
    ghost var r := Choose(kb.input, first, last, 1, selected);
    while !done
      invariant 1 <= y <= last - first + 1
      invariant if done then r == (selected, kb.input)
                else HasChoiceEnd(kb.input) && r == Choose(kb.input, first, last, y, selected)
      decreases !done, |kb.input|
    {
      ghost var was := kb.input;
      var ch := kb.Getch();
      if ch == KEY_DOWN {
        if y < last - first + 1 {
          y := y + 1;
        }
      } else if ch == KEY_UP {
        if y > 1 {
          y := y - 1;
        }
      } else if ch == ' ' {
        var v := y - 1 + first;
        if v in selected {
          selected := selected - {v};
        } else {
          selected := selected + {v};
        }
      } else {
        done := EndsChoice(ch);
      }
      if !done {
        ghost var i :| 0 <= i < |was| && EndsChoice(was[i]);
        assert EndsChoice(kb.input[i - 1]);
      }
    }
    if selected != {} {
      return false, Some(ChoiceFilter(selected)), filter.None?;
    }
    return true, if filter.None? then None else Some(ChoiceFilter({})), false;
  }

  // ----- the delay dialog

  const MAX_DELAY := 255

  /** The delay in force once `line` is typed. */
  function DelayOutcome(line: string, current: nat): (delay: nat)
  {
    if AllDigits(line) && 1 <= Decimal(line) <= MAX_DELAY then Decimal(line) else current
  }

  lemma {:induction false} DecimalGrows(s: string, i: nat)
    requires AllDigits(s) && i <= |s|
    ensures Decimal(s[..i]) <= Decimal(s)
    decreases |s| - i
  {
    if i < |s| {
      DecimalGrows(s, i + 1);
      assert s[..i + 1][..i] == s[..i];
    } else {
      assert s[..i] == s;
    }
  }

  /** Reads a new delay. Like the filter dialogs it consumes exactly the typed line. */
  method ReadDelay(kb: Keyboard, current: nat) returns (delay: nat)
    requires HasEol(kb.input)
    modifies kb
    ensures kb.input == AfterLine(old(kb.input))
    ensures delay == DelayOutcome(FirstLine(old(kb.input)), current)
  {
    StreamIsPending(kb);
    ghost var line := FirstLine(kb.input);
    ghost var tail := kb.input[|line|..];
    ghost var left, i := line, 0;
    var v: nat, seenNl := 0, false;
    delay := current;
    assert line[..0] == [];
    while true
      invariant i <= |line| && left == line[i..] && Pending(kb, left, tail)
      invariant AllDigits(line[..i]) && v == Decimal(line[..i]) <= MAX_DELAY
      decreases |kb.input|
    {
      var ch;
      ch, left := ReadChar(kb, left, tail);
      if IsDigit(ch) {
        i := i + 1;
        assert line[..i][..i - 1] == line[..i - 1];
        v := 10 * v + DigitValue(ch);
        if v > MAX_DELAY {
          if AllDigits(line) {
            DecimalGrows(line, i);
          }
          break;
        }
      } else if IsEol(ch) {
        assert line[..i] == line;
        seenNl := true;
        break;
      } else {
        break;
      }
    }
    if seenNl {
      if 1 <= v <= MAX_DELAY {
        delay := v;
      }
    } else {
      SkipLine(kb, left, tail);
    }
  }
}
