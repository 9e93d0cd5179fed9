/** What is typed into a filter dialog, character by character, and which values the
    filter it leaves accepts. */
module TypedFilters {
  import opened Types
  import opened BigEndian
  import opened Prefix
  import opened FilterText
  import opened FilterMatch
  import opened FilterDialog
  import opened Comparators
  import opened Keys

  // ----- numbers

  /** The line leaves a filter that accepts exactly the values with `keeps`. */
  ghost predicate AcceptsNumbers(line: string, current: Option<Filter>, keeps: nat -> bool)
  {
    var o := CommonOutcome(NumberKind, line, current);
    !o.err && o.filter.Some? && forall v: Value :: Matches(o.filter.value, v) <==> keeps(NumberOf(v))
  }

  lemma {:induction false} NumberTyped(line: string, op: CmpOp, k: nat, n: nat, current: Option<Filter>)
    requires n < 0x1_0000_0000_0000_0000
    requires SkipBlanks(line) == line && OperatorOf(line) == Some((op, k)) && k <= |line| && line[k..] == Digits(n)
    ensures CommonOutcome(NumberKind, line, current) == Outcome(false, Some(NumberFilter(op, n)))
  {
    var d := Digits(n);
    assert Decimal(d) % U64 == n by {
      DecimalOfDigits(n);
    }
    assert Content(NumberKind, d) == d by {
      DigitsHaveNoBlanks(d);
    }
    OperandTaken(NumberKind, line, op, k, current);
  }

  lemma {:induction false} OneCharacter(c: char, operand: string)
    ensures ([c] + operand)[0] == c && ([c] + operand)[1..] == operand
    ensures operand != [] ==> ([c] + operand)[1] == operand[0]
    ensures !IsBlank(c) ==> SkipBlanks([c] + operand) == [c] + operand
  {
  }

  lemma {:induction false} TwoCharacters(c: char, e: char, operand: string)
    ensures ([c, e] + operand)[0] == c && ([c, e] + operand)[1] == e && ([c, e] + operand)[2..] == operand
    ensures !IsBlank(c) ==> SkipBlanks([c, e] + operand) == [c, e] + operand
  {
  }

  lemma {:induction false} TypedEqual(n: nat, current: Option<Filter>)
    requires n < 0x1_0000_0000_0000_0000
    ensures AcceptsNumbers("=" + Digits(n), current, v => v == n)
  {
    OneCharacter('=', Digits(n));
    NumberTyped("=" + Digits(n), EQ, 1, n, current);
  }

  lemma {:induction false} TypedUnequal(n: nat, current: Option<Filter>)
    requires n < 0x1_0000_0000_0000_0000
    ensures AcceptsNumbers("!=" + Digits(n), current, v => v != n)
  {
    TwoCharacters('!', '=', Digits(n));
    NumberTyped("!=" + Digits(n), NE, 2, n, current);
  }

  lemma {:induction false} TypedAbove(n: nat, current: Option<Filter>)
    requires n < 0x1_0000_0000_0000_0000
    ensures AcceptsNumbers(">" + Digits(n), current, v => v > n)
  {
    OneCharacter('>', Digits(n));
    NumberTyped(">" + Digits(n), GT, 1, n, current);
  }

  lemma {:induction false} TypedAtLeast(n: nat, current: Option<Filter>)
    requires n < 0x1_0000_0000_0000_0000
    ensures AcceptsNumbers(">=" + Digits(n), current, v => v >= n)
  {
    TwoCharacters('>', '=', Digits(n));
    NumberTyped(">=" + Digits(n), GE, 2, n, current);
  }

  lemma {:induction false} TypedBelow(n: nat, current: Option<Filter>)
    requires n < 0x1_0000_0000_0000_0000
    ensures AcceptsNumbers("<" + Digits(n), current, v => v < n)
  {
    OneCharacter('<', Digits(n));
    NumberTyped("<" + Digits(n), LT, 1, n, current);
  }

  lemma {:induction false} TypedAtMost(n: nat, current: Option<Filter>)
    requires n < 0x1_0000_0000_0000_0000
    ensures AcceptsNumbers("<=" + Digits(n), current, v => v <= n)
  {
    TwoCharacters('<', '=', Digits(n));
    NumberTyped("<=" + Digits(n), LE, 2, n, current);
  }

  /** The digits of a number, one after the other. */
  lemma {:induction false} DigitsRead(a: nat, d: nat)
    requires d < 10
    ensures Digits(d) == ["0123456789"[d]]
    ensures a > 0 ==> Digits(10 * a + d) == Digits(a) + ["0123456789"[d]]
  {
    assert "0123456789"[d] == '0' + d as char;
    if a > 0 {
      assert (10 * a + d) % 10 == d && (10 * a + d) / 10 == a;
    }
  }

  /** A number may not contain anything but digits and blanks. */
  lemma {:induction false} OtherCharactersRefused(op: CmpOp, k: nat, line: string, i: nat, current: Option<Filter>)
    requires SkipBlanks(line) == line && OperatorOf(line) == Some((op, k)) && k <= i < |line|
    requires line[i] !in "0123456789 \t"
    ensures CommonOutcome(NumberKind, line, current) == Outcome(true, current)
  {
    NotANumber(line[k..], i - k);
    OperandRefused(line, op, k, current);
  }

  lemma {:induction false} NotANumber(s: string, i: nat)
    requires i < |s| && s[i] !in "0123456789 \t"
    ensures !OperandOk(NumberKind, s)
  {
    ContentHas(s, i);
    if IsDigit(s[i]) {
      DigitListed(s[i]);
    }
  }

  lemma {:induction false} DigitListed(c: char)
    requires IsDigit(c)
    ensures c in "0123456789 \t"
  {
    assert "0123456789 \t"[c as int - '0' as int] == c;
  }

  lemma {:induction false} OperandRefused(line: string, op: CmpOp, k: nat, current: Option<Filter>)
    requires SkipBlanks(line) == line && line != [] && OperatorOf(line) == Some((op, k)) && k <= |line|
    requires !OperandOk(NumberKind, line[k..])
    ensures CommonOutcome(NumberKind, line, current) == Outcome(true, current)
  {
  }

  lemma {:induction false} ContentHas(s: string, i: nat)
    requires i < |s| && !IsBlank(s[i])
    ensures s[i] in RemoveBlanks(s)
  {
    if i < |s| - 1 {
      ContentHas(s[..|s| - 1], i);
    }
  }

  // ----- laws between the numeric filters

  /** The six comparisons of one operand: each is the complement of another. */
  lemma {:induction false} Complements(n: nat, v: Value)
    ensures Matches(NumberFilter(NE, n), v) <==> !Matches(NumberFilter(EQ, n), v)
    ensures Matches(NumberFilter(GE, n), v) <==> !Matches(NumberFilter(LT, n), v)
    ensures Matches(NumberFilter(LE, n), v) <==> !Matches(NumberFilter(GT, n), v)
  {
  }

  /** What lies above an accepted value is above, what lies below is below. */
  lemma {:induction false} Monotone(op: CmpOp, n: nat, v: Value, w: Value)
    requires Matches(NumberFilter(op, n), v)
    ensures op in {GT, GE} && NumberOf(w) >= NumberOf(v) ==> Matches(NumberFilter(op, n), w)
    ensures op in {LT, LE} && NumberOf(w) <= NumberOf(v) ==> Matches(NumberFilter(op, n), w)
  {
  }

  // ----- strings

  ghost predicate AcceptsText(line: string, current: Option<Filter>, keeps: string -> bool)
  {
    var o := CommonOutcome(TextKind, line, current);
    !o.err && o.filter.Some? && forall v: Value :: Matches(o.filter.value, v) <==> keeps(TextOf(v))
  }

  /** `t` stands somewhere in `s`. */
  ghost predicate IsPart(s: string, t: string)
  {
    exists a, b :: s == a + t + b
  }

  lemma {:induction false} ContainsIsPart(s: string, t: string)
    ensures Contains(s, t) <==> IsPart(s, t)
  {
    if i :| 0 <= i <= |s| && OccursAt(s, t, i) {
      assert s == s[..i] + t + s[i + |t|..];
    }
    if a, b :| s == a + t + b {
      assert OccursAt(s, t, |a|);
    }
  }

  predicate Typeable(t: string)
  {
    0 < |t| < 80 && forall i | 0 <= i < |t| :: ' ' <= t[i] <= '~'
  }

  lemma {:induction false} TextTyped(line: string, op: CmpOp, k: nat, t: string, current: Option<Filter>)
    requires Typeable(t) && SkipBlanks(line) == line && OperatorOf(line) == Some((op, k)) && k <= |line| && line[k..] == t
    ensures CommonOutcome(TextKind, line, current) == Outcome(false, Some(TextFilter(op, t)))
  {
    OperandTaken(TextKind, line, op, k, current);
  }

  lemma {:induction false} TypedSame(t: string, current: Option<Filter>)
    requires Typeable(t)
    ensures AcceptsText("=" + t, current, s => s == t)
  {
    OneCharacter('=', t);
    TextTyped("=" + t, EQ, 1, t, current);
  }

  lemma {:induction false} TypedPart(t: string, current: Option<Filter>)
    requires Typeable(t)
    ensures AcceptsText("~" + t, current, s => IsPart(s, t))
  {
    OneCharacter('~', t);
    TextTyped("~" + t, CT, 1, t, current);
    forall v: Value ensures Matches(TextFilter(CT, t), v) <==> IsPart(TextOf(v), t) {
      ContainsIsPart(TextOf(v), t);
    }
  }

  lemma {:induction false} TypedNoPart(t: string, current: Option<Filter>)
    requires Typeable(t)
    ensures AcceptsText("!~" + t, current, s => !IsPart(s, t))
  {
    TwoCharacters('!', '~', t);
    TextTyped("!~" + t, NC, 2, t, current);
    forall v: Value ensures Matches(TextFilter(NC, t), v) <==> !IsPart(TextOf(v), t) {
      ContainsIsPart(TextOf(v), t);
    }
  }

  // ----- addresses

  /** The line leaves a filter that accepts exactly the addresses with `keeps`, or with
      `negated` exactly the others. */
  ghost predicate AcceptsAddress(line: string, current: Option<Filter>, pton: Pton, negated: bool, keeps: (Family, Bytes16) -> bool)
  {
    var o := AddressOutcome(line, current, AddressParser(pton));
    && !o.err && o.filter.Some?
    && forall family, address: Bytes16 :: Matches(o.filter.value, AddressValue(family, address)) <==> keeps(family, address) != negated
  }

  /** The address that the text stands for, IPv4 being tried first. */
  predicate StandsFor(pton: Pton, host: string, family: Family, a: Bytes16)
  {
    match family
    case Inet => pton(Inet, host) == Some(a)
    case Inet6 => pton(Inet, host) == None && pton(Inet6, host) == Some(a)
  }

  /** The first `n` bits of the addresses agree, the most significant first. */
  predicate SameBitsUpTo(a: Bytes16, b: Bytes16, n: nat)
  {
    forall i | 0 <= i < n && i < 128 :: BitAt(a, i) == BitAt(b, i)
  }

  function OperatorText(negated: bool): (s: string)
  {
    if negated then "!=" else "="
  }

  lemma {:induction false} AddressTyped(negated: bool, operand: string, current: Option<Filter>, parse: (CmpOp, string) -> Option<Filter>)
    requires 0 < |operand| < 80 && forall i | 0 <= i < |operand| :: IsAddressChar(operand[i])
    ensures AddressOutcome(OperatorText(negated) + operand, current, parse)
         == AddressOperandOutcome(if negated then NE else EQ, operand, current, parse)
    ensures OperandOk(AddressKind, operand) && RemoveBlanks(operand) == operand
  {
    GoodAddressOperand(operand);
    if negated {
      TwoCharacters('!', '=', operand);
      AddressTaken("!=" + operand, NE, 2, current, parse);
    } else {
      OneCharacter('=', operand);
      AddressTaken("=" + operand, EQ, 1, current, parse);
    }
  }

  lemma {:induction false} GoodAddressOperand(operand: string)
    requires 0 < |operand| < 80 && forall i | 0 <= i < |operand| :: IsAddressChar(operand[i])
    ensures OperandOk(AddressKind, operand) && RemoveBlanks(operand) == operand
  {
    NothingToRemove(operand);
  }

  lemma {:induction false} AddressTaken(line: string, op: CmpOp, k: nat, current: Option<Filter>, parse: (CmpOp, string) -> Option<Filter>)
    requires SkipBlanks(line) == line && line != [] && AddressOperatorOf(line) == Some((op, k)) && k <= |line|
    ensures AddressOutcome(line, current, parse) == AddressOperandOutcome(op, line[k..], current, parse)
  {
  }

  lemma {:induction false} MaskDecides(flt: Filter, k: nat, family: Family, address: Bytes16)
    requires flt.AddressFilter? && flt.op in {EQ, NE} && IsPrefixMask(flt.mask, k)
    ensures Matches(flt, AddressValue(family, address))
       <==> (family == flt.family && SameBitsUpTo(flt.addr, address, Min(k, 8 * AddressLength(flt.family)))) != flt.op.NE?
  {
  }

  lemma {:induction false} HostMeans(flt: Filter, f: Family, b: Bytes16)
    requires flt.AddressFilter? && flt.op in {EQ, NE} && flt.mask == PrefixMask(128)
    ensures Matches(flt, AddressValue(f, b))
       <==> (f == flt.family && b[..AddressLength(flt.family)] == flt.addr[..AddressLength(flt.family)]) != flt.op.NE?
  {
    MaskDecides(flt, 128, f, b);
    SameBytes(flt.addr, b, AddressLength(flt.family));
  }

  lemma {:induction false} OperandMade(negated: bool, operand: string, flt: Filter, current: Option<Filter>, parse: (CmpOp, string) -> Option<Filter>)
    requires 0 < |operand| < 80 && forall i | 0 <= i < |operand| :: IsAddressChar(operand[i])
    requires parse(if negated then NE else EQ, operand) == Some(flt)
    ensures AddressOutcome(OperatorText(negated) + operand, current, parse) == Outcome(false, Some(flt))
  {
    AddressTyped(negated, operand, current, parse);
  }

  /** An operand without a slash accepts exactly the address it stands for. */
  lemma {:induction false} TypedHost(negated: bool, host: string, family: Family, a: Bytes16, current: Option<Filter>, pton: Pton)
    requires AddressText(host) && 0 < |host| < 80 && StandsFor(pton, host, family, a)
    ensures AcceptsAddress(OperatorText(negated) + host, current, pton, negated,
              (f: Family, b: Bytes16) => f == family && b[..if family.Inet? then 4 else 16] == a[..if family.Inet? then 4 else 16])
  {
    var flt := AddressFilter(if negated then NE else EQ, family, a, PrefixMask(128));
    HostParsed(flt.op, host, family, a, pton);
    OperandMade(negated, host, flt, current, AddressParser(pton));
    forall f, b: Bytes16
      ensures Matches(flt, AddressValue(f, b))
         <==> (f == family && b[..if family.Inet? then 4 else 16] == a[..if family.Inet? then 4 else 16]) != negated
    {
      HostMeans(flt, f, b);
    }
  }

  lemma {:induction false} HostParsed(op: CmpOp, host: string, family: Family, a: Bytes16, pton: Pton)
    requires AddressText(host) && StandsFor(pton, host, family, a)
    ensures ParseAddress(op, host, pton) == Some(AddressFilter(op, family, a, PrefixMask(128)))
  {
    assert LastSlash(host).None?;
  }

  /** Agreeing bytes are agreeing bits. */
  lemma {:induction false} SameBytes(a: Bytes16, b: Bytes16, n: nat)
    requires n <= 16
    ensures SameBitsUpTo(a, b, 8 * n) <==> b[..n] == a[..n]
  {
    if SameBitsUpTo(a, b, 8 * n) {
      forall i | 0 <= i < n ensures a[i] == b[i] {
        forall k: nat | k < 8 ensures Bit(a[i], k) == Bit(b[i], k) {
          assert (8 * i + k) / 8 == i && (8 * i + k) % 8 == k;
          assert BitAt(a, 8 * i + k) == BitAt(b, 8 * i + k);
        }
        SameBits(a[i], b[i]);
      }
    }
    if b[..n] == a[..n] {
      forall i | 0 <= i < 8 * n ensures BitAt(a, i) == BitAt(b, i) {
        assert a[..n][i / 8] == b[..n][i / 8];
      }
    }
  }

  /** With a slash and a prefix length, exactly the addresses that agree on that many
      leading bits, as far as the address is long. */
  lemma {:induction false} TypedPrefix(negated: bool, host: string, n: nat, family: Family, a: Bytes16, current: Option<Filter>, pton: Pton)
    requires AddressText(host) && 0 < |host| <= 45 && n <= 128 && StandsFor(pton, host, family, a)
    ensures AcceptsAddress(OperatorText(negated) + (host + "/" + Digits(n)), current, pton, negated,
              (f: Family, b: Bytes16) => f == family && SameBitsUpTo(a, b, Min(n, if family.Inet? then 32 else 128)))
  {
    var flt := AddressFilter(if negated then NE else EQ, family, a, PrefixMask(n));
    AddressOperandBack(flt.op, host, n, pton);
    var operand := host + "/" + Digits(n);
    OperandCharacters(host, n);
    OperandMade(negated, operand, flt, current, AddressParser(pton));
    forall f, b: Bytes16
      ensures Matches(flt, AddressValue(f, b))
         <==> (f == family && SameBitsUpTo(a, b, Min(n, if family.Inet? then 32 else 128))) != negated
    {
      MaskDecides(flt, n, f, b);
    }
  }

  lemma {:induction false} OperandCharacters(host: string, n: nat)
    requires AddressText(host) && 0 < |host| <= 45 && n < 1000
    ensures var operand := host + "/" + Digits(n);
            0 < |operand| < 80 && forall i | 0 <= i < |operand| :: IsAddressChar(operand[i])
  {
    assert Pow10(3) == 1000;
    DigitsFit(n, 3);
  }

  lemma {:induction false} NotParsed(op: CmpOp, host: string, n: nat, pton: Pton)
    requires AddressText(host)
    requires 128 < n || (pton(Inet, host) == None && pton(Inet6, host) == None)
    ensures ParseAddress(op, host + "/" + Digits(n), pton) == None
  {
    DecimalOfDigits(n);
    SlashFound(host, Digits(n));
  }

  lemma {:induction false} OperandNotMade(negated: bool, operand: string, current: Option<Filter>, parse: (CmpOp, string) -> Option<Filter>)
    requires 0 < |operand| < 80 && forall i | 0 <= i < |operand| :: IsAddressChar(operand[i])
    requires parse(if negated then NE else EQ, operand) == None
    ensures AddressOutcome(OperatorText(negated) + operand, current, parse) == Outcome(true, current)
  {
    AddressTyped(negated, operand, current, parse);
  }

  /** A prefix longer than 128 bits is refused, and so is what stands for no address. */
  lemma {:induction false} RefusedAddress(negated: bool, host: string, n: nat, current: Option<Filter>, pton: Pton)
    requires AddressText(host) && 0 < |host| <= 45
    requires n < 1000 && (128 < n || (pton(Inet, host) == None && pton(Inet6, host) == None))
    ensures AddressOutcome(OperatorText(negated) + (host + "/" + Digits(n)), current, AddressParser(pton)) == Outcome(true, current)
  {
    OperandCharacters(host, n);
    NotParsed(if negated then NE else EQ, host, n, pton);
    OperandNotMade(negated, host + "/" + Digits(n), current, AddressParser(pton));
  }

  // ----- choices

  function Downs(k: nat): (keys: string)
  {
    if k == 0 then "" else [KEY_DOWN] + Downs(k - 1)
  }

  /** Going down `k` times, a blank and `q` choose the `k`-th of the values offered. */
  lemma {:induction false} ChoosesOne(first: nat, last: nat, y: nat, k: nat, rest: string)
    requires 1 <= y && y + k <= last - first + 1 && first <= last
    ensures Choose(Downs(k) + (" q" + rest), first, last, y, {}) == ({first + (y - 1) + k}, rest)
    decreases k
  {
    var input := Downs(k) + (" q" + rest);
    if k == 0 {
      var v := y - 1 + first;
      assert input == " q" + rest && input[0] == ' ' && input[1..][0] == 'q' && input[1..][1..] == rest;
      assert Choose(input[1..], first, last, y, {v}) == ({v}, rest);
      assert {} + {v} == {v};
    } else {
      assert input[0] == KEY_DOWN && input[1..] == Downs(k - 1) + (" q" + rest);
      ChoosesOne(first, last, y + 1, k - 1, rest);
    }
  }

  /** Such a filter accepts exactly that value, or exactly that single flag. */
  lemma {:induction false} TypedChoice(first: nat, last: nat, k: nat, rest: string)
    requires first + k <= last
    ensures var o := ChoiceOutcome(Choose(Downs(k) + (" q" + rest), first, last, 1, {}).0, None);
            && !o.err && o.filter.Some?
            && (forall v: nat :: Matches(o.filter.value, NumberValue(v)) <==> v == first + k)
            && (forall n: nat, bits: set<nat> :: Matches(o.filter.value, FlagsValue(n, bits)) <==> bits == {first + k})
  {
    ChoosesOne(first, last, 1, k, rest);
  }

  /** Up takes a step down back, a second blank an earlier one; `Q` and escape end, too. */
  lemma {:induction false} ChoiceKeys(first: nat, last: nat, y: nat, selected: set<nat>, rest: string)
    requires first <= last && 1 <= y <= last - first + 1
    ensures y <= last - first ==>
              Choose([KEY_DOWN, KEY_UP] + rest, first, last, y, selected) == Choose(rest, first, last, y, selected)
    ensures y - 1 + first !in selected ==>
              Choose([' ', ' '] + rest, first, last, y, selected) == Choose(rest, first, last, y, selected)
    ensures Choose(['Q'] + rest, first, last, y, selected) == (selected, rest)
    ensures Choose(['\U{001b}'] + rest, first, last, y, selected) == (selected, rest)
  {
    var down, blank := [KEY_DOWN, KEY_UP] + rest, [' ', ' '] + rest;
    assert down[0] == KEY_DOWN && down[1..][0] == KEY_UP && down[1..][1..] == rest;
    assert blank[0] == ' ' && blank[1..][0] == ' ' && blank[1..][1..] == rest;
    assert (['Q'] + rest)[1..] == rest && (['\U{001b}'] + rest)[1..] == rest;
    var v := y - 1 + first;
    if v !in selected {
      assert selected + {v} - {v} == selected;
    }
  }

  // ----- what is printed

  lemma {:induction false} NumberPrints(n: nat, ntop: Ntop)
    requires n < 0x1_0000_0000_0000_0000
    ensures Printed(NumberFilter(EQ, n), ntop) == "=" + Digits(n) && Printed(NumberFilter(NE, n), ntop) == "!=" + Digits(n)
    ensures Printed(NumberFilter(GT, n), ntop) == ">" + Digits(n) && Printed(NumberFilter(GE, n), ntop) == ">=" + Digits(n)
    ensures Printed(NumberFilter(LT, n), ntop) == "<" + Digits(n) && Printed(NumberFilter(LE, n), ntop) == "<=" + Digits(n)
  {
    PrintedWhole(NumberFilter(EQ, n), ntop);
    PrintedWhole(NumberFilter(NE, n), ntop);
    PrintedWhole(NumberFilter(GT, n), ntop);
    PrintedWhole(NumberFilter(GE, n), ntop);
    PrintedWhole(NumberFilter(LT, n), ntop);
    PrintedWhole(NumberFilter(LE, n), ntop);
  }

  lemma {:induction false} TextPrints(t: string, ntop: Ntop)
    requires |t| <= 77
    ensures Printed(TextFilter(EQ, t), ntop) == "=" + t && Printed(TextFilter(CT, t), ntop) == "~" + t
    ensures Printed(TextFilter(NC, t), ntop) == "!~" + t
  {
  }

  lemma {:induction false} AddressPrints(flt: Filter, k: nat, ntop: Ntop, pton: Pton)
    requires IsResolver(ntop, pton) && flt.AddressFilter? && flt.op in {EQ, NE} && IsPrefixMask(flt.mask, k)
    ensures Printed(flt, ntop)
         == (if flt.op.EQ? then "=" else "!=")
            + (ntop(flt.family, flt.addr) + "/" + Digits(Min(k, if flt.family.Inet? then 32 else 128)))
  {
    PrintedAddress(flt, k, ntop, pton);
  }

  // ----- the delay

  lemma {:induction false} TypedDelay(n: nat, current: nat)
    ensures DelayOutcome(Digits(n), current) == if 1 <= n <= 255 then n else current
  {
    DecimalOfDigits(n);
  }
}
