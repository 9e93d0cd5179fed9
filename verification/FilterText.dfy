/** The filter dialogs: reading a typed filter character by character, and printing
    the filter in force. */
module FilterText {
  import opened Types
  import opened Prefix

  const U64 := 0x1_0000_0000_0000_0000
  const BUFFER := 80

  // ----- characters

  predicate IsEol(c: char) { c == '\n' || c == '\r' }

  predicate IsBlank(c: char) { c == ' ' || c == '\t' }

  predicate IsDigit(c: char) { '0' <= c <= '9' }

  predicate IsPrintable(c: char) { ' ' <= c <= '~' }

  predicate IsAddressChar(c: char)
  {
    IsDigit(c) || 'a' <= c <= 'f' || 'A' <= c <= 'F' || c == ':' || c == '.' || c == '/'
  }

  predicate NoEol(s: string)
  {
    forall i | 0 <= i < |s| :: !IsEol(s[i])
  }

  /** The line being typed, and what follows its end of line. */
  function FirstLine(input: string): (line: string)
  {
    if input == [] || IsEol(input[0]) then [] else [input[0]] + FirstLine(input[1..])
  }

  function AfterLine(input: string): (rest: string)
  {
    if input == [] then [] else if IsEol(input[0]) then input[1..] else AfterLine(input[1..])
  }

  predicate HasEol(input: string)
  {
    exists i :: 0 <= i < |input| && IsEol(input[i])
  }

  lemma {:induction false} LineSplits(input: string)
    requires HasEol(input)
    ensures |FirstLine(input)| < |input| && NoEol(FirstLine(input)) && IsEol(input[|FirstLine(input)|])
    ensures input[..|FirstLine(input)|] == FirstLine(input) && input[|FirstLine(input)| + 1..] == AfterLine(input)
  {
    if !IsEol(input[0]) {
      assert HasEol(input[1..]) by {
        var i :| 0 <= i < |input| && IsEol(input[i]);
        assert IsEol(input[1..][i - 1]);
      }
      LineSplits(input[1..]);
    }
  }

  lemma {:induction false} LineOf(s: string, e: char, rest: string)
    requires NoEol(s) && IsEol(e)
    ensures FirstLine(s + [e] + rest) == s && AfterLine(s + [e] + rest) == rest
  {
    if s != [] {
      assert (s + [e] + rest)[1..] == s[1..] + [e] + rest;
      LineOf(s[1..], e, rest);
    } else {
      assert s + [e] + rest == [e] + rest;
    }
  }

  function SkipBlanks(s: string): (r: string)
    ensures |r| <= |s|
  {
    if s != [] && IsBlank(s[0]) then SkipBlanks(s[1..]) else s
  }

  function RemoveBlanks(s: string): (r: string)
  {
    if s == [] then []
    else RemoveBlanks(s[..|s| - 1]) + if IsBlank(s[|s| - 1]) then [] else [s[|s| - 1]]
  }

  // ----- numbers

  function DigitValue(c: char): (v: nat)
    requires IsDigit(c)
  {
    c as nat - '0' as nat
  }

  predicate AllDigits(s: string)
  {
    forall i | 0 <= i < |s| :: IsDigit(s[i])
  }

  function Decimal(s: string): (v: nat)
    requires AllDigits(s)
  {
    if s == [] then 0 else 10 * Decimal(s[..|s| - 1]) + DigitValue(s[|s| - 1])
  }

  function Digits(n: nat): (s: string)
    ensures s != [] && AllDigits(s)
  {
    var d := ['0' + (n % 10) as char];
    if n < 10 then d else Digits(n / 10) + d
  }

  lemma {:induction false} DecimalOfDigits(n: nat)
    ensures Decimal(Digits(n)) == n
  {
    if n >= 10 {
      DecimalOfDigits(n / 10);
      assert Digits(n)[..|Digits(n)| - 1] == Digits(n / 10);
    }
  }

  lemma {:induction false} DigitsFit(n: nat, k: nat)
    requires n < Pow10(k) && k > 0
    ensures |Digits(n)| <= k
    decreases k
  {
    assert Pow10(1) == 10;
    if n >= 10 {
      DigitsFit(n / 10, k - 1);
    }
  }

  function Pow10(k: nat): (p: nat)
  {
    if k == 0 then 1 else 10 * Pow10(k - 1)
  }

  // ----- what a typed line means

  /** The longest operator at the start of a line, and its length. */
  function OperatorOf(s: string): (r: Option<(CmpOp, nat)>)
    ensures r.Some? ==> 0 < r.value.1 <= |s|
  {
    if s == [] then None
    else if s[0] == '=' then Some((EQ, 1))
    else if s[0] == '!' && |s| > 1 && s[1] == '=' then Some((NE, 2))
    else if s[0] == '!' && |s| > 1 && s[1] == '~' then Some((NC, 2))
    else if s[0] == '>' then (if |s| > 1 && s[1] == '=' then Some((GE, 2)) else Some((GT, 1)))
    else if s[0] == '<' then (if |s| > 1 && s[1] == '=' then Some((LE, 2)) else Some((LT, 1)))
    else if s[0] == '~' then Some((CT, 1))
    else None
  }

  /** The operand without the characters that are skipped: blanks count in strings only. */
  function Content(kind: Kind, s: string): (r: string)
  {
    if kind.TextKind? then s else RemoveBlanks(s)
  }

  predicate Accepts(kind: Kind, c: char)
  {
    match kind
    case TextKind => IsPrintable(c)
    case AddressKind => IsAddressChar(c)
    case _ => IsDigit(c)
  }

  predicate AllAccepted(kind: Kind, s: string)
  {
    forall i | 0 <= i < |s| :: Accepts(kind, s[i])
  }

  predicate Buffered(kind: Kind)
  {
    kind.TextKind? || kind.AddressKind?
  }

  /** The operand has exactly the buffer's size, and its terminator no room. */
  predicate FillsBuffer(kind: Kind, operand: string)
  {
    Buffered(kind) && AllAccepted(kind, Content(kind, operand)) && |Content(kind, operand)| == BUFFER
  }

  predicate OperandOk(kind: Kind, operand: string)
  {
    AllAccepted(kind, Content(kind, operand)) && (Buffered(kind) ==> |Content(kind, operand)| < BUFFER)
  }

  /** What a dialog returns and leaves in the field. */
  datatype Outcome = Outcome(err: bool, filter: Option<Filter>)

  /** The numeric and string dialog on the typed `line`. A blank line keeps the filter
      and fails only when there is none; an operator alone keeps it and succeeds. */
  function CommonOutcome(kind: Kind, line: string, current: Option<Filter>): (o: Outcome)
    requires !kind.AddressKind?
  {
    var rest := SkipBlanks(line);
    if rest == [] then Outcome(current.None?, current)
    else
      match OperatorOf(rest)
      case None => Outcome(true, current)
      case Some((op, n)) =>
        if !OperandOk(kind, rest[n..]) then Outcome(true, current)
        else
          var operand := Content(kind, rest[n..]);
          if operand == [] then Outcome(false, current)
          else if kind.TextKind? then Outcome(false, Some(TextFilter(op, operand)))
          else Outcome(false, Some(NumberFilter(op, Decimal(operand) % U64)))
  }

  // ----- addresses

  /** `inet_pton` and `inet_ntop`, which this model takes as parameters. */
  type Pton = (Family, string) -> Option<Bytes16>
  type Ntop = (Family, Bytes16) -> string

  /** The operators of the address dialog. */
  function AddressOperatorOf(s: string): (r: Option<(CmpOp, nat)>)
    ensures r.Some? ==> 0 < r.value.1 <= |s|
  {
    match OperatorOf(s)
    case Some((EQ, n)) => Some((EQ, n))
    case Some((NE, n)) => Some((NE, n))
    case _ => None
  }

  function LastSlash(s: string): (r: Option<nat>)
    ensures r.Some? ==> r.value < |s| && s[r.value] == '/' && '/' !in s[r.value + 1..]
    ensures r.None? ==> '/' !in s
  {
    if s == [] then None
    else if s[|s| - 1] == '/' then Some(|s| - 1)
    else
      LastSlash(s[..|s| - 1])
  }

  /** `strtol` on what follows the slash; nothing at all reads as 0. */
  function PrefixLength(s: string): (r: Option<nat>)
    ensures r.Some? ==> r.value <= 128
  {
    if AllDigits(s) && Decimal(s) <= 128 then Some(Decimal(s)) else None
  }

  /** The filter an address operand stands for: IPv4 is tried before IPv6. */
  function ParseAddress(op: CmpOp, text: string, pton: Pton): (r: Option<Filter>)
  {
    var slash := LastSlash(text);
    var host := if slash.Some? then text[..slash.value] else text;
    var pfix := if slash.Some? then PrefixLength(text[slash.value + 1..]) else Some(128);
    if pfix.None? then None
    else
      match pton(Inet, host)
      case Some(a) => Some(AddressFilter(op, Inet, a, PrefixMask(pfix.value)))
      case None =>
        match pton(Inet6, host)
        case Some(a) => Some(AddressFilter(op, Inet6, a, PrefixMask(pfix.value)))
        case None => None
  }

  function AddressParser(pton: Pton): (parse: (CmpOp, string) -> Option<Filter>)
  {
    (op, text) => ParseAddress(op, text, pton)
  }

  /** The address dialog on the typed `line`, its operand being read by `parse`. */
  function AddressOutcome(line: string, current: Option<Filter>, parse: (CmpOp, string) -> Option<Filter>): (o: Outcome)
  {
    var rest := SkipBlanks(line);
    if rest == [] then Outcome(current.None?, current)
    else
      match AddressOperatorOf(rest)
      case None => Outcome(true, current)
      case Some((op, n)) => AddressOperandOutcome(op, rest[n..], current, parse)
  }

  function AddressOperandOutcome(op: CmpOp, s: string, current: Option<Filter>, parse: (CmpOp, string) -> Option<Filter>): (o: Outcome)
  {
    if !OperandOk(AddressKind, s) then Outcome(true, current)
    else if RemoveBlanks(s) == [] then Outcome(false, current)
    else
      match parse(op, RemoveBlanks(s))
      case Some(f) => Outcome(false, Some(f))
      case None => Outcome(true, current)
  }

  // ----- printing the filter in force

  function OpText(flt: Filter): (s: string)
  {
    match flt
    case AddressFilter(op, _, _, _) =>
      (match op case EQ => "=" case NE => "!=" case _ => "?")
    case TextFilter(op, _) =>
      (match op case EQ => "=" case CT => "~" case NC => "!~" case _ => "?")
    case NumberFilter(op, _) =>
      (match op case EQ => "=" case NE => "!=" case GT => ">" case GE => ">=" case LT => "<" case LE => "<=" case _ => "?")
    case ChoiceFilter(_) => "?"
  }

  /** The number of ones a mask starts with, counted up to bit `n`. */
  function OnesFrom(mask: Bytes16, i: nat, n: nat): (k: nat)
    requires i <= n <= 128
    ensures i <= k <= n
    decreases n - i
  {
    if i < n && BitAt(mask, i) then OnesFrom(mask, i + 1, n) else i
  }

  function OperandText(flt: Filter, ntop: Ntop): (s: string)
  {
    match flt
    case AddressFilter(_, family, addr, mask) =>
      ntop(family, addr) + "/" + Digits(OnesFrom(mask, 0, 8 * AddressLength(family)))
    case TextFilter(_, s) => s
    case NumberFilter(_, v) => Digits(v)
    case ChoiceFilter(_) => ""
  }

  /** The printed filter: a formatting buffer cuts it after 79 characters. */
  function Printed(flt: Filter, ntop: Ntop): (s: string)
  {
    var full := OpText(flt) + OperandText(flt, ntop);
    if |full| < BUFFER then full else full[..BUFFER - 1]
  }

  // ----- print, then parse

  lemma {:induction false} NothingToRemove(s: string)
    requires forall i | 0 <= i < |s| :: !IsBlank(s[i])
    ensures RemoveBlanks(s) == s
  {
    if s != [] {
      NothingToRemove(s[..|s| - 1]);
      assert s == s[..|s| - 1] + [s[|s| - 1]];
    }
  }

  lemma {:induction false} DigitsHaveNoBlanks(s: string)
    requires AllDigits(s)
    ensures RemoveBlanks(s) == s
  {
    NothingToRemove(s);
  }

  /** The typed form of the printed filter: its characters, then an end of line. */
  lemma {:induction false} TypedBack(s: string)
    requires forall i | 0 <= i < |s| :: IsPrintable(s[i])
    ensures FirstLine(s + ['\n']) == s
  {
    assert s + ['\n'] == s + ['\n'] + [];
    LineOf(s, '\n', []);
  }

  lemma {:induction false} U64FitsTwentyDigits()
    ensures U64 < Pow10(20)
  {
    assert Pow10(5) == 100000;
    assert Pow10(10) == 100000 * Pow10(5);
    assert Pow10(15) == 100000 * Pow10(10);
    assert Pow10(20) == 100000 * Pow10(15);
  }

  /** The printed form of an operator that does not belong to the type is rejected. */
  lemma {:induction false} UnknownOperator(kind: Kind, operand: string, current: Option<Filter>)
    requires !kind.AddressKind?
    ensures CommonOutcome(kind, "?" + operand, current) == Outcome(true, current)
  {
  }

  lemma {:induction false} NumberBack(flt: Filter, current: Option<Filter>)
    requires flt.NumberFilter? && flt.v < U64 && OpText(flt) != "?"
    ensures CommonOutcome(NumberKind, OpText(flt) + Digits(flt.v), current) == Outcome(false, Some(flt))
  {
    var d := Digits(flt.v);
    assert Decimal(d) % U64 == flt.v by {
      DecimalOfDigits(flt.v);
    }
    assert Content(NumberKind, d) == d by {
      DigitsHaveNoBlanks(d);
    }
    OperandBack(NumberKind, flt, d, current);
  }

  /** What a line with a good operand makes. */
  lemma {:induction false} OperandTaken(kind: Kind, line: string, op: CmpOp, n: nat, current: Option<Filter>)
    requires (kind.TextKind? || kind.NumberKind?) && SkipBlanks(line) == line && OperatorOf(line) == Some((op, n)) && n <= |line|
    requires line[n..] != [] && Content(kind, line[n..]) == line[n..] && OperandOk(kind, line[n..])
    ensures CommonOutcome(kind, line, current)
            == Outcome(false, Some(if kind.TextKind? then TextFilter(op, line[n..]) else NumberFilter(op, Decimal(line[n..]) % U64)))
  {
  }

  /** A printed operator and operand are taken apart again. */
  lemma {:induction false} OperandBack(kind: Kind, flt: Filter, operand: string, current: Option<Filter>)
    requires (flt.TextFilter? && kind.TextKind?) || (flt.NumberFilter? && kind.NumberKind?)
    requires OpText(flt) != "?" && operand != [] && (flt.op in {GT, LT} ==> operand[0] != '=')
    requires Content(kind, operand) == operand && OperandOk(kind, operand)
    ensures CommonOutcome(kind, OpText(flt) + operand, current)
            == Outcome(false, Some(if kind.TextKind? then TextFilter(flt.op, operand) else NumberFilter(flt.op, Decimal(operand) % U64)))
  {
    OperatorBack(flt, operand);
  }

  /** For every 64-bit operand, typing the printed filter back rebuilds it exactly when
      the operator is one of the six numeric ones. */
  lemma {:induction false} NumberRoundTrip(op: CmpOp, v: nat, ntop: Ntop, current: Option<Filter>)
    requires v < U64
    ensures CommonOutcome(NumberKind, FirstLine(Printed(NumberFilter(op, v), ntop) + ['\n']), current)
            == Outcome(false, Some(NumberFilter(op, v)))
       <==> op !in {CT, NC}
  {
    var flt := NumberFilter(op, v);
    PrintedWhole(flt, ntop);
    var s := OpText(flt) + Digits(v);
    TypedBack(s);
    if op !in {CT, NC} {
      NumberBack(flt, current);
    } else {
      UnknownOperator(NumberKind, Digits(v), current);
    }
  }

  /** A printed operator in front of an operand that does not start with `=` reads back. */
  lemma {:induction false} OperatorBack(flt: Filter, operand: string)
    requires !flt.ChoiceFilter? && OpText(flt) != "?" && operand != []
    requires flt.op in {GT, LT} ==> operand[0] != '='
    ensures var s := OpText(flt) + operand;
            && SkipBlanks(s) == s
            && OperatorOf(s) == Some((flt.op, |OpText(flt)|))
            && s[|OpText(flt)|..] == operand
  {
    var s := OpText(flt) + operand;
    assert s[0] == OpText(flt)[0] && s[1] == if |OpText(flt)| == 2 then OpText(flt)[1] else operand[0];
    assert s[|OpText(flt)|..] == operand;
  }

  /** The same for strings: also the printed form must fit the buffer. */
  lemma {:induction false} TextRoundTrip(op: CmpOp, t: string, ntop: Ntop, current: Option<Filter>)
    requires t != [] && forall i | 0 <= i < |t| :: IsPrintable(t[i])
    ensures var flt := TextFilter(op, t);
            CommonOutcome(TextKind, FirstLine(Printed(flt, ntop) + ['\n']), current) == Outcome(false, Some(flt))
            <==> op in {EQ, CT, NC} && |OpText(flt)| + |t| < BUFFER
  {
    var flt := TextFilter(op, t);
    var s := Printed(flt, ntop);
    TypedBack(s);
    if op in {EQ, CT, NC} {
      var n := |OpText(flt)|;
      var operand := if n + |t| < BUFFER then t else t[..BUFFER - 1 - n];
      assert s == OpText(flt) + operand;
      OperandBack(TextKind, flt, operand, current);
    } else {
      UnknownOperator(TextKind, s[1..], current);
    }
  }

  /** For instance, the string dialog takes `!=a`, which prints as `?a` and is then refused. */
  lemma {:induction false} TextRoundTripExample(ntop: Ntop, current: Option<Filter>)
    ensures CommonOutcome(TextKind, FirstLine("!=a\n"), current) == Outcome(false, Some(TextFilter(NE, "a")))
    ensures Printed(TextFilter(NE, "a"), ntop) == "?a"
    ensures CommonOutcome(TextKind, FirstLine("?a\n"), current) == Outcome(true, current)
  {
    TypedBack("!=a");
    assert "!=a" + ['\n'] == "!=a\n";
    assert SkipBlanks("!=a") == "!=a" && "!=a"[2..] == "a";
    TypedBack("?a");
    assert "?a" + ['\n'] == "?a\n" && "?a" == "?" + "a";
    UnknownOperator(TextKind, "a", current);
  }

  lemma {:induction false} TildeLine(operand: string)
    ensures var line := "~" + operand;
            SkipBlanks(line) == line && OperatorOf(line) == Some((CT, 1)) && line[1..] == operand
  {
  }

  lemma {:induction false} TildeTaken(v: nat, current: Option<Filter>)
    requires v < U64
    ensures CommonOutcome(NumberKind, "~" + Digits(v), current) == Outcome(false, Some(NumberFilter(CT, v)))
  {
    var d := Digits(v);
    TildeLine(d);
    assert Decimal(d) % U64 == v by {
      DecimalOfDigits(v);
    }
    assert Content(NumberKind, d) == d by {
      DigitsHaveNoBlanks(d);
    }
    OperandTaken(NumberKind, "~" + d, CT, 1, current);
  }

  /** The same for numbers: `~` and a number is taken, prints with a `?` and is then refused. */
  lemma {:induction false} NumberRoundTripExample(v: nat, ntop: Ntop, current: Option<Filter>)
    requires v < U64
    ensures CommonOutcome(NumberKind, "~" + Digits(v), current) == Outcome(false, Some(NumberFilter(CT, v)))
    ensures Printed(NumberFilter(CT, v), ntop) == "?" + Digits(v)
    ensures CommonOutcome(NumberKind, "?" + Digits(v), current) == Outcome(true, current)
  {
    TildeTaken(v, current);
    PrintedWhole(NumberFilter(CT, v), ntop);
    UnknownOperator(NumberKind, Digits(v), current);
  }

  /** No number is too long to be printed whole. */
  lemma {:induction false} PrintedWhole(flt: Filter, ntop: Ntop)
    requires flt.NumberFilter? && flt.v < U64
    ensures Printed(flt, ntop) == OpText(flt) + Digits(flt.v)
  {
    U64FitsTwentyDigits();
    DigitsFit(flt.v, 20);
  }

  /** What is assumed of the address conversions: printed addresses are short, use the
      dialog's alphabet without a slash, and read back as the address printed. */
  ghost predicate IsResolver(ntop: Ntop, pton: Pton)
  {
    && (forall f: Family, a: Bytes16 :: 0 < |ntop(f, a)| <= 45 && AddressText(ntop(f, a)))
    && (forall a: Bytes16 :: pton(Inet, ntop(Inet, a)).Some? && pton(Inet, ntop(Inet, a)).value[..4] == a[..4])
    && (forall a: Bytes16 :: pton(Inet, ntop(Inet6, a)).None? && pton(Inet6, ntop(Inet6, a)) == Some(a))
  }

  predicate AddressText(s: string)
  {
    forall i | 0 <= i < |s| :: IsAddressChar(s[i]) && s[i] != '/'
  }

  lemma {:induction false} OnesOfPrefixMask(mask: Bytes16, k: nat, i: nat, n: nat)
    requires IsPrefixMask(mask, k) && i <= n <= 128 && i <= k
    ensures OnesFrom(mask, i, n) == Min(k, n)
    decreases n - i
  {
    if i < n && BitAt(mask, i) {
      OnesOfPrefixMask(mask, k, i + 1, n);
    }
  }

  lemma {:induction false} LastSlashAt(s: string, k: nat)
    requires k < |s| && s[k] == '/' && forall i | k < i < |s| :: s[i] != '/'
    ensures LastSlash(s) == Some(k)
  {
    if k < |s| - 1 {
      LastSlashAt(s[..|s| - 1], k);
    }
  }

  lemma {:induction false} SlashFound(host: string, digits: string)
    requires AllDigits(digits)
    ensures LastSlash(host + "/" + digits) == Some(|host|)
    ensures (host + "/" + digits)[..|host|] == host && (host + "/" + digits)[|host| + 1..] == digits
  {
    var s := host + "/" + digits;
    assert forall i | |host| < i < |s| :: s[i] == digits[i - |host| - 1];
    LastSlashAt(s, |host|);
  }

  /** Reading back `host/n`. */
  lemma {:induction false} AddressOperandBack(op: CmpOp, host: string, n: nat, pton: Pton)
    requires AddressText(host) && 0 < |host| <= 45 && n <= 128
    ensures var operand := host + "/" + Digits(n);
            && OperandOk(AddressKind, operand) && RemoveBlanks(operand) == operand && |operand| <= 49
            && ParseAddress(op, operand, pton) ==
                 match pton(Inet, host)
                 case Some(a) => Some(AddressFilter(op, Inet, a, PrefixMask(n)))
                 case None =>
                   match pton(Inet6, host)
                   case Some(a) => Some(AddressFilter(op, Inet6, a, PrefixMask(n)))
                   case None => None
  {
    var operand := host + "/" + Digits(n);
    assert Pow10(3) == 1000;
    DigitsFit(n, 3);
    DecimalOfDigits(n);
    NothingToRemove(operand);
    SlashFound(host, Digits(n));
  }

  /** Cutting the prefix to the address length, and the address to its family's bytes,
      does not change what a filter accepts. */
  lemma {:induction false} SameMeaning(f: Filter, g: Filter, k: nat, family: Family, address: Bytes16)
    requires f.AddressFilter? && g.AddressFilter? && f.op == g.op && f.family == g.family
    requires IsPrefixMask(f.mask, k) && IsPrefixMask(g.mask, Min(k, 8 * AddressLength(f.family)))
    requires f.addr[..AddressLength(f.family)] == g.addr[..AddressLength(f.family)]
    ensures AddressMatches(f, family, address) == AddressMatches(g, family, address)
  {
    PrefixFilterMeaning(f, k, family, address);
    PrefixFilterMeaning(g, Min(k, 8 * AddressLength(f.family)), family, address);
  }

  lemma {:induction false} PrintedAddress(flt: Filter, k: nat, ntop: Ntop, pton: Pton)
    requires IsResolver(ntop, pton)
    requires flt.AddressFilter? && flt.op in {EQ, NE} && IsPrefixMask(flt.mask, k)
    ensures var s := OpText(flt) + (ntop(flt.family, flt.addr) + "/" + Digits(Min(k, 8 * AddressLength(flt.family))));
            Printed(flt, ntop) == s && FirstLine(s + ['\n']) == s
  {
    var host, n := ntop(flt.family, flt.addr), Min(k, 8 * AddressLength(flt.family));
    OnesOfPrefixMask(flt.mask, k, 0, 8 * AddressLength(flt.family));
    assert Pow10(3) == 1000;
    DigitsFit(n, 3);
    var s := OpText(flt) + (host + "/" + Digits(n));
    assert forall i | 0 <= i < |s| :: IsPrintable(s[i]);
    TypedBack(s);
  }

  lemma {:induction false} AddressLineBack(flt: Filter, operand: string, current: Option<Filter>, parse: (CmpOp, string) -> Option<Filter>)
    requires flt.AddressFilter? && flt.op in {EQ, NE} && operand != []
    requires OperandOk(AddressKind, operand) && RemoveBlanks(operand) == operand
    requires parse(flt.op, operand).Some?
    ensures AddressOutcome(OpText(flt) + operand, current, parse) == Outcome(false, parse(flt.op, operand))
  {
    var s := OpText(flt) + operand;
    OperatorBack(flt, operand);
    assert AddressOperandOutcome(flt.op, operand, current, parse) == Outcome(false, parse(flt.op, operand));
    assert AddressOperatorOf(s) == Some((flt.op, |OpText(flt)|));
  }

  /** Typing a printed address filter back gives a filter that accepts the same
      connections, although a mask longer than the address is cut to its length. */
  lemma {:induction false} AddressRoundTrip(flt: Filter, k: nat, ntop: Ntop, pton: Pton, current: Option<Filter>, family: Family, address: Bytes16)
    requires IsResolver(ntop, pton)
    requires flt.AddressFilter? && flt.op in {EQ, NE} && IsPrefixMask(flt.mask, k)
    ensures var o := AddressOutcome(FirstLine(Printed(flt, ntop) + ['\n']), current, AddressParser(pton));
            && !o.err && o.filter.Some? && o.filter.value.AddressFilter?
            && AddressMatches(o.filter.value, family, address) == AddressMatches(flt, family, address)
  {
    var host, n := ntop(flt.family, flt.addr), Min(k, 8 * AddressLength(flt.family));
    AddressOperandBack(flt.op, host, n, pton);
    PrintedAddress(flt, k, ntop, pton);
    var g := ReadBack(flt, k, ntop, pton);
    AddressLineBack(flt, host + "/" + Digits(n), current, AddressParser(pton));
    SameMeaning(flt, g, k, family, address);
  }

  /** The filter that the printed one is read back as. */
  lemma {:induction false} ReadBack(flt: Filter, k: nat, ntop: Ntop, pton: Pton) returns (g: Filter)
    requires IsResolver(ntop, pton)
    requires flt.AddressFilter? && flt.op in {EQ, NE} && IsPrefixMask(flt.mask, k)
    ensures var n := Min(k, 8 * AddressLength(flt.family));
            && ParseAddress(flt.op, ntop(flt.family, flt.addr) + "/" + Digits(n), pton) == Some(g)
            && g.AddressFilter? && g.op == flt.op && g.family == flt.family && IsPrefixMask(g.mask, n)
            && g.addr[..AddressLength(flt.family)] == flt.addr[..AddressLength(flt.family)]
  {
    var host, n := ntop(flt.family, flt.addr), Min(k, 8 * AddressLength(flt.family));
    assert AddressText(host) && 0 < |host| <= 45;
    AddressOperandBack(flt.op, host, n, pton);
    var addr := Resolved(flt.family, flt.addr, ntop, pton);
    g := AddressFilter(flt.op, flt.family, addr, PrefixMask(n));
  }

  /** A printed address resolves in its own family, and in no family tried before. */
  lemma {:induction false} Resolved(family: Family, addr: Bytes16, ntop: Ntop, pton: Pton) returns (back: Bytes16)
    requires IsResolver(ntop, pton)
    ensures pton(family, ntop(family, addr)) == Some(back)
    ensures family.Inet6? ==> pton(Inet, ntop(family, addr)).None?
    ensures back[..AddressLength(family)] == addr[..AddressLength(family)]
  {
    back := pton(family, ntop(family, addr)).value;
  }
}
