/** Reading a printed value gives the value back, whatever text follows it. */
module JsonRoundTrip {
  import opened Options
  import opened Json

  // ----- numbers -----

  function Digits(n: nat): string {
    if n < 10 then [DigitChar(n)] else Digits(n / 10) + [DigitChar(n % 10)]
  }

  lemma {:induction false} PrintNatIsDigits(n: nat, rest: string)
    ensures PrintNat(n, rest) == Digits(n) + rest
    decreases n
  {
    if n >= 10 {
      var last := [DigitChar(n % 10)];
      PrintNatIsDigits(n / 10, last + rest);
      assert Digits(n / 10) + (last + rest) == Digits(n) + rest;
    }
  }

  /** The decimal form has its value, and a leading zero only for zero. */
  lemma {:induction false} DigitsHaveValue(n: nat)
    ensures Digits(n) != "" && AllDigits(Digits(n)) && NatOf(Digits(n)) == n
    ensures Digits(n)[0] == '0' ==> n == 0 && |Digits(n)| == 1
  {
    if n < 10 {
      assert Digits(n)[..0] == "";
    } else {
      DigitsHaveValue(n / 10);
      var init, last := Digits(n / 10), DigitChar(n % 10);
      assert (init + [last])[..|init|] == init;
    }
  }

  lemma {:induction false} SpanOf(digits: string, rest: string)
    requires AllDigits(digits) && (rest != "" ==> !IsDigit(rest[0]))
    ensures SpanDigits(digits + rest) == (digits, rest)
  {
    if digits == "" {
      assert digits + rest == rest;
    } else {
      SpanOf(digits[1..], rest);
      assert (digits + rest)[0] == digits[0] && [digits[0]] + digits[1..] == digits;
      assert (digits + rest)[1..] == digits[1..] + rest;
    }
  }

  /** Text after which a number is over. */
  predicate Ends(rest: string) {
    rest != "" ==> rest[0] == ',' || rest[0] == ']' || rest[0] == '}'
  }

  lemma PrintedMagnitude(n: nat, rest: string)
    requires rest != "" ==> !IsDigit(rest[0])
    ensures
      var s := PrintNat(n, rest);
      && s != "" && IsDigit(s[0])
      && SpanDigits(s) == (Digits(n), rest)
      && |rest| < |s|
  {
    PrintNatIsDigits(n, rest);
    DigitsHaveValue(n);
    SpanOf(Digits(n), rest);
  }

  lemma ReadPrintedWhole(minus: bool, n: nat, rest: string)
    requires Ends(rest)
    ensures ReadMagnitude(minus, PrintNat(n, rest)) == Some((Whole(if minus then 0 - n else n), rest))
  {
    PrintedMagnitude(n, rest);
    DigitsHaveValue(n);
  }

  lemma ReadFractionTail(minus: bool, n: nat, tail: string, rest: string)
    requires Ends(rest) && tail != "" && AllDigits(tail)
    ensures ReadTail(minus, n, "." + tail + rest) == Some((Fraction(minus, n, tail), rest))
  {
    assert ("." + tail + rest)[1..] == tail + rest;
    SpanOf(tail, rest);
  }

  lemma ReadPrintedFraction(minus: bool, n: nat, tail: string, rest: string)
    requires Ends(rest) && tail != "" && AllDigits(tail)
    ensures ReadMagnitude(minus, PrintNat(n, "." + tail + rest)) == Some((Fraction(minus, n, tail), rest))
  {
    PrintedMagnitude(n, "." + tail + rest);
    DigitsHaveValue(n);
    ReadFractionTail(minus, n, tail, rest);
  }

  lemma ReadPrintedPower(minus: bool, n: nat, tail: string, down: bool, power: string, rest: string)
    requires Ends(rest) && power != "" && AllDigits(power)
    ensures
      var s := PrintPower(down, power, rest);
      && StartsPower(s)
      && ReadPower(minus, n, tail, s[1..]) == Some((Scientific(minus, n, tail, down, power), rest))
  {
    var s := PrintPower(down, power, rest);
    assert s[1..] == (if down then "-" else "+") + power + rest;
    assert s[1..][1..] == power + rest;
    SpanOf(power, rest);
  }

  lemma ReadPrintedScientific(minus: bool, n: nat, tail: string, down: bool, power: string, rest: string)
    requires Ends(rest) && AllDigits(tail) && power != "" && AllDigits(power)
    ensures ReadMagnitude(minus, PrintNat(n, PrintPoint(tail, PrintPower(down, power, rest))))
      == Some((Scientific(minus, n, tail, down, power), rest))
  {
    hide PrintNat, ReadPower, SpanDigits;
    var more := PrintPower(down, power, rest);
    PrintedMagnitude(n, PrintPoint(tail, more));
    DigitsHaveValue(n);
    ReadPrintedPower(minus, n, tail, down, power, rest);
    if tail != "" {
      assert ("." + tail + more)[1..] == tail + more;
      SpanOf(tail, more);
    }
  }

  lemma ReadSigned(minus: bool, n: nat, rest: string)
    requires rest != "" ==> !IsDigit(rest[0])
    ensures
      var s := PrintSigned(minus, n, rest);
      && s != "" && (s[0] == '-' || IsDigit(s[0])) && |rest| < |s|
      && ReadNumber(s) == ReadMagnitude(minus, PrintNat(n, rest))
  {
    PrintedMagnitude(n, rest);
    if minus {
      assert PrintSigned(minus, n, rest)[1..] == PrintNat(n, rest);
    }
  }

  lemma ReadPrintedNumber(n: Number, rest: string)
    requires Printable(Num(n)) && Ends(rest)
    ensures
      var s := PrintNumber(n, rest);
      && s != "" && (s[0] == '-' || IsDigit(s[0])) && |rest| < |s|
      && ReadNumber(s) == Some((n, rest))
  {
    hide ReadMagnitude, PrintNat, PrintSigned, ReadNumber;
    match n
    case Whole(i) =>
      var m: nat := if i < 0 then -i else i;
      ReadSigned(i < 0, m, rest);
      ReadPrintedWhole(i < 0, m, rest);
    case Fraction(minus, whole, tail) =>
      ReadSigned(minus, whole, "." + tail + rest);
      ReadPrintedFraction(minus, whole, tail, rest);
    case Scientific(minus, whole, tail, down, power) =>
      ReadSigned(minus, whole, PrintPoint(tail, PrintPower(down, power, rest)));
      ReadPrintedScientific(minus, whole, tail, down, power, rest);
  }

  // ----- strings -----

  lemma EscapeReadsBack(c: char, rest: string)
    ensures ReadChar(Escape(c) + rest) == Some((c, rest))
    ensures Escape(c) != "" && Escape(c)[0] != '"'
  {
  }

  lemma {:induction false} ReadPrintedChars(s: string, rest: string)
    ensures ReadChars(PrintChars(s, rest)) == Some((s, rest))
  {
    if s != "" {
      ReadPrintedChars(s[1..], rest);
      EscapeReadsBack(s[0], PrintChars(s[1..], rest));
      assert [s[0]] + s[1..] == s;
    }
  }

  // ----- values -----

  lemma PrintedStart(v: Json, rest: string)
    requires Printable(v) && Ends(rest)
    ensures
      var s := PrintValue(v, rest);
      s != "" && !IsSpace(s[0]) && s[0] != ']'
  {
    if v.Num? {
      ReadPrintedNumber(v.n, rest);
    }
  }

  lemma ReadPrintedWord(v: Json, rest: string)
    requires v.Null? || v.Bool?
    ensures ReadValue(PrintValue(v, rest)) == Some((v, rest))
  {
  }

  lemma ReadPrintedNum(n: Number, rest: string)
    requires Printable(Num(n)) && Ends(rest)
    ensures ReadValue(PrintValue(Num(n), rest)) == Some((Num(n), rest))
  {
    ReadPrintedNumber(n, rest);
    hide PrintNumber, ReadNumber, PrintableNumber;
    ReadsAsNumber(PrintNumber(n, rest));
  }

  /** Text that starts a number is read as one. */
  lemma ReadsAsNumber(s: string)
    requires s != "" && (s[0] == '-' || IsDigit(s[0]))
    ensures ReadValue(s) ==
      var n := ReadNumber(s);
      if n.None? || |n.value.1| >= |s| then None else Some((Num(n.value.0), n.value.1))
  {
    hide ReadNumber;
    assert Skip(s) == s;
  }

  lemma ReadPrintedStr(t: string, rest: string)
    ensures ReadValue(PrintValue(Str(t), rest)) == Some((Str(t), rest))
  {
    var s := "\"" + PrintChars(t, rest);
    ReadPrintedChars(t, rest);
    assert Skip(s) == s && s[1..] == PrintChars(t, rest);
  }

  lemma ReadArrayStep(inner: string, items: seq<Json>, rest: string)
    requires inner != "" && !IsSpace(inner[0]) && inner[0] != ']'
    requires ReadItems(inner) == Some((items, rest))
    ensures ReadValue("[" + inner) == Some((Arr(items), rest))
  {
  }

  lemma ReadObjectStep(inner: string, members: seq<Member>, rest: string)
    requires inner != "" && inner[0] == '"'
    requires ReadMembers(inner) == Some((members, rest))
    ensures ReadValue("{" + inner) == Some((Obj(members), rest))
  {
  }

  lemma ReadEmpty(rest: string)
    ensures ReadValue("[]" + rest) == Some((Arr([]), rest))
    ensures ReadValue("{}" + rest) == Some((Obj([]), rest))
  {
  }

  lemma ReadLastItem(s: string, v: Json, rest: string)
    requires ReadValue(s) == Some((v, "]" + rest))
    ensures ReadItems(s) == Some(([v], rest))
  {
  }

  lemma ReadNextItem(s: string, v: Json, s': string, more: seq<Json>, rest: string)
    requires ReadValue(s) == Some((v, "," + s')) && ReadItems(s') == Some((more, rest))
    ensures ReadItems(s) == Some(([v] + more, rest))
  {
  }

  lemma ReadLastMember(s: string, m: Member, rest: string)
    requires ReadMember(s) == Some((m, "}" + rest))
    ensures ReadMembers(s) == Some(([m], rest))
  {
  }

  lemma ReadNextMember(s: string, m: Member, s': string, more: seq<Member>, rest: string)
    requires ReadMember(s) == Some((m, "," + s')) && ReadMembers(s') == Some((more, rest))
    ensures ReadMembers(s) == Some(([m] + more, rest))
  {
  }

  lemma ReadMemberStep(m: Member, value: string, rest: string)
    requires ReadValue(value) == Some((m.value, rest))
    ensures ReadMember("\"" + PrintChars(m.key, ":" + value)) == Some((m, rest))
  {
    var colon := ":" + value;
    var s := "\"" + PrintChars(m.key, colon);
    ReadPrintedChars(m.key, colon);
    assert Skip(s) == s && s[1..] == PrintChars(m.key, colon);
    assert Skip(colon) == colon && colon[1..] == value;
  }

  lemma {:induction false} ReadPrinted(v: Json, rest: string)
    requires Printable(v) && Ends(rest)
    ensures ReadValue(PrintValue(v, rest)) == Some((v, rest))
    decreases v, 1
  {
    match v
    case Null => ReadPrintedWord(v, rest);
    case Bool(b) => ReadPrintedWord(v, rest);
    case Num(n) => ReadPrintedNum(n, rest);
    case Str(t) => ReadPrintedStr(t, rest);
    case Arr(items) =>
      if items == [] {
        ReadEmpty(rest);
      } else {
        ReadPrintedItems(items, rest);
        PrintedStart(items[0], if |items| == 1 then "]" + rest else "," + PrintItems(items[1..], rest));
        ReadArrayStep(PrintItems(items, rest), items, rest);
      }
    case Obj(members) =>
      if members == [] {
        ReadEmpty(rest);
      } else {
        ReadPrintedMembers(members, rest);
        ReadObjectStep(PrintMembers(members, rest), members, rest);
      }
  }

  lemma {:induction false} ReadPrintedItems(items: seq<Json>, rest: string)
    requires items != [] && Ends(rest) && forall i :: 0 <= i < |items| ==> Printable(items[i])
    ensures ReadItems(PrintItems(items, rest)) == Some((items, rest))
    decreases items, 0
  {
    var s := PrintItems(items, rest);
    if |items| == 1 {
      ReadPrinted(items[0], "]" + rest);
      ReadLastItem(s, items[0], rest);
      assert items == [items[0]];
    } else {
      var s' := PrintItems(items[1..], rest);
      ReadPrinted(items[0], "," + s');
      ReadPrintedItems(items[1..], rest);
      ReadNextItem(s, items[0], s', items[1..], rest);
      assert [items[0]] + items[1..] == items;
    }
  }

  lemma {:induction false} ReadPrintedMember(m: Member, rest: string)
    requires Ends(rest) && Printable(m.value)
    ensures ReadMember(PrintMember(m, rest)) == Some((m, rest))
    decreases m, 1
  {
    ReadPrinted(m.value, rest);
    ReadMemberStep(m, PrintValue(m.value, rest), rest);
  }

  lemma {:induction false} ReadPrintedMembers(members: seq<Member>, rest: string)
    requires members != [] && Ends(rest) && forall i :: 0 <= i < |members| ==> Printable(members[i].value)
    ensures ReadMembers(PrintMembers(members, rest)) == Some((members, rest))
    decreases members, 0
  {
    hide ReadMembers, ReadMember, PrintMember, Printable;
    var s := PrintMembers(members, rest);
    if |members| == 1 {
      ReadPrintedMember(members[0], "}" + rest);
      ReadLastMember(s, members[0], rest);
      assert members == [members[0]];
    } else {
      var s' := PrintMembers(members[1..], rest);
      ReadPrintedMember(members[0], "," + s');
      ReadPrintedMembers(members[1..], rest);
      ReadNextMember(s, members[0], s', members[1..], rest);
      assert [members[0]] + members[1..] == members;
    }
  }

  /** The printer is unambiguous: its text reads back to the printed value. */
  lemma DumpsReadsBack(v: Json)
    requires Printable(v)
    ensures Loads(Dumps(v)) == Some(v)
  {
    ReadPrinted(v, "");
  }
}
