/**
 * The grammar of RFC 8259, sections 2 to 7, said as which texts spell which values: the reader accepts
 * exactly the texts that spell a value, and gives that value.
 */
module JsonGrammar {
  import opened Options
  import opened Json
  import opened JsonRoundTrip

  // ----- the grammar -----

  /** Section 2: insignificant white space. */
  predicate Spaces(s: string) {
    forall i :: 0 <= i < |s| ==> s[i] in [' ', '\t', '\n', '\r']
  }

  /** Section 7: a character as itself, as one of eight short escapes, or by its code in hexadecimal. */
  predicate SpellsChar(s: string, c: char) {
    || (s == [c] && c >= ' ' && c != '"' && c != '\\')
    || (s, c) in [("\\\"", '"'), ("\\\\", '\\'), ("\\/", '/'), ("\\b", '\U{08}'), ("\\f", '\U{0C}'),
                  ("\\n", '\n'), ("\\r", '\r'), ("\\t", '\t')]
    || (|s| == 6 && s[..2] == "\\u" && c as int == FromHex(s[2..]))
  }

  /** The value of hexadecimal digits, negative when they are not. */
  function FromHex(s: string): int {
    if s == "" then 0
    else
      var high, c := FromHex(s[..|s| - 1]), s[|s| - 1];
      if high < 0 then -1
      else if '0' <= c <= '9' then 16 * high + (c - '0') as int
      else if 'a' <= c <= 'f' then 16 * high + 10 + (c - 'a') as int
      else if 'A' <= c <= 'F' then 16 * high + 10 + (c - 'A') as int
      else -1
  }

  ghost predicate SpellsChars(s: string, t: string)
    decreases |t|
  {
    if t == "" then s == ""
    else exists n :: 0 < n <= |s| && SpellsChar(s[..n], t[0]) && SpellsChars(s[n..], t[1..])
  }

  ghost predicate SpellsQuoted(s: string, t: string) {
    |s| >= 2 && s[0] == '"' && s[|s| - 1] == '"' && SpellsChars(s[1..|s| - 1], t)
  }

  /** Section 6: the parts of a number. */
  datatype Power = Power(letter: char, sign: string, digits: string)

  datatype Token = Token(minus: bool, whole: string, tail: string, power: Option<Power>)

  predicate ValidToken(t: Token) {
    && t.whole != "" && AllDigits(t.whole) && (t.whole[0] == '0' ==> |t.whole| == 1)
    && AllDigits(t.tail)
    && (t.power.Some? ==>
          && t.power.value.letter in ['e', 'E'] && t.power.value.sign in ["", "+", "-"]
          && t.power.value.digits != "" && AllDigits(t.power.value.digits))
  }

  function TokenText(t: Token): string {
    (if t.minus then "-" else "") + t.whole + (if t.tail == "" then "" else "." + t.tail)
    + (if t.power.None? then "" else [t.power.value.letter] + t.power.value.sign + t.power.value.digits)
  }

  function TokenNumber(t: Token): Number
    requires ValidToken(t)
  {
    var whole := NatOf(t.whole);
    if t.power.Some? then Scientific(t.minus, whole, t.tail, t.power.value.sign == "-", t.power.value.digits)
    else if t.tail != "" then Fraction(t.minus, whole, t.tail)
    else Whole(if t.minus then 0 - whole else whole)
  }

  ghost predicate SpellsNumber(s: string, n: Number) {
    exists t :: ValidToken(t) && TokenText(t) == s && TokenNumber(t) == n
  }

  ghost predicate Spells(s: string, v: Json)
    decreases v, 1
  {
    match v
    case Null => s == "null"
    case Bool(b) => s == if b then "true" else "false"
    case Num(n) => SpellsNumber(s, n)
    case Str(t) => SpellsQuoted(s, t)
    case Arr(items) =>
      && |s| >= 2 && s[0] == '[' && s[|s| - 1] == ']'
      && if items == [] then Spaces(s[1..|s| - 1]) else SpellsItems(s[1..|s| - 1], items)
    case Obj(members) =>
      && |s| >= 2 && s[0] == '{' && s[|s| - 1] == '}'
      && if members == [] then Spaces(s[1..|s| - 1]) else SpellsMembers(s[1..|s| - 1], members)
  }

  /** A value with white space around it. */
  ghost predicate Around(s: string, v: Json)
    decreases v, 2
  {
    exists i, j :: 0 <= i <= j <= |s| && Spaces(s[..i]) && Spells(s[i..j], v) && Spaces(s[j..])
  }

  ghost predicate SpellsItems(s: string, items: seq<Json>)
    requires items != []
    decreases items, 0
  {
    if |items| == 1 then Around(s, items[0])
    else exists n :: 0 <= n < |s| && s[n] == ',' && Around(s[..n], items[0]) && SpellsItems(s[n + 1..], items[1..])
  }

  ghost predicate SpellsMember(s: string, m: Member)
    decreases m, 3
  {
    exists n :: 0 <= n < |s| && s[n] == ':' && SpellsKey(s[..n], m.key) && Around(s[n + 1..], m.value)
  }

  ghost predicate SpellsKey(s: string, key: string) {
    exists i, j :: 0 <= i <= j <= |s| && Spaces(s[..i]) && SpellsQuoted(s[i..j], key) && Spaces(s[j..])
  }

  ghost predicate SpellsMembers(s: string, members: seq<Member>)
    requires members != []
    decreases members, 0
  {
    if |members| == 1 then SpellsMember(s, members[0])
    else exists n :: 0 <= n < |s| && s[n] == ',' && SpellsMember(s[..n], members[0]) && SpellsMembers(s[n + 1..], members[1..])
  }

  // ----- white space -----

  lemma {:induction false} SkipsSpaces(ws: string, rest: string)
    requires Spaces(ws) && (rest != "" ==> !IsSpace(rest[0]))
    ensures Skip(ws + rest) == rest
  {
    if ws == "" {
      assert ws + rest == rest;
    } else {
      assert (ws + rest)[1..] == ws[1..] + rest;
      SkipsSpaces(ws[1..], rest);
    }
  }

  lemma {:induction false} SkipSplits(s: string) returns (n: nat)
    ensures n <= |s| && Spaces(s[..n]) && Skip(s) == s[n..] && (n < |s| ==> !IsSpace(s[n]))
  {
    n := 0;
    if s != "" && IsSpace(s[0]) {
      n := SkipSplits(s[1..]);
      assert s[..n + 1] == [s[0]] + s[1..][..n] && s[1..][n..] == s[n + 1..];
      n := n + 1;
    }
  }

  // ----- strings -----

  lemma CharIsRead(e: string, c: char, more: string)
    requires SpellsChar(e, c)
    ensures e != "" && e[0] != '"' && ReadChar(e + more) == Some((c, more))
  {
    if |e| == 6 && e[..2] == "\\u" {
      HexIsRead(e[2..]);
      assert (e + more)[2..6] == e[2..] && (e + more)[6..] == more;
    } else {
      assert (e + more)[|e|..] == more;
    }
  }

  lemma HexStep(s: string)
    requires s != ""
    ensures
      var high, low := FromHex(s[..|s| - 1]), HexValue(s[|s| - 1]);
      FromHex(s) == if high < 0 || low.None? then -1 else 16 * high + low.value
  {
  }

  lemma HexIsRead(s: string)
    requires |s| == 4
    ensures FromHex(s) < 0x10000
    ensures
      if 0 <= FromHex(s) < 0xD800 || 0xE000 <= FromHex(s) then ReadUnicode(s) == Some(FromHex(s) as char)
      else ReadUnicode(s) == None
  {
    hide FromHex, HexValue;
    HexStep(s);
    HexStep(s[..3]);
    HexStep(s[..2]);
    HexStep(s[..1]);
    HexBounds(s);
    assert s[..3][..2] == s[..2] && s[..2][..1] == s[..1] && s[..1][..0] == "";
  }

  lemma HexBounds(s: string)
    ensures FromHex("") == 0
    ensures forall c :: HexValue(c).Some? ==> HexValue(c).value < 16
  {
  }

  lemma ReadCharIsSpelled(s: string) returns (n: nat)
    requires s != "" && s[0] != '"' && ReadChar(s).Some?
    ensures 0 < n <= |s| && SpellsChar(s[..n], ReadChar(s).value.0) && s[n..] == ReadChar(s).value.1
  {
    hide FromHex;
    if s[0] != '\\' {
      n := 1;
      assert s[..1] == [s[0]];
    } else if s[1] == 'u' {
      n := 6;
      HexIsRead(s[2..6]);
      assert s[..6][..2] == "\\u" && s[..6][2..] == s[2..6];
    } else {
      n := 2;
      assert s[..2] == ['\\', s[1]];
    }
  }

  lemma {:induction false} CharsAreRead(e: string, t: string, more: string)
    requires SpellsChars(e, t)
    ensures ReadChars(e + "\"" + more) == Some((t, more))
    decreases |t|
  {
    hide SpellsChar, ReadChar;
    if t == "" {
      assert (e + "\"" + more)[1..] == more;
    } else {
      var n :| 0 < n <= |e| && SpellsChar(e[..n], t[0]) && SpellsChars(e[n..], t[1..]);
      CharIsRead(e[..n], t[0], e[n..] + "\"" + more);
      CharsAreRead(e[n..], t[1..], more);
      assert e[..n] + (e[n..] + "\"" + more) == e + "\"" + more;
      assert [t[0]] + t[1..] == t;
    }
  }

  lemma {:induction false} ReadCharsAreSpelled(s: string) returns (n: nat)
    requires ReadChars(s).Some?
    ensures n < |s| && s[n] == '"' && SpellsChars(s[..n], ReadChars(s).value.0) && s[n + 1..] == ReadChars(s).value.1
    decreases |s|
  {
    hide SpellsChar, ReadChar;
    if s[0] == '"' {
      n := 0;
    } else {
      var k := ReadCharIsSpelled(s);
      var m := ReadCharsAreSpelled(s[k..]);
      n := k + m;
      assert s[..n][..k] == s[..k] && s[..n][k..] == s[k..][..m] && s[k..][m + 1..] == s[n + 1..];
    }
  }

  /** After an opening quote, what is read is what the text up to the closing one spells. */
  lemma QuotedIsRead(q: string, t: string, more: string)
    requires SpellsQuoted(q, t)
    ensures StartsValue(q + more) && (q + more)[0] == '"' && ReadChars((q + more)[1..]) == Some((t, more))
  {
    hide SpellsChars, ReadChars;
    var e := q[1..|q| - 1];
    CharsAreRead(e, t, more);
    assert (q + more)[1..] == e + "\"" + more;
  }

  lemma ReadQuotedIsSpelled(s: string) returns (n: nat)
    requires s != "" && s[0] == '"' && ReadChars(s[1..]).Some?
    ensures n <= |s| && SpellsQuoted(s[..n], ReadChars(s[1..]).value.0) && s[n..] == ReadChars(s[1..]).value.1
  {
    hide SpellsChars, ReadChars;
    var k := ReadCharsAreSpelled(s[1..]);
    n := k + 2;
    assert s[..n][1..n - 1] == s[1..][..k] && s[1..][k + 1..] == s[n..];
  }

  // ----- numbers -----

  /** Text after which a number is over: nothing that would go on with it. */
  predicate NumberOver(rest: string) {
    rest != "" ==> !IsDigit(rest[0]) && rest[0] != '.' && rest[0] != 'e' && rest[0] != 'E'
  }

  lemma PowerIsRead(minus: bool, whole: nat, tail: string, sign: string, power: string, rest: string)
    requires sign in ["", "+", "-"] && power != "" && AllDigits(power) && NumberOver(rest)
    ensures
      ReadPower(minus, whole, tail, sign + (power + rest)) ==
        Some((Scientific(minus, whole, tail, sign == "-", power), rest))
  {
    SpanOf(power, rest);
    hide SpanDigits, AllDigits;
    var s := sign + (power + rest);
    assert IsDigit(power[0]) && (power + rest)[0] == power[0];
    if sign == "" {
      assert s == power + rest;
    } else {
      assert s[0] == sign[0] && s[1..] == power + rest;
    }
  }

  /** The rest of a token from its exponent, and from its point. */
  function PowerText(t: Token, rest: string): string {
    if t.power.None? then rest else [t.power.value.letter] + (t.power.value.sign + (t.power.value.digits + rest))
  }

  function TailText(t: Token, rest: string): string {
    if t.tail == "" then PowerText(t, rest) else "." + (t.tail + PowerText(t, rest))
  }

  lemma TextInParts(t: Token, rest: string)
    ensures TokenText(t) + rest == (if t.minus then "-" else "") + (t.whole + TailText(t, rest))
  {
    var head, tail := if t.minus then "-" else "", if t.tail == "" then "" else "." + t.tail;
    var power := if t.power.None? then "" else [t.power.value.letter] + t.power.value.sign + t.power.value.digits;
    assert power + rest == PowerText(t, rest);
    assert tail + PowerText(t, rest) == TailText(t, rest);
    hide PowerText, TailText;
    Reassociate(head, t.whole, tail, power, rest);
  }

  lemma Reassociate(a: string, b: string, c: string, d: string, e: string)
    ensures a + b + c + d + e == a + (b + (c + (d + e)))
  {
  }

  lemma PowerFollows(t: Token, rest: string)
    requires ValidToken(t) && NumberOver(rest)
    ensures
      var s := PowerText(t, rest);
      && (s != "" ==> !IsDigit(s[0]) && s[0] != '.')
      && (StartsPower(s) <==> t.power.Some?)
      && (t.power.None? ==> s == rest)
      && (t.power.Some? ==> ReadPower(t.minus, NatOf(t.whole), t.tail, s[1..]) == Some((TokenNumber(t), rest)))
  {
    hide ReadPower, NatOf;
    if t.power.Some? {
      var p := t.power.value;
      PowerIsRead(t.minus, NatOf(t.whole), t.tail, p.sign, p.digits, rest);
      assert PowerText(t, rest)[1..] == p.sign + (p.digits + rest);
    }
  }

  lemma TailIsRead(t: Token, rest: string)
    requires ValidToken(t) && NumberOver(rest)
    ensures ReadTail(t.minus, NatOf(t.whole), TailText(t, rest)) == Some((TokenNumber(t), rest))
    ensures TailText(t, rest) != "" ==> !IsDigit(TailText(t, rest)[0])
  {
    var after := PowerText(t, rest);
    PowerFollows(t, rest);
    hide ReadPower, NatOf, StartsPower, PowerText, SpanDigits;
    if t.tail != "" {
      SpanOf(t.tail, after);
      assert TailText(t, rest)[1..] == t.tail + after;
    }
  }

  lemma NumberIsRead(t: Token, rest: string)
    requires ValidToken(t) && NumberOver(rest)
    ensures ReadNumber(TokenText(t) + rest) == Some((TokenNumber(t), rest))
  {
    var after := TailText(t, rest);
    TextInParts(t, rest);
    TailIsRead(t, rest);
    SpanOf(t.whole, after);
    hide ReadTail, NatOf, TailText, SpanDigits, TokenNumber, TokenText;
    var s := (if t.minus then "-" else "") + (t.whole + after);
    assert if t.minus then s[1..] == t.whole + after else s == t.whole + after;
    assert (t.whole + after)[0] == t.whole[0];
  }

  // ----- what is read was spelled -----

  lemma ReadPowerSplits(minus: bool, whole: nat, tail: string, letter: char, s: string) returns (p: Power)
    requires ReadPower(minus, whole, tail, s).Some?
    ensures p.letter == letter && p.sign in ["", "+", "-"] && p.digits != "" && AllDigits(p.digits)
    ensures
      var (n, rest) := ReadPower(minus, whole, tail, s).value;
      n == Scientific(minus, whole, tail, p.sign == "-", p.digits) && s == p.sign + (p.digits + rest)
  {
    if s != "" && (s[0] == '+' || s[0] == '-') {
      var (digits, rest) := SpanDigits(s[1..]);
      p := Power(letter, [s[0]], digits);
      assert s == [s[0]] + s[1..];
    } else {
      var (digits, rest) := SpanDigits(s);
      p := Power(letter, "", digits);
      assert s == "" + s;
    }
  }

  lemma ReadPowerIsSpelled(minus: bool, whole: string, tail: string, letter: char, s: string) returns (t: Token)
    requires whole != "" && AllDigits(whole) && (whole[0] == '0' ==> |whole| == 1) && AllDigits(tail)
    requires letter in ['e', 'E'] && ReadPower(minus, NatOf(whole), tail, s).Some?
    ensures
      var (n, rest) := ReadPower(minus, NatOf(whole), tail, s).value;
      ValidToken(t) && TokenNumber(t) == n && t.minus == minus && t.whole == whole && t.tail == tail
      && PowerText(t, rest) == [letter] + s
  {
    hide NatOf, AllDigits, ReadPower;
    var p := ReadPowerSplits(minus, NatOf(whole), tail, letter, s);
    t := Token(minus, whole, tail, Some(p));
  }

  lemma ReadTailIsSpelled(minus: bool, whole: string, s: string) returns (t: Token)
    requires whole != "" && AllDigits(whole) && (whole[0] == '0' ==> |whole| == 1)
    requires ReadTail(minus, NatOf(whole), s).Some?
    ensures
      var (n, rest) := ReadTail(minus, NatOf(whole), s).value;
      ValidToken(t) && TokenNumber(t) == n && t.minus == minus && t.whole == whole && TailText(t, rest) == s
  {
    hide NatOf, ReadPower;
    if s != "" && s[0] == '.' {
      var (tail, rest) := SpanDigits(s[1..]);
      assert s == "." + (tail + rest);
      if StartsPower(rest) {
        t := ReadPowerIsSpelled(minus, whole, tail, rest[0], rest[1..]);
        assert rest == [rest[0]] + rest[1..];
      } else {
        t := Token(minus, whole, tail, None);
      }
    } else if StartsPower(s) {
      t := ReadPowerIsSpelled(minus, whole, "", s[0], s[1..]);
      assert s == [s[0]] + s[1..];
    } else {
      t := Token(minus, whole, "", None);
    }
  }

  lemma ReadNumberIsSpelled(s: string) returns (t: Token)
    requires ReadNumber(s).Some?
    ensures ValidToken(t) && TokenNumber(t) == ReadNumber(s).value.0 && s == TokenText(t) + ReadNumber(s).value.1
  {
    hide NatOf, ReadTail, TailText, TokenText;
    var minus := s != "" && s[0] == '-';
    var (whole, after) := SpanDigits(if minus then s[1..] else s);
    var digits := whole + after;
    assert s == (if minus then "-" else "") + digits by { if minus { assert s == "-" + s[1..]; } }
    hide SpanDigits, AllDigits, ValidToken, TokenNumber;
    t := ReadTailIsSpelled(minus, whole, after);
    TextInParts(t, ReadNumber(s).value.1);
  }

  // ----- a spelled value is read -----

  /** Text that can follow a value with white space around it. */
  predicate Closes(rest: string) {
    rest != "" ==> rest[0] in [',', ']', '}']
  }

  predicate StartsValue(s: string) {
    s != "" && !IsSpace(s[0]) && s[0] !in [',', ':', ']', '}']
  }

  lemma WordIsRead(s: string, v: Json, rest: string)
    requires (v.Null? || v.Bool?) && Spells(s, v)
    ensures StartsValue(s) && ReadValue(s + rest) == Some((v, rest))
  {
    assert Skip(s + rest) == s + rest;
    assert (s + rest)[..|s|] == s && (s + rest)[|s|..] == rest;
  }

  lemma NumIsRead(s: string, n: Number, rest: string)
    requires SpellsNumber(s, n) && NumberOver(rest)
    ensures StartsValue(s) && ReadValue(s + rest) == Some((Num(n), rest))
  {
    hide ReadValue, ValidToken, TokenText, TokenNumber, StartsValue, NumberOver;
    var t :| ValidToken(t) && TokenText(t) == s && TokenNumber(t) == n;
    TokenIsRead(t, rest);
  }

  lemma TokenIsRead(t: Token, rest: string)
    requires ValidToken(t) && NumberOver(rest)
    ensures StartsValue(TokenText(t)) && ReadValue(TokenText(t) + rest) == Some((Num(TokenNumber(t)), rest))
  {
    NumberIsRead(t, rest);
    TokenStarts(t);
    hide ReadNumber, ReadValue, TokenText, TokenNumber, ValidToken, NumberOver;
    ReadsAsNumber(TokenText(t) + rest);
  }

  lemma TokenStarts(t: Token)
    requires ValidToken(t)
    ensures TokenText(t) != "" && (TokenText(t)[0] == '-' || IsDigit(TokenText(t)[0]))
  {
  }

  lemma StrIsRead(s: string, t: string, rest: string)
    requires SpellsQuoted(s, t)
    ensures StartsValue(s) && ReadValue(s + rest) == Some((Str(t), rest))
  {
    hide ReadChars, SpellsChars;
    QuotedIsRead(s, t, rest);
    assert Skip(s + rest) == s + rest;
  }

  lemma ClosedIsRead(s: string, rest: string, open: char, close: char)
    requires |s| >= 2 && s[0] == open && s[|s| - 1] == close && !IsSpace(open)
    ensures Skip(s + rest) == s + rest && (s + rest)[1..] == s[1..|s| - 1] + ([close] + rest)
  {
    assert s == [open] + s[1..|s| - 1] + [close];
  }

  lemma EmptyIsRead(s: string, v: Json, rest: string)
    requires (v == Arr([]) || v == Obj([])) && Spells(s, v)
    ensures ReadValue(s + rest) == Some((v, rest))
  {
    var close := if v.Arr? then ']' else '}';
    ClosedIsRead(s, rest, if v.Arr? then '[' else '{', close);
    SkipsSpaces(s[1..|s| - 1], [close] + rest);
    assert ([close] + rest)[1..] == rest;
  }

  lemma {:induction false} ValueIsRead(s: string, v: Json, rest: string)
    requires Spells(s, v) && NumberOver(rest)
    ensures StartsValue(s) && ReadValue(s + rest) == Some((v, rest))
    decreases v, 1
  {
    hide SpellsNumber, SpellsQuoted, NumberOver, ReadItems, ReadMembers;
    match v
    case Null => WordIsRead(s, v, rest);
    case Bool(b) => WordIsRead(s, v, rest);
    case Num(n) => NumIsRead(s, n, rest);
    case Str(t) => StrIsRead(s, t, rest);
    case Arr(items) =>
      if items == [] {
        EmptyIsRead(s, v, rest);
      } else {
        ClosedIsRead(s, rest, '[', ']');
        ItemsAreRead(s[1..|s| - 1], items, rest);
      }
    case Obj(members) =>
      if members == [] {
        EmptyIsRead(s, v, rest);
      } else {
        ClosedIsRead(s, rest, '{', '}');
        MembersAreRead(s[1..|s| - 1], members, rest);
      }
  }

  lemma SpacesAreSkipped(ws: string, s: string)
    requires Spaces(ws) && StartsValue(s)
    ensures Skip(ws + s) == s && ReadValue(ws + s) == ReadValue(s) && ReadMember(ws + s) == ReadMember(s)
  {
    SkipsSpaces(ws, s);
    SkipsSpaces("", s);
    assert "" + s == s;
    hide Skip, ReadChars, ReadWord, ReadArray, ReadObject, ReadNumber;
  }

  /** White space before what closes a value does not prolong a number. */
  lemma SpacesEnd(ws: string, rest: string)
    requires Spaces(ws) && Closes(rest)
    ensures NumberOver(ws + rest) && Skip(ws + rest) == rest
  {
    SkipsSpaces(ws, rest);
    if ws != "" { assert (ws + rest)[0] == ws[0]; } else { assert ws + rest == rest; }
  }

  lemma {:induction false} AroundIsRead(s: string, v: Json, rest: string) returns (after: string)
    requires Around(s, v) && Closes(rest)
    ensures ReadValue(s + rest) == Some((v, after)) && Skip(after) == rest
    ensures StartsValue(Skip(s + rest)) && ReadValue(Skip(s + rest)) == ReadValue(s + rest)
    decreases v, 2
  {
    hide Spells, Skip, ReadValue, Spaces, Closes, NumberOver;
    var i, j :| 0 <= i <= j <= |s| && Spaces(s[..i]) && Spells(s[i..j], v) && Spaces(s[j..]);
    after := s[j..] + rest;
    SpacesEnd(s[j..], rest);
    ValueIsRead(s[i..j], v, after);
    assert s + rest == s[..i] + (s[i..j] + after);
    SpacesAreSkipped(s[..i], s[i..j] + after);
  }

  lemma {:induction false} ItemsAreRead(s: string, items: seq<Json>, rest: string)
    requires items != [] && SpellsItems(s, items)
    ensures ReadItems(s + ("]" + rest)) == Some((items, rest))
    ensures StartsValue(Skip(s + ("]" + rest))) && ReadItems(Skip(s + ("]" + rest))) == ReadItems(s + ("]" + rest))
    decreases items, 0
  {
    hide Around, SpellsItems, ReadValue, Skip;
    if |items| == 1 {
      assert Around(s, items[0]) by { OneItem(s, items); }
      var after := AroundIsRead(s, items[0], "]" + rest);
      assert ("]" + rest)[1..] == rest && items == [items[0]];
    } else {
      var n := ManyItems(s, items);
      var tail := s[n + 1..] + ("]" + rest);
      var after := AroundIsRead(s[..n], items[0], "," + tail);
      ItemsAreRead(s[n + 1..], items[1..], rest);
      assert s[..n] + ("," + tail) == s + ("]" + rest);
      assert ("," + tail)[1..] == tail && items == [items[0]] + items[1..];
    }
  }

  lemma OneItem(s: string, items: seq<Json>)
    requires |items| == 1 && SpellsItems(s, items)
    ensures Around(s, items[0])
  {
  }

  lemma ManyItems(s: string, items: seq<Json>) returns (n: nat)
    requires |items| > 1 && SpellsItems(s, items)
    ensures n < |s| && s[n] == ',' && Around(s[..n], items[0]) && SpellsItems(s[n + 1..], items[1..])
  {
    n :| 0 <= n < |s| && s[n] == ',' && Around(s[..n], items[0]) && SpellsItems(s[n + 1..], items[1..]);
  }

  lemma {:induction false} MemberIsRead(s: string, m: Member, rest: string) returns (after: string)
    requires SpellsMember(s, m) && Closes(rest)
    ensures ReadMember(s + rest) == Some((m, after)) && Skip(after) == rest
    ensures StartsValue(Skip(s + rest)) && ReadMember(Skip(s + rest)) == ReadMember(s + rest)
    decreases m, 3
  {
    hide Around, ReadValue, ReadMember, SpellsKey, Skip;
    var n :| 0 <= n < |s| && s[n] == ':' && SpellsKey(s[..n], m.key) && Around(s[n + 1..], m.value);
    after := AroundIsRead(s[n + 1..], m.value, rest);
    KeyIsRead(s[..n], m, s[n + 1..] + rest, after);
    assert s + rest == s[..n] + (":" + (s[n + 1..] + rest));
  }

  lemma KeyIsRead(s: string, m: Member, value: string, after: string)
    requires SpellsKey(s, m.key) && ReadValue(value) == Some((m.value, after))
    ensures
      var text := s + (":" + value);
      && ReadMember(text) == Some((m, after))
      && StartsValue(Skip(text)) && ReadMember(Skip(text)) == ReadMember(text)
  {
    hide ReadValue, ReadChars, SpellsQuoted, Spaces, StartsValue;
    var i, j :| 0 <= i <= j <= |s| && Spaces(s[..i]) && SpellsQuoted(s[i..j], m.key) && Spaces(s[j..]);
    var quoted, gap, colon := s[i..j], s[j..], ":" + value;
    QuotedIsRead(quoted, m.key, gap + colon);
    SkipsSpaces(gap, colon);
    assert s + colon == s[..i] + (quoted + (gap + colon));
    SpacesAreSkipped(s[..i], quoted + (gap + colon));
    assert colon[1..] == value;
    hide Skip;
  }

  lemma {:induction false} MembersAreRead(s: string, members: seq<Member>, rest: string)
    requires members != [] && SpellsMembers(s, members)
    ensures ReadMembers(s + ("}" + rest)) == Some((members, rest))
    ensures StartsValue(Skip(s + ("}" + rest))) && ReadMembers(Skip(s + ("}" + rest))) == ReadMembers(s + ("}" + rest))
    decreases members, 0
  {
    hide SpellsMember, SpellsMembers, ReadMember, Skip;
    if |members| == 1 {
      assert SpellsMember(s, members[0]) by { OneMember(s, members); }
      var after := MemberIsRead(s, members[0], "}" + rest);
      assert ("}" + rest)[1..] == rest && members == [members[0]];
    } else {
      var n := ManyMembers(s, members);
      var tail := s[n + 1..] + ("}" + rest);
      var after := MemberIsRead(s[..n], members[0], "," + tail);
      MembersAreRead(s[n + 1..], members[1..], rest);
      assert s[..n] + ("," + tail) == s + ("}" + rest);
      assert ("," + tail)[1..] == tail && members == [members[0]] + members[1..];
    }
  }

  lemma OneMember(s: string, members: seq<Member>)
    requires |members| == 1 && SpellsMembers(s, members)
    ensures SpellsMember(s, members[0])
  {
  }

  lemma ManyMembers(s: string, members: seq<Member>) returns (n: nat)
    requires |members| > 1 && SpellsMembers(s, members)
    ensures n < |s| && s[n] == ',' && SpellsMember(s[..n], members[0]) && SpellsMembers(s[n + 1..], members[1..])
  {
    n :| 0 <= n < |s| && s[n] == ',' && SpellsMember(s[..n], members[0]) && SpellsMembers(s[n + 1..], members[1..]);
  }

  // ----- a read value was spelled -----

  lemma SkippedReadsAlike(s: string)
    ensures ReadValue(Skip(s)) == ReadValue(s) && ReadMember(Skip(s)) == ReadMember(s)
    ensures ReadItems(Skip(s)) == ReadItems(s) && ReadMembers(Skip(s)) == ReadMembers(s)
  {
    SkippedValue(s);
    hide ReadValue, ReadMember, Skip;
  }

  lemma SkippedValue(s: string)
    ensures ReadValue(Skip(s)) == ReadValue(s) && ReadMember(Skip(s)) == ReadMember(s)
  {
    var n := SkipSplits(s);
    SkipsSpaces("", s[n..]);
    assert "" + s[n..] == s[n..];
    hide Skip, ReadChars, ReadWord, ReadArray, ReadObject, ReadNumber, Spaces, IsSpace;
  }

  /** The value at the start of an unspaced text is spelled by its first n characters. */
  ghost predicate SpelledBy(s: string, n: nat, v: Json, rest: string) {
    n <= |s| && Spells(s[..n], v) && s[n..] == rest
  }

  ghost predicate AroundBy(s: string, n: nat, v: Json, rest: string) {
    n <= |s| && Around(s[..n], v) && s[n..] == rest
  }

  lemma ScalarIsSpelled(s: string) returns (n: nat)
    requires ReadValue(s).Some? && s != "" && !IsSpace(s[0]) && s[0] != '[' && s[0] != '{'
    ensures SpelledBy(s, n, ReadValue(s).value.0, ReadValue(s).value.1)
  {
    hide ReadChars, SpellsQuoted, ReadNumber, TokenText, TokenNumber;
    var (v, rest) := ReadValue(s).value;
    n := |s| - |rest|;
    if s[0] == '"' {
      n := ReadQuotedIsSpelled(s);
    } else if s[0] !in ['n', 't', 'f'] {
      var t := ReadNumberIsSpelled(s);
      n := |TokenText(t)|;
      assert s[..n] == TokenText(t);
    }
  }

  lemma ArrayOpens(s: string) returns (k: nat)
    requires ReadValue(s).Some? && s != "" && s[0] == '['
    ensures k < |s[1..]| && Spaces(s[1..][..k])
    ensures
      if s[1..][k] == ']' then ReadValue(s).value == (Arr([]), s[1..][k + 1..])
      else ReadItems(s[1..]).Some? && ReadValue(s).value == (Arr(ReadItems(s[1..]).value.0), ReadItems(s[1..]).value.1)
  {
    hide ReadItems, ReadChars, ReadWord, ReadNumber, Spaces;
    assert Skip(s) == s;
    k := SkipSplits(s[1..]);
    SkippedReadsAlike(s[1..]);
    NothingIsNotRead();
  }

  lemma ObjectOpens(s: string) returns (k: nat)
    requires ReadValue(s).Some? && s != "" && s[0] == '{'
    ensures k < |s[1..]| && Spaces(s[1..][..k])
    ensures
      if s[1..][k] == '}' then ReadValue(s).value == (Obj([]), s[1..][k + 1..])
      else ReadMembers(s[1..]).Some? && ReadValue(s).value == (Obj(ReadMembers(s[1..]).value.0), ReadMembers(s[1..]).value.1)
  {
    hide ReadMembers, ReadChars, ReadWord, ReadNumber, Spaces;
    assert Skip(s) == s;
    k := SkipSplits(s[1..]);
    SkippedReadsAlike(s[1..]);
    NothingIsNotRead();
  }

  lemma NothingIsNotRead()
    ensures ReadValue("") == None && ReadItems("") == None && ReadMembers("") == None
  {
  }

  lemma InBrackets(s: string, k: nat)
    requires s != "" && k < |s[1..]|
    ensures s[..k + 2][1..k + 1] == s[1..][..k] && s[1..][k + 1..] == s[k + 2..]
    ensures s[..k + 2][0] == s[0] && s[..k + 2][k + 1] == s[1..][k]
  {
  }

  lemma ArrayIsSpelled(s: string, k: nat, items: seq<Json>)
    requires s != "" && s[0] == '[' && k < |s[1..]| && s[1..][k] == ']'
    requires if items == [] then Spaces(s[1..][..k]) else SpellsItems(s[1..][..k], items)
    ensures SpelledBy(s, k + 2, Arr(items), s[1..][k + 1..])
  {
    hide SpellsItems, Spaces;
    InBrackets(s, k);
  }

  lemma ObjectIsSpelled(s: string, k: nat, members: seq<Member>)
    requires s != "" && s[0] == '{' && k < |s[1..]| && s[1..][k] == '}'
    requires if members == [] then Spaces(s[1..][..k]) else SpellsMembers(s[1..][..k], members)
    ensures SpelledBy(s, k + 2, Obj(members), s[1..][k + 1..])
  {
    hide SpellsMembers, Spaces;
    InBrackets(s, k);
  }

  lemma {:induction false} ReadIsSpelled(s: string) returns (n: nat)
    requires ReadValue(s).Some? && s != "" && !IsSpace(s[0])
    ensures SpelledBy(s, n, ReadValue(s).value.0, ReadValue(s).value.1)
    decreases |s|, 1
  {
    hide ReadValue, ReadItems, ReadMembers, Spaces, SpellsItems, SpellsMembers, SpelledBy;
    var v := ReadValue(s).value.0;
    if s[0] == '[' {
      var k := ArrayOpens(s);
      if s[1..][k] != ']' { k := ReadItemsAreSpelled(s[1..]); }
      ArrayIsSpelled(s, k, v.items);
      n := k + 2;
    } else if s[0] == '{' {
      var k := ObjectOpens(s);
      if s[1..][k] != '}' { k := ReadMembersAreSpelled(s[1..]); }
      ObjectIsSpelled(s, k, v.members);
      n := k + 2;
    } else {
      n := ScalarIsSpelled(s);
    }
  }

  /** With the white space before and after it. */
  lemma {:induction false} ReadIsAround(s: string) returns (n: nat)
    requires ReadValue(s).Some?
    ensures AroundBy(s, n, ReadValue(s).value.0, Skip(ReadValue(s).value.1))
    decreases |s|, 2
  {
    hide Spells, ReadValue, Skip, Spaces;
    var (v, rest) := ReadValue(s).value;
    var i := SkipSplits(s);
    SkippedReadsAlike(s);
    NothingIsNotRead();
    var m := ReadIsSpelled(s[i..]);
    var k := SkipSplits(rest);
    n := i + m + k;
    IsAround(s, v, i, m, k);
  }

  lemma IsAround(s: string, v: Json, i: nat, m: nat, k: nat)
    requires i + m + k <= |s|
    requires Spaces(s[..i]) && Spells(s[i..][..m], v) && Spaces(s[i..][m..][..k])
    ensures AroundBy(s, i + m + k, v, s[i..][m..][k..])
  {
    hide Spells, Spaces;
    var t := s[..i + m + k];
    assert t[..i] == s[..i] && t[i..i + m] == s[i..][..m] && t[i + m..] == s[i..][m..][..k];
    assert s[i..][m..][k..] == s[i + m + k..];
  }

  lemma {:induction false} ReadItemsAreSpelled(s: string) returns (n: nat)
    requires ReadItems(s).Some?
    ensures
      var (items, rest) := ReadItems(s).value;
      items != [] && n < |s| && s[n] == ']' && SpellsItems(s[..n], items) && s[n + 1..] == rest
    decreases |s|, 3
  {
    hide Around, ReadValue, Skip;
    var k := ReadIsAround(s);
    if s[k] == ']' {
      n := k;
    } else {
      var m := ReadItemsAreSpelled(s[k + 1..]);
      n := k + 1 + m;
      assert s[..n][..k] == s[..k] && s[..n][k + 1..] == s[k + 1..][..m];
      assert s[k + 1..][m + 1..] == s[n + 1..];
    }
  }

  lemma KeyIsSpelled(s: string) returns (c: nat)
    requires ReadMember(s).Some?
    ensures c < |s| && s[c] == ':' && ReadValue(s[c + 1..]).Some?
    ensures
      var (v, rest) := ReadValue(s[c + 1..]).value;
      var m := ReadMember(s).value.0;
      ReadMember(s).value.1 == rest && m.value == v && SpellsKey(s[..c], m.key)
  {
    hide ReadValue, ReadChars, SpellsQuoted, SpellsKey, Spaces;
    var i := SkipSplits(s);
    var k := ReadQuotedIsSpelled(s[i..]);
    var gap := SkipSplits(s[i..][k..]);
    c := i + k + gap;
    assert s[i..][k..][gap..] == s[c..];
    IsKey(s, ReadMember(s).value.0.key, i, k, gap);
  }

  lemma IsKey(s: string, key: string, i: nat, k: nat, gap: nat)
    requires i + k + gap <= |s|
    requires Spaces(s[..i]) && SpellsQuoted(s[i..][..k], key) && Spaces(s[i..][k..][..gap])
    ensures SpellsKey(s[..i + k + gap], key)
  {
    hide SpellsQuoted, Spaces;
    var t := s[..i + k + gap];
    assert t[..i] == s[..i] && t[i..i + k] == s[i..][..k] && t[i + k..] == s[i..][k..][..gap];
  }

  lemma {:induction false} ReadMemberIsSpelled(s: string) returns (n: nat)
    requires ReadMember(s).Some?
    ensures
      var (m, rest) := ReadMember(s).value;
      n <= |s| && SpellsMember(s[..n], m) && s[n..] == Skip(rest)
    decreases |s|, 2
  {
    hide Around, ReadValue, ReadMember, SpellsKey, Skip;
    var c := KeyIsSpelled(s);
    var k := ReadIsAround(s[c + 1..]);
    n := c + 1 + k;
    assert s[..n][..c] == s[..c] && s[..n][c + 1..] == s[c + 1..][..k];
  }

  lemma {:induction false} ReadMembersAreSpelled(s: string) returns (n: nat)
    requires ReadMembers(s).Some?
    ensures
      var (members, rest) := ReadMembers(s).value;
      members != [] && n < |s| && s[n] == '}' && SpellsMembers(s[..n], members) && s[n + 1..] == rest
    decreases |s|, 3
  {
    hide SpellsMember, ReadMember, Skip;
    var k := ReadMemberIsSpelled(s);
    if s[k] == '}' {
      n := k;
    } else {
      var m := ReadMembersAreSpelled(s[k + 1..]);
      n := k + 1 + m;
      assert s[..n][..k] == s[..k] && s[..n][k + 1..] == s[k + 1..][..m];
      assert s[k + 1..][m + 1..] == s[n + 1..];
    }
  }

  /** The reader accepts exactly the texts that spell a value with white space around it, and no text spells
      two values. */
  lemma LoadsExactly(text: string, v: Json)
    ensures Loads(text) == Some(v) <==> Around(text, v)
  {
    hide Around, ReadValue;
    if Around(text, v) {
      var after := AroundIsRead(text, v, "");
      assert text + "" == text;
    }
    if Loads(text) == Some(v) {
      var n := ReadIsAround(text);
      assert text[..n] == text;
    }
  }

  // ----- the compact text -----

  /** A whole number is its digits, with a minus sign exactly when it is negative. */
  lemma WholesArePrinted(i: int)
    ensures Dumps(Num(Whole(i))) == if i < 0 then "-" + Digits(-i) else Digits(i)
  {
    PrintNatIsDigits(if i < 0 then -i else i, "");
  }

  /** A character is printed by a shortest of its spellings, without capitals among hexadecimal digits. */
  lemma EscapesAreShortest(c: char)
    ensures SpellsChar(Escape(c), c)
    ensures forall e :: SpellsChar(e, c) ==> |Escape(c)| <= |e|
    ensures |Escape(c)| == 6 ==> forall i :: 0 <= i < 6 ==> !('A' <= Escape(c)[i] <= 'F')
  {
    EscapeSpells(c);
    hide FromHex, HexChar;
  }

  lemma EscapeSpells(c: char)
    ensures SpellsChar(Escape(c), c)
    ensures |Escape(c)| == 6 ==> forall i :: 0 <= i < 6 ==> !('A' <= Escape(c)[i] <= 'F')
  {
    hide FromHex;
    var e := Escape(c);
    if |e| == 6 {
      ControlIsSpelled(c);
      assert e[2..] == ['0', '0', HexChar(c as nat / 16), HexChar(c as nat % 16)];
      assert e[..2] == "\\u";
    }
  }

  lemma ControlIsSpelled(c: char)
    requires c < ' '
    ensures FromHex(['0', '0', HexChar(c as nat / 16), HexChar(c as nat % 16)]) == c as int
  {
    var s := ['0', '0', HexChar(c as nat / 16), HexChar(c as nat % 16)];
    hide FromHex;
    HexStep(s);
    HexStep(s[..3]);
    HexStep(s[..2]);
    HexStep(s[..1]);
    HexBounds(s);
    assert s[..3][..2] == s[..2] && s[..2][..1] == s[..1] && s[..1][..0] == "";
  }
}
