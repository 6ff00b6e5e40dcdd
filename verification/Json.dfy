/**
 * JSON values, the compact printer both runtimes use for identities, and a reader of RFC 8259
 * sections 2 to 7. Text is a sequence of characters; printing is written with the text that follows,
 * so that reading back is a statement about suffixes.
 */
module Json {
  import opened Options

  /** A number equal to an integer is Whole or, when it was parsed as a float, WholeFloat. Any other float
      is its shortest digits: a sign, the whole part and the digits after the point. Scientific is a
      token with an exponent: the point is there exactly when digits follow it. */
  datatype Number =
    | Whole(i: int)
    | WholeFloat(i: int)
    | Fraction(minus: bool, whole: nat, tail: string)
    | Scientific(minus: bool, whole: nat, tail: string, down: bool, power: string)

  datatype Json =
    | Null
    | Bool(b: bool)
    | Num(n: Number)
    | Str(s: string)
    | Arr(items: seq<Json>)
    | Obj(members: seq<Member>)

  datatype Member = Member(key: string, value: Json)

  predicate IsDigit(c: char) { '0' <= c <= '9' }

  predicate AllDigits(s: string) {
    forall i :: 0 <= i < |s| ==> IsDigit(s[i])
  }

  predicate PrintableNumber(n: Number) {
    match n
    case Whole(_) => true
    case WholeFloat(_) => false
    case Fraction(_, _, tail) => tail != "" && AllDigits(tail)
    case Scientific(_, _, tail, _, power) => AllDigits(tail) && power != "" && AllDigits(power)
  }

  /** Values as the printer meets them: no float left that equals an integer. */
  predicate Printable(v: Json) {
    match v
    case Num(n) => PrintableNumber(n)
    case Arr(items) => forall i :: 0 <= i < |items| ==> Printable(items[i])
    case Obj(members) => forall i :: 0 <= i < |members| ==> Printable(members[i].value)
    case _ => true
  }

  // ----- numbers -----

  function DigitChar(d: nat): char
    requires d < 10
  {
    '0' + d as char
  }

  function DigitValue(c: char): nat
    requires IsDigit(c)
  {
    (c - '0') as nat
  }

  function PrintNat(n: nat, rest: string): string
    decreases n
  {
    if n < 10 then [DigitChar(n)] + rest else PrintNat(n / 10, [DigitChar(n % 10)] + rest)
  }

  function PrintInt(i: int, rest: string): string {
    PrintSigned(i < 0, if i < 0 then -i else i, rest)
  }

  function PrintSigned(minus: bool, n: nat, rest: string): string {
    if minus then "-" + PrintNat(n, rest) else PrintNat(n, rest)
  }

  function PrintNumber(n: Number, rest: string): string {
    match n
    case Whole(i) => PrintInt(i, rest)
    case WholeFloat(i) => PrintInt(i, ".0" + rest)
    case Fraction(minus, whole, tail) => PrintSigned(minus, whole, "." + tail + rest)
    case Scientific(minus, whole, tail, down, power) =>
      PrintSigned(minus, whole, PrintPoint(tail, PrintPower(down, power, rest)))
  }

  function PrintPoint(tail: string, rest: string): string {
    if tail == "" then rest else "." + tail + rest
  }

  function PrintPower(down: bool, power: string, rest: string): string {
    (if down then "e-" else "e+") + power + rest
  }

  /** The longest run of digits, and what follows it. */
  function SpanDigits(s: string): (r: (string, string))
    ensures s == r.0 + r.1 && AllDigits(r.0) && (r.1 != "" ==> !IsDigit(r.1[0]))
  {
    if s != "" && IsDigit(s[0]) then
      var (digits, rest) := SpanDigits(s[1..]);
      ([s[0]] + digits, rest)
    else ("", s)
  }

  function NatOf(digits: string): nat
    requires AllDigits(digits)
  {
    if digits == "" then 0
    else 10 * NatOf(digits[..|digits| - 1]) + DigitValue(digits[|digits| - 1])
  }

  /** Section 6: an optional minus, an integer without leading zeros, an optional fraction and exponent. */
  function ReadNumber(s: string): Option<(Number, string)> {
    if s != "" && s[0] == '-' then ReadMagnitude(true, s[1..]) else ReadMagnitude(false, s)
  }

  function ReadMagnitude(minus: bool, s: string): Option<(Number, string)> {
    var (digits, rest) := SpanDigits(s);
    if digits == "" || (digits[0] == '0' && |digits| > 1) then None
    else ReadTail(minus, NatOf(digits), rest)
  }

  function ReadTail(minus: bool, whole: nat, s: string): Option<(Number, string)> {
    if s != "" && s[0] == '.' then
      var (tail, rest) := SpanDigits(s[1..]);
      if tail == "" then None
      else if StartsPower(rest) then ReadPower(minus, whole, tail, rest[1..])
      else Some((Fraction(minus, whole, tail), rest))
    else if StartsPower(s) then ReadPower(minus, whole, "", s[1..])
    else Some((Whole(if minus then 0 - whole else whole), s))
  }

  predicate StartsPower(s: string) {
    s != "" && (s[0] == 'e' || s[0] == 'E')
  }

  function ReadPower(minus: bool, whole: nat, tail: string, s: string): Option<(Number, string)> {
    var signed := s != "" && (s[0] == '+' || s[0] == '-');
    var (power, rest) := SpanDigits(if signed then s[1..] else s);
    if power == "" then None
    else Some((Scientific(minus, whole, tail, signed && s[0] == '-', power), rest))
  }

  // ----- strings -----

  function HexChar(d: nat): char
    requires d < 16
  {
    if d < 10 then '0' + d as char else 'a' + (d - 10) as char
  }

  function Escape(c: char): string {
    if c == '"' then "\\\""
    else if c == '\\' then "\\\\"
    else if c == '\U{08}' then "\\b"
    else if c == '\t' then "\\t"
    else if c == '\n' then "\\n"
    else if c == '\U{0C}' then "\\f"
    else if c == '\r' then "\\r"
    else if c < ' ' then "\\u00" + [HexChar(c as nat / 16), HexChar(c as nat % 16)]
    else [c]
  }

  function PrintChars(s: string, rest: string): string {
    if s == "" then "\"" + rest else Escape(s[0]) + PrintChars(s[1..], rest)
  }

  function HexValue(c: char): Option<nat> {
    if '0' <= c <= '9' then Some((c - '0') as nat)
    else if 'a' <= c <= 'f' then Some(10 + (c - 'a') as nat)
    else if 'A' <= c <= 'F' then Some(10 + (c - 'A') as nat)
    else None
  }

  /** A \u escape; surrogates, which pair up to encode other characters, are not read here. */
  function ReadUnicode(s: string): Option<char>
    requires |s| >= 4
  {
    match (HexValue(s[0]), HexValue(s[1]), HexValue(s[2]), HexValue(s[3]))
    case (Some(a), Some(b), Some(c), Some(d)) =>
      var code := 4096 * a + 256 * b + 16 * c + d;
      if code < 0xD800 then Some(code as char)
      else if 0xE000 <= code < 0x10000 then Some(code as char)
      else None
    case _ => None
  }

  /** One possibly escaped character of a string body. */
  function ReadChar(s: string): (r: Option<(char, string)>)
    requires s != ""
    ensures r.Some? ==> |r.value.1| < |s|
  {
    if s[0] != '\\' then
      if s[0] < ' ' then None else Some((s[0], s[1..]))
    else if |s| < 2 then None
    else if s[1] == '"' then Some(('"', s[2..]))
    else if s[1] == '\\' then Some(('\\', s[2..]))
    else if s[1] == '/' then Some(('/', s[2..]))
    else if s[1] == 'b' then Some(('\U{08}', s[2..]))
    else if s[1] == 'f' then Some(('\U{0C}', s[2..]))
    else if s[1] == 'n' then Some(('\n', s[2..]))
    else if s[1] == 'r' then Some(('\r', s[2..]))
    else if s[1] == 't' then Some(('\t', s[2..]))
    else if s[1] == 'u' && |s| >= 6 then
      var c := ReadUnicode(s[2..6]);
      if c.None? then None else Some((c.value, s[6..]))
    else None
  }

  /** The body of a string after its opening quote, through the closing one. */
  function ReadChars(s: string): (r: Option<(string, string)>)
    ensures r.Some? ==> |r.value.1| < |s|
    decreases |s|
  {
    if s == "" then None
    else if s[0] == '"' then Some(("", s[1..]))
    else
      var first := ReadChar(s);
      if first.None? then None
      else
        var more := ReadChars(first.value.1);
        if more.None? then None else Some(([first.value.0] + more.value.0, more.value.1))
  }

  // ----- values -----

  function PrintValue(v: Json, rest: string): string
    decreases v, 1
  {
    match v
    case Null => "null" + rest
    case Bool(b) => (if b then "true" else "false") + rest
    case Num(n) => PrintNumber(n, rest)
    case Str(s) => "\"" + PrintChars(s, rest)
    case Arr(items) => if items == [] then "[]" + rest else "[" + PrintItems(items, rest)
    case Obj(members) => if members == [] then "{}" + rest else "{" + PrintMembers(members, rest)
  }

  /** A non-empty list of elements and the bracket that closes it. */
  function PrintItems(items: seq<Json>, rest: string): string
    requires items != []
    decreases items, 0
  {
    PrintValue(items[0], if |items| == 1 then "]" + rest else "," + PrintItems(items[1..], rest))
  }

  function PrintMembers(members: seq<Member>, rest: string): string
    requires members != []
    decreases members, 0
  {
    PrintMember(members[0], if |members| == 1 then "}" + rest else "," + PrintMembers(members[1..], rest))
  }

  function PrintMember(m: Member, rest: string): string
    decreases m, 1
  {
    "\"" + PrintChars(m.key, ":" + PrintValue(m.value, rest))
  }

  function Dumps(v: Json): string {
    PrintValue(v, "")
  }

  predicate IsSpace(c: char) {
    c == ' ' || c == '\t' || c == '\n' || c == '\r'
  }

  function Skip(s: string): (r: string)
    ensures |r| <= |s|
  {
    if s != "" && IsSpace(s[0]) then Skip(s[1..]) else s
  }

  function ReadWord(word: string, v: Json, s: string): (r: Option<(Json, string)>)
    requires word != ""
    ensures r.Some? ==> |r.value.1| < |s|
  {
    if |word| <= |s| && s[..|word|] == word then Some((v, s[|word|..])) else None
  }

  function ReadValue(text: string): (r: Option<(Json, string)>)
    ensures r.Some? ==> |r.value.1| < |text|
    decreases |text|, 2
  {
    var s := Skip(text);
    if s == "" then None
    else if s[0] == 'n' then ReadWord("null", Null, s)
    else if s[0] == 't' then ReadWord("true", Bool(true), s)
    else if s[0] == 'f' then ReadWord("false", Bool(false), s)
    else if s[0] == '"' then
      var body := ReadChars(s[1..]);
      if body.None? then None else Some((Str(body.value.0), body.value.1))
    else if s[0] == '[' then ReadArray(Skip(s[1..]))
    else if s[0] == '{' then ReadObject(Skip(s[1..]))
    else
      var n := ReadNumber(s);
      if n.None? || |n.value.1| >= |s| then None else Some((Num(n.value.0), n.value.1))
  }

  /** What follows an opening bracket. */
  function ReadArray(s: string): (r: Option<(Json, string)>)
    ensures r.Some? ==> |r.value.1| < |s|
    decreases |s|, 4
  {
    if s != "" && s[0] == ']' then Some((Arr([]), s[1..]))
    else
      var items := ReadItems(s);
      if items.None? then None else Some((Arr(items.value.0), items.value.1))
  }

  /** What follows an opening brace. */
  function ReadObject(s: string): (r: Option<(Json, string)>)
    ensures r.Some? ==> |r.value.1| < |s|
    decreases |s|, 4
  {
    if s != "" && s[0] == '}' then Some((Obj([]), s[1..]))
    else
      var members := ReadMembers(s);
      if members.None? then None else Some((Obj(members.value.0), members.value.1))
  }

  function ReadItems(s: string): (r: Option<(seq<Json>, string)>)
    ensures r.Some? ==> |r.value.1| < |s|
    decreases |s|, 3
  {
    var first := ReadValue(s);
    if first.None? then None
    else
      var after := Skip(first.value.1);
      if after != "" && after[0] == ']' then Some(([first.value.0], after[1..]))
      else if after != "" && after[0] == ',' then
        var more := ReadItems(after[1..]);
        if more.None? then None else Some(([first.value.0] + more.value.0, more.value.1))
      else None
  }

  function ReadMembers(s: string): (r: Option<(seq<Member>, string)>)
    ensures r.Some? ==> |r.value.1| < |s|
    decreases |s|, 3
  {
    var first := ReadMember(s);
    if first.None? then None
    else
      var after := Skip(first.value.1);
      if after != "" && after[0] == '}' then Some(([first.value.0], after[1..]))
      else if after != "" && after[0] == ',' then
        var more := ReadMembers(after[1..]);
        if more.None? then None else Some(([first.value.0] + more.value.0, more.value.1))
      else None
  }

  function ReadMember(text: string): (r: Option<(Member, string)>)
    ensures r.Some? ==> |r.value.1| < |text|
    decreases |text|, 2
  {
    var s := Skip(text);
    if s == "" || s[0] != '"' then None
    else
      var key := ReadChars(s[1..]);
      if key.None? then None
      else
        var colon := Skip(key.value.1);
        if colon == "" || colon[0] != ':' then None
        else
          var value := ReadValue(colon[1..]);
          if value.None? then None else Some((Member(key.value.0, value.value.0), value.value.1))
  }

  /** A whole document: one value and nothing but white space after it. */
  function Loads(text: string): Option<Json> {
    var r := ReadValue(text);
    if r.Some? && Skip(r.value.1) == "" then Some(r.value.0) else None
  }
}
