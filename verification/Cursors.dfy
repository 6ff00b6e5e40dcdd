/** Opaque page cursors: "namespace:position" in unpadded base64url (section 5 of RFC 4648). */
module Cursors {
  import opened Options
  import opened Json
  import opened JsonRoundTrip

  newtype Byte = b: int | 0 <= b < 256

  const MAX_CURSOR := 200

  // ----- base64 -----

  function Symbol(v: nat): char
    requires v < 64
  {
    if v < 26 then 'A' + v as char
    else if v < 52 then 'a' + (v - 26) as char
    else if v < 62 then '0' + (v - 52) as char
    else if v == 62 then '-' else '_'
  }

  /** The decoder also takes the two characters the URL-safe alphabet replaces. */
  function SymbolValue(c: char): Option<nat> {
    if 'A' <= c <= 'Z' then Some((c - 'A') as nat)
    else if 'a' <= c <= 'z' then Some(26 + (c - 'a') as nat)
    else if '0' <= c <= '9' then Some(52 + (c - '0') as nat)
    else if c == '-' || c == '+' then Some(62)
    else if c == '_' || c == '/' then Some(63)
    else None
  }

  predicate SixBit(v: seq<nat>) {
    forall i :: 0 <= i < |v| ==> v[i] < 64
  }

  /** Bytes as six-bit groups; a final partial group is filled with zero bits. */
  function Groups(b: seq<Byte>): (v: seq<nat>)
    ensures SixBit(v)
    decreases |b|
  {
    if b == [] then []
    else if |b| == 1 then [High(b[0]), Middle(b[0], 0)]
    else if |b| == 2 then [High(b[0]), Middle(b[0], b[1]), Low(b[1], 0)]
    else [High(b[0]), Middle(b[0], b[1]), Low(b[1], b[2]), Last(b[2])] + Groups(b[3..])
  }

  function High(x: Byte): (v: nat) ensures v < 64 { x as nat / 4 }

  function Middle(x: Byte, y: Byte): (v: nat) ensures v < 64 { x as nat % 4 * 16 + y as nat / 16 }

  function Low(y: Byte, z: Byte): (v: nat) ensures v < 64 { y as nat % 16 * 4 + z as nat / 64 }

  function Last(z: Byte): (v: nat) ensures v < 64 { z as nat % 64 }

  function Spell(v: seq<nat>): string
    requires SixBit(v)
  {
    if v == [] then "" else [Symbol(v[0])] + Spell(v[1..])
  }

  function Encode64(b: seq<Byte>): string {
    Spell(Groups(b))
  }

  function First(v: nat, w: nat): Byte
    requires v < 64 && w < 64
  {
    (v * 4 + w / 16) as Byte
  }

  function Second(w: nat, x: nat): Byte
    requires w < 64 && x < 64
  {
    (w % 16 * 16 + x / 4) as Byte
  }

  function Third(x: nat, y: nat): Byte
    requires x < 64 && y < 64
  {
    (x % 4 * 64 + y) as Byte
  }

  function Values(s: string): (r: Option<seq<nat>>)
    ensures r.Some? ==> |r.value| == |s| && SixBit(r.value)
  {
    if s == "" then Some([])
    else
      match (SymbolValue(s[0]), Values(s[1..]))
      case (Some(v), Some(vs)) => Some([v] + vs)
      case _ => None
  }

  /** Six-bit groups to bytes; left-over bits are dropped, and one left-over group is an error. */
  function Regroup(v: seq<nat>): Option<seq<Byte>>
    requires SixBit(v)
    decreases |v|
  {
    if v == [] then Some([])
    else if |v| == 1 then None
    else if |v| == 2 then Some([First(v[0], v[1])])
    else if |v| == 3 then Some([First(v[0], v[1]), Second(v[1], v[2])])
    else
      match Regroup(v[4..])
      case None => None
      case Some(more) => Some([First(v[0], v[1]), Second(v[1], v[2]), Third(v[2], v[3])] + more)
  }

  function Unpadded(s: string): string {
    if s != "" && s[|s| - 1] == '=' then Unpadded(s[..|s| - 1]) else s
  }

  /** Strict decoding of text padded to a multiple of four: exactly the padding the data needs. */
  function Decode64(s: string): Option<seq<Byte>> {
    var data := Unpadded(s);
    if |s| % 4 != 0 || |s| - |data| > 2 then None
    else
      match Values(data)
      case None => None
      case Some(v) => Regroup(v)
  }

  function Padding(n: nat): string {
    match n % 4
    case 1 => "==="
    case 2 => "=="
    case 3 => "="
    case _ => ""
  }

  // ----- text and integers -----

  /** The spellings int() takes beyond an optional minus and digits. */
  const OtherInt: string -> Option<int>

  /** UTF-8 (section 3 of RFC 3629): one to four bytes a character. */
  function CharBytes(c: char): seq<Byte> {
    var n: nat := c as int;
    var m := n / 64;
    var k := m / 64;
    if n < 0x80 then [n as Byte]
    else if n < 0x800 then [(0xC0 + m) as Byte, Tail(n)]
    else if n < 0x10000 then [(0xE0 + k) as Byte, Tail(m), Tail(n)]
    else [(0xF0 + k / 64) as Byte, Tail(k), Tail(m), Tail(n)]
  }

  function Tail(n: nat): Byte {
    (0x80 + n % 64) as Byte
  }

  function Utf8(s: string): seq<Byte> {
    if s == "" then [] else CharBytes(s[0]) + Utf8(s[1..])
  }

  predicate IsTail(x: Byte) {
    0x80 <= x < 0xC0
  }

  /** How many bytes a lead byte announces; None for a byte that cannot lead. */
  function Width(lead: Byte): Option<nat> {
    if lead < 0x80 then Some(1)
    else if lead < 0xC0 then None
    else if lead < 0xE0 then Some(2)
    else if lead < 0xF0 then Some(3)
    else if lead < 0xF8 then Some(4)
    else None
  }

  function CodePoint(b: seq<Byte>): int
    requires 1 <= |b| <= 4
  {
    if |b| == 1 then b[0] as int
    else if |b| == 2 then Extend(b[0] as int - 0xC0, b[1])
    else if |b| == 3 then Extend(Extend(b[0] as int - 0xE0, b[1]), b[2])
    else Extend(Extend(Extend(b[0] as int - 0xF0, b[1]), b[2]), b[3])
  }

  function Extend(high: int, tail: Byte): int {
    high * 64 + tail as int - 0x80
  }

  /** The least code point each width may spell: overlong forms are errors, as surrogates are. */
  predicate Spells(n: int, width: nat) {
    && (if width == 1 then 0 else if width == 2 then 0x80 else if width == 3 then 0x800 else 0x10000) <= n
    && (n < 0xD800 || 0xE000 <= n < 0x110000)
  }

  /** Strict decoding; None where the source raises UnicodeDecodeError. */
  function Text(b: seq<Byte>): Option<string>
    decreases |b|
  {
    if b == [] then Some("")
    else
      match Width(b[0])
      case None => None
      case Some(width) =>
        if |b| < width || exists i :: 1 <= i < width && !IsTail(b[i]) then None
        else
          var n := CodePoint(b[..width]);
          if !Spells(n, width) then None
          else
            match Text(b[width..])
            case None => None
            case Some(more) => Some([n as char] + more)
  }

  function ParseInt(s: string): Option<int> {
    var digits := if s != "" && s[0] == '-' then s[1..] else s;
    if digits == "" || !AllDigits(digits) then OtherInt(s)
    else Some(if digits == s then NatOf(digits) else 0 - NatOf(digits))
  }

  function Decimal(i: int): string {
    if i < 0 then "-" + Digits(-i) else Digits(i)
  }

  /** The text before the first colon and after it. */
  function SplitAtColon(s: string): Option<(string, string)> {
    if s == "" then None
    else if s[0] == ':' then Some(("", s[1..]))
    else
      match SplitAtColon(s[1..])
      case None => None
      case Some(parts) => Some(([s[0]] + parts.0, parts.1))
  }

  // ----- cursors -----

  function EncodeCursor(namespace: string, position: int): string {
    Encode64(Utf8(namespace + ":" + Decimal(position)))
  }

  /** None where the source raises InvalidCursor. */
  function DecodeCursor(namespace: string, cursor: string): Option<int> {
    if cursor == "" || |cursor| > MAX_CURSOR then None
    else
      match Decode64(cursor + Padding(|cursor|))
      case None => None
      case Some(payload) =>
        match Text(payload)
        case None => None
        case Some(text) =>
          match SplitAtColon(text)
          case None => None
          case Some(parts) =>
            if parts.0 != namespace then None else Positive(ParseInt(parts.1))
  }

  function Positive(position: Option<int>): Option<int> {
    if position.Some? && position.value >= 1 then position else None
  }

  // ----- round trips -----

  lemma SymbolReads(v: nat)
    requires v < 64
    ensures SymbolValue(Symbol(v)) == Some(v) && Symbol(v) != '='
  {
  }

  lemma DecimalReads(i: int)
    ensures Decimal(i) != ""
    ensures ParseInt(Decimal(i)) == Some(i)
  {
    var n: nat := if i < 0 then -i else i;
    DigitsHaveValue(n);
    if i < 0 {
      assert ("-" + Digits(n))[1..] == Digits(n);
    } else {
      assert IsDigit(Digits(n)[0]);
    }
  }

  lemma {:induction false} SpellingReads(v: seq<nat>)
    requires SixBit(v)
    ensures Values(Spell(v)) == Some(v)
    ensures |Spell(v)| == |v| && forall i :: 0 <= i < |v| ==> Spell(v)[i] != '='
  {
    if v != [] {
      hide Symbol, SymbolValue;
      SpellingReads(v[1..]);
      SymbolReads(v[0]);
      assert Spell(v)[1..] == Spell(v[1..]);
      assert v == [v[0]] + v[1..];
    }
  }

  lemma ThreeBytes(a: Byte, b: Byte, c: Byte)
    ensures First(High(a), Middle(a, b)) == a
    ensures Second(Middle(a, b), Low(b, c)) == b
    ensures Third(Low(b, c), Last(c)) == c
  {
  }

  /** The groups give the bytes back, for every length modulo three. */
  lemma {:induction false} GroupsRegroup(b: seq<Byte>)
    ensures Regroup(Groups(b)) == Some(b)
    decreases |b|
  {
    if |b| >= 3 {
      hide First, Second, Third, High, Middle, Low, Last, Regroup, Groups;
      var tail := b[3..];
      GroupsRegroup(tail);
      ThreeBytes(b[0], b[1], b[2]);
      GroupsStep(b);
      RegroupStep([High(b[0]), Middle(b[0], b[1]), Low(b[1], b[2]), Last(b[2])], Groups(tail));
      assert b == [b[0], b[1], b[2]] + tail;
    } else {
      ShortGroupsRegroup(b);
    }
  }

  lemma {:induction false} GroupCount(b: seq<Byte>)
    ensures |Groups(b)| % 4 != 1 && (b != [] ==> Groups(b) != [])
    decreases |b|
  {
    hide High, Middle, Low, Last;
    if |b| >= 3 {
      GroupCount(b[3..]);
      GroupsStep(b);
    }
  }

  lemma GroupsStep(b: seq<Byte>)
    requires |b| >= 3
    ensures Groups(b) == [High(b[0]), Middle(b[0], b[1]), Low(b[1], b[2]), Last(b[2])] + Groups(b[3..])
  {
  }

  lemma RegroupStep(v: seq<nat>, more: seq<nat>)
    requires |v| == 4 && SixBit(v) && SixBit(more) && Regroup(more).Some?
    ensures SixBit(v + more)
    ensures Regroup(v + more) == Some([First(v[0], v[1]), Second(v[1], v[2]), Third(v[2], v[3])] + Regroup(more).value)
  {
  }

  lemma ShortGroupsRegroup(b: seq<Byte>)
    requires |b| < 3
    ensures Regroup(Groups(b)) == Some(b)
  {
    hide First, Second, Third, High, Middle, Low, Last, Regroup, Groups;
    if b == [] {
      NoBytes();
    } else if |b| == 1 {
      OneByte(b[0]);
      assert b == [b[0]];
    } else {
      TwoBytes(b[0], b[1]);
      assert b == [b[0], b[1]];
    }
  }

  lemma NoBytes()
    ensures Regroup(Groups([])) == Some([])
  {
  }

  lemma OneByte(x: Byte)
    ensures Regroup(Groups([x])) == Some([x])
  {
  }

  lemma TwoBytes(x: Byte, y: Byte)
    ensures Regroup(Groups([x, y])) == Some([x, y])
  {
    ThreeBytes(x, y, 0);
    hide First, Second, Third, High, Middle, Low, Last;
    assert Groups([x, y]) == [High(x), Middle(x, y), Low(y, 0)];
  }

  lemma {:induction false} UnpaddedStops(s: string, n: nat)
    requires s == "" || s[|s| - 1] != '='
    ensures Unpadded(s + Padding(n)) == s
  {
    var p := Padding(n);
    assert (s + "=")[..|s|] == s && (s + "==")[..|s| + 1] == s + "=" && (s + "===")[..|s| + 2] == s + "==";
    assert Unpadded(s) == s;
    assert Unpadded(s + "=") == s;
    assert Unpadded(s + "==") == Unpadded(s + "=");
    assert Unpadded(s + "===") == Unpadded(s + "==");
    assert s + "" == s;
  }

  lemma Decode64Inverts(b: seq<Byte>)
    ensures Decode64(Encode64(b) + Padding(|Encode64(b)|)) == Some(b)
    ensures b != [] ==> Encode64(b) != ""
  {
    hide Groups, Spell, Regroup, Values, Unpadded;
    var s := Encode64(b);
    GroupsRegroup(b);
    GroupCount(b);
    SpellingReads(Groups(b));
    UnpaddedStops(s, |s|);
  }

  lemma CharReads(c: char)
    ensures
      var b := CharBytes(c);
      && 1 <= |b| <= 4 && Width(b[0]) == Some(|b|)
      && (forall i :: 1 <= i < |b| ==> IsTail(b[i]))
      && CodePoint(b) == c as int && Spells(c as int, |b|)
  {
    hide Extend, Tail;
    var n: nat := c as int;
    TailExtends(n);
    TailExtends(n / 64);
    TailExtends(n / 64 / 64);
  }

  lemma TailExtends(n: nat)
    ensures Extend(n / 64, Tail(n)) == n && IsTail(Tail(n))
  {
  }

  lemma TextStep(b: seq<Byte>, c: char, rest: seq<Byte>)
    requires b == CharBytes(c) + rest && Text(rest).Some?
    ensures Text(b) == Some([c] + Text(rest).value)
  {
    CharReads(c);
    hide CharBytes, CodePoint, Spells, Width, IsTail;
    assert b[..|CharBytes(c)|] == CharBytes(c) && b[|CharBytes(c)|..] == rest;
    assert forall i :: 0 <= i < |CharBytes(c)| ==> b[i] == CharBytes(c)[i];
  }

  /** UTF-8 decodes to the text it was encoded from. */
  lemma {:induction false} TextReadsUtf8(s: string)
    ensures Text(Utf8(s)) == Some(s)
  {
    hide Text, CharBytes;
    if s == "" {
      assert Text([]) == Some("") by { NoText(); }
    } else {
      TextReadsUtf8(s[1..]);
      TextStep(Utf8(s), s[0], Utf8(s[1..]));
      assert s == [s[0]] + s[1..];
    }
  }

  lemma ExtendsBack(high: nat, tail: Byte)
    requires IsTail(tail)
    ensures Extend(high, tail) / 64 == high && Tail(Extend(high, tail)) == tail && Extend(high, tail) >= 0
  {
  }

  /** What a character is read from is its encoding. */
  lemma SpelledBytes(b: seq<Byte>, n: int)
    requires 1 <= |b| <= 4 && Width(b[0]) == Some(|b|) && (forall i :: 1 <= i < |b| ==> IsTail(b[i]))
    requires CodePoint(b) == n && Spells(n, |b|)
    ensures CharBytes(n as char) == b
  {
    hide Extend, Tail;
    if |b| == 2 {
      ExtendsBack(b[0] as int - 0xC0, b[1]);
    } else if |b| == 3 {
      ExtendsBack(b[0] as int - 0xE0, b[1]);
      ExtendsBack(Extend(b[0] as int - 0xE0, b[1]), b[2]);
    } else if |b| == 4 {
      ExtendsBack(b[0] as int - 0xF0, b[1]);
      ExtendsBack(Extend(b[0] as int - 0xF0, b[1]), b[2]);
      ExtendsBack(Extend(Extend(b[0] as int - 0xF0, b[1]), b[2]), b[3]);
    }
  }

  /** And nothing else decodes: bytes that are no text's encoding raise. */
  lemma {:induction false} OnlyUtf8Reads(b: seq<Byte>)
    ensures Text(b).Some? ==> Utf8(Text(b).value) == b
    decreases |b|
  {
    if b != [] && Text(b).Some? {
      var width := FirstCharReads(b);
      var head, rest := b[..width], b[width..];
      hide *;
      assert b == head + rest;
      OnlyUtf8Reads(rest);
      SpelledBytes(head, CodePoint(head));
      Utf8Step(CodePoint(head) as char, Text(rest).value);
    }
  }

  lemma FirstCharReads(b: seq<Byte>) returns (width: nat)
    requires b != [] && Text(b).Some?
    ensures 1 <= width <= 4 && width <= |b| && Text(b[width..]).Some?
    ensures
      var head := b[..width];
      && Width(head[0]) == Some(width) && (forall i :: 1 <= i < width ==> IsTail(head[i]))
      && Spells(CodePoint(head), width) && Text(b) == Some([CodePoint(head) as char] + Text(b[width..]).value)
  {
    hide CodePoint;
    width := Width(b[0]).value;
  }

  lemma Utf8Step(c: char, more: string)
    ensures Utf8([c] + more) == CharBytes(c) + Utf8(more)
  {
    assert ([c] + more)[1..] == more;
  }

  lemma NoText()
    ensures Text([]) == Some("")
  {
  }

  lemma {:induction false} SplitsAtFirstColon(namespace: string, rest: string)
    ensures SplitAtColon(namespace + ":" + rest).Some?
    ensures ':' !in namespace ==> SplitAtColon(namespace + ":" + rest) == Some((namespace, rest))
    ensures ':' in namespace ==> |SplitAtColon(namespace + ":" + rest).value.0| < |namespace|
  {
    var s := namespace + ":" + rest;
    if namespace == "" {
      assert s[1..] == rest;
    } else {
      assert s[0] == namespace[0] && s[1..] == namespace[1..] + ":" + rest;
      SplitsAtFirstColon(namespace[1..], rest);
      assert namespace == [namespace[0]] + namespace[1..];
    }
  }

  lemma DecodeReads(namespace: string, other: string, position: int)
    ensures SplitAtColon(namespace + ":" + Decimal(position)).Some?
    ensures
      var parts := SplitAtColon(namespace + ":" + Decimal(position)).value;
      DecodeCursor(other, EncodeCursor(namespace, position)) ==
        if |EncodeCursor(namespace, position)| > MAX_CURSOR || parts.0 != other then None else Positive(ParseInt(parts.1))
  {
    hide Encode64, Decode64, Text, SplitAtColon, ParseInt, Digits, Decimal, Padding, CharBytes;
    assert Utf8(namespace + ":" + Decimal(position)) != [] by { CharReads((namespace + ":" + Decimal(position))[0]); }
    hide Utf8;
    DecimalReads(position);
    var text := namespace + ":" + Decimal(position);
    Decode64Inverts(Utf8(text));
    TextReadsUtf8(text);
    SplitsAtFirstColon(namespace, Decimal(position));
  }

  /** A cursor gives its position back exactly when its namespace has no colon, the position is a
      possible one and the text is within the limit. */
  lemma CursorRoundTrip(namespace: string, position: int)
    ensures DecodeCursor(namespace, EncodeCursor(namespace, position)) == Some(position) <==>
      ':' !in namespace && position >= 1 && |EncodeCursor(namespace, position)| <= MAX_CURSOR
  {
    hide EncodeCursor, DecodeCursor, SplitAtColon, ParseInt, Decimal;
    DecodeReads(namespace, namespace, position);
    DecimalReads(position);
    SplitsAtFirstColon(namespace, Decimal(position));
  }

  /** A cursor of one endpoint is refused by every other. */
  lemma OtherNamespaceRefuses(namespace: string, other: string, position: int)
    requires ':' !in namespace && other != namespace
    ensures DecodeCursor(other, EncodeCursor(namespace, position)).None?
  {
    hide EncodeCursor, DecodeCursor, SplitAtColon, ParseInt, Decimal;
    DecodeReads(namespace, other, position);
    SplitsAtFirstColon(namespace, Decimal(position));
  }

  /** What decoding takes at all: text within the limit that is base64url of the UTF-8 of this namespace, a
      colon, and something that reads as a possible position, which is then the answer. */
  lemma DecodesExactly(namespace: string, cursor: string, position: int)
    requires ':' !in namespace
    ensures DecodeCursor(namespace, cursor) == Some(position) <==>
      && 0 < |cursor| <= 200 && position >= 1
      && exists rest ::
           Decode64(cursor + Padding(|cursor|)) == Some(Utf8(namespace + ":" + rest)) && ParseInt(rest) == Some(position)
  {
    hide Decode64, Padding, Text, SplitAtColon, ParseInt, Utf8;
    var payload := Decode64(cursor + Padding(|cursor|));
    if DecodeCursor(namespace, cursor) == Some(position) {
      var text := Text(payload.value).value;
      OnlyUtf8Reads(payload.value);
      SplitsBack(text);
      var rest := SplitAtColon(text).value.1;
      assert payload == Some(Utf8(namespace + ":" + rest));
    }
    if rest :| payload == Some(Utf8(namespace + ":" + rest)) && ParseInt(rest) == Some(position) {
      TextReadsUtf8(namespace + ":" + rest);
      SplitsAtFirstColon(namespace, rest);
    }
  }

  lemma {:induction false} SplitsBack(s: string)
    ensures SplitAtColon(s).Some? ==> s == SplitAtColon(s).value.0 + ":" + SplitAtColon(s).value.1
  {
    if s != "" && s[0] != ':' { SplitsBack(s[1..]); }
  }
}
