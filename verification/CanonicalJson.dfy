/**
 * The canonical text both runtimes hash for identities: Python's _canonical_json and Node's
 * canonicalJson. They differ in the order they give an object's keys, and in how they write numbers that
 * are very small or beyond the integers a double holds exactly.
 */
module CanonicalJson {
  import opened Options
  import opened Json
  import opened JsonRoundTrip

  datatype Runtime = Python | Node

  // ----- key order -----

  /** Python orders strings by code point, Node by UTF-16 code unit, where the surrogates that encode
      U+10000 and above come before U+E000 to U+FFFF. */
  function Rank(rt: Runtime, c: char): int {
    if rt.Node? && 0xE000 <= c as int < 0x10000 then c as int + 0x110000 else c as int
  }

  predicate TextBefore(rt: Runtime, a: string, b: string) {
    if b == "" then false
    else if a == "" then true
    else if a[0] == b[0] then TextBefore(rt, a[1..], b[1..])
    else Rank(rt, a[0]) < Rank(rt, b[0])
  }

  /** An array index: ECMAScript objects list such keys first, in ascending numeric order. */
  predicate IsIndex(k: string) {
    k != "" && AllDigits(k) && (k[0] == '0' ==> |k| == 1) && NatOf(k) < 0xFFFF_FFFF
  }

  predicate KeyBefore(rt: Runtime, a: string, b: string) {
    if rt.Node? && IsIndex(a) then !IsIndex(b) || NatOf(a) < NatOf(b)
    else if rt.Node? && IsIndex(b) then false
    else TextBefore(rt, a, b)
  }

  lemma {:induction false} TextBeforeIsTotal(rt: Runtime, a: string, b: string)
    ensures !(TextBefore(rt, a, b) && TextBefore(rt, b, a))
    ensures a != b ==> TextBefore(rt, a, b) || TextBefore(rt, b, a)
    ensures a == b ==> !TextBefore(rt, a, b)
  {
    if a != "" && b != "" && a[0] == b[0] {
      TextBeforeIsTotal(rt, a[1..], b[1..]);
      assert a == [a[0]] + a[1..] && b == [b[0]] + b[1..];
    }
  }

  lemma {:induction false} TextBeforeIsTransitive(rt: Runtime, a: string, b: string, c: string)
    requires TextBefore(rt, a, b) && TextBefore(rt, b, c)
    ensures TextBefore(rt, a, c)
  {
    if a != "" && a[0] == b[0] && b[0] == c[0] {
      TextBeforeIsTransitive(rt, a[1..], b[1..], c[1..]);
    }
  }

  /** A decimal without leading zeros is the printed form of its value. */
  lemma {:induction false} NumeralIsDigits(k: string)
    requires k != "" && AllDigits(k) && (k[0] == '0' ==> |k| == 1)
    ensures Digits(NatOf(k)) == k
    decreases |k|
  {
    var init, last := k[..|k| - 1], k[|k| - 1];
    assert k == init + [last];
    if init == "" {
      assert NatOf(init) == 0;
    } else {
      NumeralIsDigits(init);
      DigitsHaveValue(NatOf(init));
      assert Digits(0) == "0";
    }
  }

  lemma KeyBeforeIsTotal(rt: Runtime, a: string, b: string)
    ensures !(KeyBefore(rt, a, b) && KeyBefore(rt, b, a))
    ensures a != b ==> KeyBefore(rt, a, b) || KeyBefore(rt, b, a)
    ensures a == b ==> !KeyBefore(rt, a, b)
  {
    TextBeforeIsTotal(rt, a, b);
    if IsIndex(a) && IsIndex(b) {
      NumeralIsDigits(a);
      NumeralIsDigits(b);
    }
  }

  lemma KeyBeforeIsTransitive(rt: Runtime, a: string, b: string, c: string)
    requires KeyBefore(rt, a, b) && KeyBefore(rt, b, c)
    ensures KeyBefore(rt, a, c)
  {
    if TextBefore(rt, a, b) && TextBefore(rt, b, c) {
      TextBeforeIsTransitive(rt, a, b, c);
    }
  }

  // ----- numbers -----

  const DOUBLE_INTEGERS := 0x20_0000_0000_0000

  /** Whole numbers up to this size are doubles, each apart from its neighbours. */
  predicate IsSafe(i: int) {
    -DOUBLE_INTEGERS <= i <= DOUBLE_INTEGERS
  }

  /** The nearest multiple of a unit, the even one of two. */
  function HalfEven(n: nat, unit: nat): nat
    requires unit > 0
  {
    var q, r := n / unit, n % unit;
    if 2 * r < unit || (2 * r == unit && q % 2 == 0) then q * unit else (q + 1) * unit
  }

  /** The nearest double, with 53 significant bits. */
  function NearestDouble(n: nat, unit: nat): nat
    requires unit > 0
    decreases n - unit
  {
    if n <= DOUBLE_INTEGERS * unit then HalfEven(n, unit) else NearestDouble(n, 2 * unit)
  }

  function RoundedWhole(i: int): int {
    if i < 0 then -(NearestDouble(-i, 1) as int) else NearestDouble(i, 1)
  }

  /** What JSON.stringify writes for a double beyond the safe integers: its shortest digits, padded with
      zeros below 10^21 and with an exponent from there, and null past the range. Any function here. */
  type WrittenDouble = v: Json | v.Null? || (v.Num? && PrintableNumber(v.n)) witness Null

  const LargeDouble: int -> WrittenDouble

  function LeadingZeros(tail: string): (k: nat)
    ensures k <= |tail| && (k < |tail| ==> tail[k] != '0')
    ensures forall i :: 0 <= i < k ==> tail[i] == '0'
  {
    if tail != "" && tail[0] == '0' then 1 + LeadingZeros(tail[1..]) else 0
  }

  /** The zeros after the point from which a runtime writes an exponent: Python's repr below 0.0001,
      JSON.stringify below 0.000001. */
  function ZerosAllowed(rt: Runtime): nat {
    if rt.Python? then 3 else 5
  }

  /** Python pads an exponent to two digits. */
  function PowerDigits(rt: Runtime, power: nat): string {
    if rt.Python? && power < 10 then "0" + Digits(power) else Digits(power)
  }

  predicate IsSmall(rt: Runtime, whole: nat, tail: string) {
    whole == 0 && ZerosAllowed(rt) < LeadingZeros(tail) < |tail|
  }

  /** A number as a runtime writes it. Python keeps whole numbers exact, floats included; Node has doubles. */
  function Written(rt: Runtime, n: Number): Json {
    match n
    case Whole(i) => WrittenWhole(rt, i)
    case WholeFloat(i) => WrittenWhole(rt, i)
    case Fraction(minus, whole, tail) =>
      if IsSmall(rt, whole, tail) && AllDigits(tail) then
        var k := LeadingZeros(tail);
        Num(Scientific(minus, DigitValue(tail[k]), tail[k + 1..], true, PowerDigits(rt, k + 1)))
      else Num(n)
    case Scientific(_, _, _, _, _) => Num(n)
  }

  function WrittenWhole(rt: Runtime, i: int): Json {
    if rt.Python? || IsSafe(i) then Num(Whole(i))
    else if IsSafe(RoundedWhole(i)) then Num(Whole(RoundedWhole(i)))
    else LargeDouble(RoundedWhole(i))
  }

  /** Written numbers say what they stood for: a small fraction's exponent counts its leading zeros. */
  function ValueOf(n: Number): Number {
    match n
    case WholeFloat(i) => Whole(i)
    case Scientific(minus, whole, tail, true, power) =>
      if 1 <= whole <= 9 && AllDigits(power) && NatOf(power) > 0
      then Fraction(minus, 0, Zeros(NatOf(power) - 1) + [DigitChar(whole)] + tail) else n
    case _ => n
  }

  function Zeros(k: nat): string {
    seq(k, _ => '0')
  }

  lemma PowerIsRead(rt: Runtime, power: nat)
    ensures PowerDigits(rt, power) != "" && AllDigits(PowerDigits(rt, power)) && NatOf(PowerDigits(rt, power)) == power
  {
    DigitsHaveValue(power);
    if rt.Python? && power < 10 {
      var padded := "0" + Digits(power);
      assert padded[..1] == "0" && padded[1] == DigitChar(power);
      assert "0"[..0] == "";
    }
  }

  lemma WrittenIsPrintable(rt: Runtime, n: Number)
    requires WellFormed(Num(n))
    ensures Printable(Written(rt, n))
  {
    if n.Fraction? && IsSmall(rt, n.whole, n.tail) {
      PowerIsRead(rt, LeadingZeros(n.tail) + 1);
    }
  }

  lemma TailSplits(tail: string)
    requires LeadingZeros(tail) < |tail|
    ensures var k := LeadingZeros(tail); tail == Zeros(k) + [tail[k]] + tail[k + 1..]
  {
    var k := LeadingZeros(tail);
    assert tail[..k] == Zeros(k);
    SplitsAt(tail, k);
  }

  lemma SplitsAt(s: string, k: nat)
    requires k < |s|
    ensures s == s[..k] + [s[k]] + s[k + 1..]
  {
  }

  lemma ExpandsAgain(minus: bool, k: nat, d: char, more: string, power: string)
    requires '1' <= d <= '9' && AllDigits(power) && NatOf(power) == k + 1
    ensures ValueOf(Scientific(minus, DigitValue(d), more, true, power)) == Fraction(minus, 0, Zeros(k) + [d] + more)
  {
    hide NatOf, AllDigits, Zeros;
    assert DigitChar(DigitValue(d)) == d;
  }

  /** Writing keeps the value, except that Node's whole numbers must be safe. */
  lemma WrittenKeepsValue(rt: Runtime, n: Number)
    requires WellFormed(Num(n)) && (rt.Node? && !n.Fraction? ==> IsSafe(n.i))
    ensures Written(rt, n).Num? && ValueOf(Written(rt, n).n) == ValueOf(n)
  {
    if n.Fraction? {
      FractionIsItself(n);
      if IsSmall(rt, n.whole, n.tail) { SmallKeepsValue(rt, n); }
    }
  }

  lemma SmallKeepsValue(rt: Runtime, n: Number)
    requires n.Fraction? && IsSmall(rt, n.whole, n.tail) && AllDigits(n.tail)
    ensures Written(rt, n).Num? && ValueOf(Written(rt, n).n) == n
  {
    hide ValueOf, PowerDigits, NatOf, Zeros;
    var k := LeadingZeros(n.tail);
    PowerIsRead(rt, k + 1);
    TailSplits(n.tail);
    ExpandsAgain(n.minus, k, n.tail[k], n.tail[k + 1..], PowerDigits(rt, k + 1));
  }

  lemma FractionIsItself(n: Number)
    requires n.Fraction?
    ensures ValueOf(n) == n
  {
  }

  // ----- canonical form -----

  function Insert(rt: Runtime, m: Member, sorted: seq<Member>): seq<Member> {
    if sorted == [] || KeyBefore(rt, m.key, sorted[0].key) then [m] + sorted
    else [sorted[0]] + Insert(rt, m, sorted[1..])
  }

  function Sort(rt: Runtime, members: seq<Member>): seq<Member> {
    if members == [] then [] else Insert(rt, members[0], Sort(rt, members[1..]))
  }

  function Canonical(rt: Runtime, v: Json): Json
    decreases v
  {
    match v
    case Num(n) => Written(rt, n)
    case Arr(items) => Arr(seq(|items|, i requires 0 <= i < |items| => Canonical(rt, items[i])))
    case Obj(members) => Obj(Sort(rt, CanonicalMembers(rt, members)))
    case _ => v
  }

  function CanonicalMembers(rt: Runtime, members: seq<Member>): seq<Member>
    decreases members
  {
    seq(|members|, i requires 0 <= i < |members| => Member(members[i].key, Canonical(rt, members[i].value)))
  }

  function CanonicalText(rt: Runtime, v: Json): string {
    Dumps(Canonical(rt, v))
  }

  // ----- what the text identifies -----

  predicate DistinctKeys(members: seq<Member>) {
    forall i, j :: 0 <= i < j < |members| ==> members[i].key != members[j].key
  }

  /** Parsed JSON: objects are dictionaries, and every number that is not whole has digits after the point. */
  predicate WellFormed(v: Json) {
    match v
    case Num(Fraction(_, _, tail)) => tail != "" && AllDigits(tail)
    case Num(Scientific(_, _, _, _, _)) => false
    case Arr(items) => forall i :: 0 <= i < |items| ==> WellFormed(items[i])
    case Obj(members) =>
      && DistinctKeys(members)
      && forall i :: 0 <= i < |members| ==> WellFormed(members[i].value)
    case _ => true
  }

  /** JSON as data: numbers by value, arrays in order, objects as dictionaries. */
  datatype Data = Scalar(v: Json) | List(elements: seq<Data>) | Dict(entries: map<string, Data>)

  function Meaning(v: Json): Data
    decreases v
  {
    match v
    case Num(n) => Scalar(Num(ValueOf(n)))
    case Arr(items) => List(seq(|items|, i requires 0 <= i < |items| => Meaning(items[i])))
    case Obj(members) => Dict(Entries(members))
    case _ => Scalar(v)
  }

  function Entries(members: seq<Member>): map<string, Data>
    decreases members
  {
    if members == [] then map[] else Entries(members[1..])[members[0].key := Meaning(members[0].value)]
  }

  lemma {:induction false} EntriesOf(members: seq<Member>)
    requires DistinctKeys(members)
    ensures forall i :: 0 <= i < |members| ==>
      members[i].key in Entries(members) && Entries(members)[members[i].key] == Meaning(members[i].value)
    ensures forall k :: k in Entries(members) ==> exists i :: 0 <= i < |members| && members[i].key == k
  {
    if members != [] {
      var tail := members[1..];
      EntriesOf(tail);
      forall k | k in Entries(members) ensures exists i :: 0 <= i < |members| && members[i].key == k {
        if k != members[0].key {
          var i :| 0 <= i < |tail| && tail[i].key == k;
          assert members[i + 1].key == k;
        }
      }
      forall i | 0 <= i < |members|
        ensures members[i].key in Entries(members) && Entries(members)[members[i].key] == Meaning(members[i].value)
      {
        if i > 0 { assert members[i] == tail[i - 1]; }
      }
    }
  }

  ghost predicate StrictlySorted(rt: Runtime, members: seq<Member>) {
    forall i, j :: 0 <= i < j < |members| ==> KeyBefore(rt, members[i].key, members[j].key)
  }

  lemma {:induction false} InsertSorts(rt: Runtime, m: Member, sorted: seq<Member>)
    requires StrictlySorted(rt, sorted) && forall i :: 0 <= i < |sorted| ==> sorted[i].key != m.key
    ensures StrictlySorted(rt, Insert(rt, m, sorted))
    ensures forall n :: n in Insert(rt, m, sorted) <==> n == m || n in sorted
  {
    if sorted == [] {
    } else if KeyBefore(rt, m.key, sorted[0].key) {
      forall j | 0 <= j < |sorted| ensures KeyBefore(rt, m.key, sorted[j].key) {
        if j > 0 { KeyBeforeIsTransitive(rt, m.key, sorted[0].key, sorted[j].key); }
      }
    } else {
      KeyBeforeIsTotal(rt, m.key, sorted[0].key);
      InsertSorts(rt, m, sorted[1..]);
      var tail := Insert(rt, m, sorted[1..]);
      forall j | 0 <= j < |tail| ensures KeyBefore(rt, sorted[0].key, tail[j].key) {
        assert tail[j] in tail;
        if tail[j] != m {
          var i :| 0 <= i < |sorted[1..]| && sorted[1..][i] == tail[j];
          assert sorted[i + 1] == tail[j];
        }
      }
      assert sorted == [sorted[0]] + sorted[1..];
    }
  }

  lemma {:induction false} SortSorts(rt: Runtime, members: seq<Member>)
    requires DistinctKeys(members)
    ensures StrictlySorted(rt, Sort(rt, members))
    ensures forall n :: n in Sort(rt, members) <==> n in members
  {
    if members != [] {
      SortSorts(rt, members[1..]);
      var tail := Sort(rt, members[1..]);
      forall i | 0 <= i < |tail| ensures tail[i].key != members[0].key {
        assert tail[i] in members[1..];
      }
      InsertSorts(rt, members[0], tail);
      assert members == [members[0]] + members[1..];
    }
  }

  /** Two strictly sorted lists with the same members are the same list. */
  lemma {:induction false} SortedListsAgree(rt: Runtime, a: seq<Member>, b: seq<Member>)
    requires StrictlySorted(rt, a) && StrictlySorted(rt, b)
    requires forall m :: m in a <==> m in b
    ensures a == b
    decreases |a|
  {
    assert b != [] ==> b[0] in b;
    if a != [] {
      assert a[0] in b;
      assert b[0] in a;
      FirstIsLeast(rt, a, b[0]);
      FirstIsLeast(rt, b, a[0]);
      KeyBeforeIsTotal(rt, a[0].key, b[0].key);
      assert a[0] == b[0];
      FirstIsNotLater(rt, a);
      FirstIsNotLater(rt, b);
      SortedListsAgree(rt, a[1..], b[1..]);
      assert a == [a[0]] + a[1..] && b == [b[0]] + b[1..];
    }
  }

  lemma FirstIsLeast(rt: Runtime, a: seq<Member>, m: Member)
    requires StrictlySorted(rt, a) && m in a
    ensures m == a[0] || KeyBefore(rt, a[0].key, m.key)
  {
  }

  lemma FirstIsNotLater(rt: Runtime, a: seq<Member>)
    requires StrictlySorted(rt, a) && a != []
    ensures forall m :: m in a[1..] <==> m in a && m != a[0]
  {
    assert a == [a[0]] + a[1..];
    if a[0] in a[1..] {
      var i :| 0 <= i < |a[1..]| && a[1..][i] == a[0];
      KeyBeforeIsTotal(rt, a[0].key, a[i + 1].key);
    }
  }

  lemma CanonicalMembersSorted(rt: Runtime, members: seq<Member>)
    requires DistinctKeys(members)
    ensures StrictlySorted(rt, Sort(rt, CanonicalMembers(rt, members)))
    ensures forall n :: n in Sort(rt, CanonicalMembers(rt, members)) <==> n in CanonicalMembers(rt, members)
  {
    SortSorts(rt, CanonicalMembers(rt, members));
  }

  // ----- the text determines the data, and the data the text -----

  lemma {:induction false} CanonicalIsPrintable(rt: Runtime, v: Json)
    requires WellFormed(v)
    ensures Printable(Canonical(rt, v))
    decreases v
  {
    match v
    case Num(n) => WrittenIsPrintable(rt, n);
    case Arr(items) =>
      forall i | 0 <= i < |items| ensures Printable(Canonical(rt, items[i])) {
        CanonicalIsPrintable(rt, items[i]);
      }
    case Obj(members) =>
      var sorted := Sort(rt, CanonicalMembers(rt, members));
      CanonicalMembersSorted(rt, members);
      forall i | 0 <= i < |sorted| ensures Printable(sorted[i].value) {
        assert sorted[i] in CanonicalMembers(rt, members);
        var k :| 0 <= k < |members| && CanonicalMembers(rt, members)[k] == sorted[i];
        CanonicalIsPrintable(rt, members[k].value);
      }
    case _ =>
  }

  /** Reading the canonical text gives the canonical value: keys sorted, numbers as the runtime writes them. */
  lemma CanonicalTextReadsBack(rt: Runtime, v: Json)
    requires WellFormed(v)
    ensures Loads(CanonicalText(rt, v)) == Some(Canonical(rt, v))
  {
    CanonicalIsPrintable(rt, v);
    DumpsReadsBack(Canonical(rt, v));
  }

  /** Every whole number in a payload is one a double holds exactly. */
  predicate SafeWholes(v: Json) {
    match v
    case Num(n) => n.Fraction? || n.Scientific? || IsSafe(n.i)
    case Arr(items) => forall i :: 0 <= i < |items| ==> SafeWholes(items[i])
    case Obj(members) => forall i :: 0 <= i < |members| ==> SafeWholes(members[i].value)
    case _ => true
  }

  /** Python's canonical form never changes what a payload says, nor does Node's with safe numbers. */
  lemma {:induction false} MeaningIsKept(rt: Runtime, v: Json)
    requires WellFormed(v) && (rt.Node? ==> SafeWholes(v))
    ensures Meaning(Canonical(rt, v)) == Meaning(v)
    decreases v
  {
    match v
    case Num(n) => WrittenKeepsValue(rt, n);
    case Arr(items) =>
      forall i | 0 <= i < |items| ensures Meaning(Canonical(rt, items[i])) == Meaning(items[i]) {
        MeaningIsKept(rt, items[i]);
      }
      assert Meaning(Canonical(rt, v)).elements == Meaning(v).elements;
    case Obj(members) =>
      forall i | 0 <= i < |members| ensures Meaning(Canonical(rt, members[i].value)) == Meaning(members[i].value) {
        MeaningIsKept(rt, members[i].value);
      }
      EntriesAreKept(rt, members);
    case _ =>
  }

  lemma EntriesAreKept(rt: Runtime, members: seq<Member>)
    requires DistinctKeys(members)
    requires forall i :: 0 <= i < |members| ==> Meaning(Canonical(rt, members[i].value)) == Meaning(members[i].value)
    ensures Entries(Sort(rt, CanonicalMembers(rt, members))) == Entries(members)
  {
    var x := CanonicalMembers(rt, members);
    CanonicalMembersSorted(rt, members);
    SortedKeysAreDistinct(rt, Sort(rt, x));
    EntriesIgnoreOrder(x, Sort(rt, x));
    EntriesPointwise(members, x);
  }

  lemma {:induction false} EntriesPointwise(a: seq<Member>, b: seq<Member>)
    requires |a| == |b|
    requires forall i :: 0 <= i < |a| ==> a[i].key == b[i].key && Meaning(a[i].value) == Meaning(b[i].value)
    ensures Entries(a) == Entries(b)
  {
    if a != [] {
      EntriesPointwise(a[1..], b[1..]);
    }
  }

  lemma EntriesIgnoreOrder(a: seq<Member>, b: seq<Member>)
    requires DistinctKeys(a) && DistinctKeys(b) && forall m :: m in a <==> m in b
    ensures Entries(a) == Entries(b)
  {
    EntriesInclude(a, b);
    EntriesInclude(b, a);
  }

  lemma EntriesInclude(a: seq<Member>, b: seq<Member>)
    requires DistinctKeys(a) && DistinctKeys(b) && forall m :: m in a ==> m in b
    ensures forall k :: k in Entries(a) ==> k in Entries(b) && Entries(b)[k] == Entries(a)[k]
  {
    EntriesOf(a);
    EntriesOf(b);
    forall k | k in Entries(a) ensures k in Entries(b) && Entries(b)[k] == Entries(a)[k] {
      var i :| 0 <= i < |a| && a[i].key == k;
      assert a[i] in b;
      var j :| 0 <= j < |b| && b[j] == a[i];
    }
  }

  lemma SortedKeysAreDistinct(rt: Runtime, sorted: seq<Member>)
    requires StrictlySorted(rt, sorted)
    ensures DistinctKeys(sorted)
  {
    forall i, j | 0 <= i < j < |sorted| ensures sorted[i].key != sorted[j].key {
      KeyBeforeIsTotal(rt, sorted[i].key, sorted[j].key);
    }
  }

  lemma {:induction false} MeaningHasOneForm(rt: Runtime, v: Json, w: Json)
    requires WellFormed(v) && WellFormed(w) && Meaning(v) == Meaning(w)
    ensures Canonical(rt, v) == Canonical(rt, w)
    decreases v
  {
    match (v, w)
    case (Arr(a), Arr(b)) =>
      var x, y := Meaning(v).elements, Meaning(w).elements;
      assert |x| == |a| && |y| == |b|;
      forall i | 0 <= i < |a| ensures Canonical(rt, a[i]) == Canonical(rt, b[i]) {
        assert x[i] == y[i];
        MeaningHasOneForm(rt, a[i], b[i]);
      }
      assert Canonical(rt, v).items == Canonical(rt, w).items;
    case (Obj(a), Obj(b)) =>
      forall i, j | 0 <= i < |a| && 0 <= j < |b| && Meaning(a[i].value) == Meaning(b[j].value)
        ensures Canonical(rt, a[i].value) == Canonical(rt, b[j].value)
      {
        MeaningHasOneForm(rt, a[i].value, b[j].value);
      }
      FormsAreCovered(rt, a, b);
      FormsAreCovered(rt, b, a);
      CanonicalMembersSorted(rt, a);
      CanonicalMembersSorted(rt, b);
      SortedListsAgree(rt, Canonical(rt, v).members, Canonical(rt, w).members);
    case _ =>
  }

  lemma FormsAreCovered(rt: Runtime, a: seq<Member>, b: seq<Member>)
    requires DistinctKeys(a) && DistinctKeys(b) && Entries(a) == Entries(b)
    requires forall i, j :: 0 <= i < |a| && 0 <= j < |b| && Meaning(a[i].value) == Meaning(b[j].value) ==>
      Canonical(rt, a[i].value) == Canonical(rt, b[j].value)
    ensures forall m :: m in CanonicalMembers(rt, a) ==> m in CanonicalMembers(rt, b)
  {
    var x, y := CanonicalMembers(rt, a), CanonicalMembers(rt, b);
    EntriesOf(a);
    EntriesOf(b);
    forall i | 0 <= i < |x| ensures x[i] in y {
      assert a[i].key in Entries(b);
      var j :| 0 <= j < |b| && b[j].key == a[i].key;
      assert y[j] == x[i];
    }
  }

  /** Within one runtime, payloads that say the same thing have one canonical text; and conversely in
      Python, and in Node where the whole numbers are safe. */
  lemma CanonicalTextIdentifiesData(rt: Runtime, v: Json, w: Json)
    requires WellFormed(v) && WellFormed(w)
    ensures Meaning(v) == Meaning(w) ==> CanonicalText(rt, v) == CanonicalText(rt, w)
    ensures (rt.Node? ==> SafeWholes(v) && SafeWholes(w)) && CanonicalText(rt, v) == CanonicalText(rt, w) ==>
      Meaning(v) == Meaning(w)
  {
    CanonicalTextReadsBack(rt, v);
    CanonicalTextReadsBack(rt, w);
    if rt.Node? ==> SafeWholes(v) && SafeWholes(w) {
      MeaningIsKept(rt, v);
      MeaningIsKept(rt, w);
    }
    if Meaning(v) == Meaning(w) {
      MeaningHasOneForm(rt, v, w);
    }
  }

  /** The canonical value is its own canonical form, so a stored text can be checked by re-rendering it. */
  lemma RenderingIsStable(rt: Runtime, v: Json)
    requires WellFormed(v) && (rt.Node? ==> SafeWholes(v))
    ensures CanonicalText(rt, Canonical(rt, v)) == CanonicalText(rt, v)
  {
    CanonicalIsFixed(rt, v);
  }

  lemma {:induction false} SortKeepsSorted(rt: Runtime, members: seq<Member>)
    requires StrictlySorted(rt, members)
    ensures Sort(rt, members) == members
  {
    if members != [] {
      SortKeepsSorted(rt, members[1..]);
      assert members == [members[0]] + members[1..];
    }
  }

  lemma {:induction false} CanonicalIsFixed(rt: Runtime, v: Json)
    requires WellFormed(v) && (rt.Node? ==> SafeWholes(v))
    ensures Canonical(rt, Canonical(rt, v)) == Canonical(rt, v)
    decreases v
  {
    match v
    case Arr(items) =>
      forall i | 0 <= i < |items| ensures Canonical(rt, Canonical(rt, items[i])) == Canonical(rt, items[i]) {
        CanonicalIsFixed(rt, items[i]);
      }
      assert Canonical(rt, Canonical(rt, v)).items == Canonical(rt, v).items;
    case Obj(members) =>
      var sorted := Sort(rt, CanonicalMembers(rt, members));
      CanonicalMembersSorted(rt, members);
      forall i | 0 <= i < |sorted| ensures CanonicalMembers(rt, sorted)[i] == sorted[i] {
        assert sorted[i] in CanonicalMembers(rt, members);
        var k :| 0 <= k < |members| && CanonicalMembers(rt, members)[k] == sorted[i];
        CanonicalIsFixed(rt, members[k].value);
      }
      assert CanonicalMembers(rt, sorted) == sorted;
      SortKeepsSorted(rt, sorted);
    case _ =>
  }

  // ----- the two runtimes against each other -----

  predicate KeysAgree(members: seq<Member>) {
    forall i, j :: 0 <= i < |members| && 0 <= j < |members| ==>
      KeyBefore(Python, members[i].key, members[j].key) == KeyBefore(Node, members[i].key, members[j].key)
  }

  /** Both runtimes put every two keys of every object in the same order. */
  predicate OrderAgrees(v: Json) {
    match v
    case Arr(items) => forall i :: 0 <= i < |items| ==> OrderAgrees(items[i])
    case Obj(members) =>
      && KeysAgree(members)
      && forall i :: 0 <= i < |members| ==> OrderAgrees(members[i].value)
    case _ => true
  }

  /** Both runtimes write every number alike. */
  predicate NumbersAgree(v: Json) {
    match v
    case Num(n) => Written(Python, n) == Written(Node, n)
    case Arr(items) => forall i :: 0 <= i < |items| ==> NumbersAgree(items[i])
    case Obj(members) => forall i :: 0 <= i < |members| ==> NumbersAgree(members[i].value)
    case _ => true
  }

  /** When they do: a safe whole number always; a fraction unless four to eight zeros follow the point of a
      number below one; any other whole number exactly when Node's digits for its double are its own. */
  lemma WhenNumbersAgree(n: Number)
    requires WellFormed(Num(n))
    ensures n.Fraction? ==>
      (NumbersAgree(Num(n)) <==> !(n.whole == 0 && 4 <= LeadingZeros(n.tail) <= 8 && LeadingZeros(n.tail) < |n.tail|))
    ensures !n.Fraction? ==>
      (NumbersAgree(Num(n)) <==>
        || IsSafe(n.i)
        || (var r := RoundedWhole(n.i); !IsSafe(r) && LargeDouble(r) == Num(Whole(n.i))))
  {
    if n.Fraction? && n.whole == 0 && 3 < LeadingZeros(n.tail) < |n.tail| {
      var power := LeadingZeros(n.tail) + 1;
      DigitsHaveValue(power);
      if power < 10 { assert |PowerDigits(Python, power)| == 2 && |PowerDigits(Node, power)| == 1; }
    }
  }

  /** 9007199254740993 is such a number: Node rounds it to its even neighbour. */
  lemma LargeWholesDisagree()
    ensures RoundedWhole(9007199254740993) == 9007199254740992
    ensures CanonicalText(Python, Num(Whole(9007199254740993))) != CanonicalText(Node, Num(Whole(9007199254740993)))
    ensures CanonicalText(Node, Num(Whole(9007199254740993))) == CanonicalText(Node, Num(Whole(9007199254740992)))
  {
    assert NearestDouble(9007199254740993, 1) == NearestDouble(9007199254740993, 2);
    RuntimesAgree(Num(Whole(9007199254740993)));
  }

  /** Python's text and Node's are the same exactly for the payloads whose keys both order alike and whose
      numbers both write alike. */
  lemma RuntimesAgree(v: Json)
    requires WellFormed(v)
    ensures CanonicalText(Python, v) == CanonicalText(Node, v) <==> OrderAgrees(v) && NumbersAgree(v)
  {
    CanonicalTextReadsBack(Python, v);
    CanonicalTextReadsBack(Node, v);
    FormsAgree(v);
  }

  lemma {:induction false} FormsAgree(v: Json)
    requires WellFormed(v)
    ensures Canonical(Python, v) == Canonical(Node, v) <==> OrderAgrees(v) && NumbersAgree(v)
    decreases v
  {
    match v
    case Arr(items) =>
      var x, y := Canonical(Python, v).items, Canonical(Node, v).items;
      forall i | 0 <= i < |items| ensures x[i] == y[i] <==> OrderAgrees(items[i]) && NumbersAgree(items[i]) {
        FormsAgree(items[i]);
      }
      if x == y {
        assert forall i :: 0 <= i < |items| ==> x[i] == y[i];
      }
    case Obj(members) =>
      forall i | 0 <= i < |members|
        ensures CanonicalMembers(Python, members)[i] == CanonicalMembers(Node, members)[i] <==>
          OrderAgrees(members[i].value) && NumbersAgree(members[i].value)
      {
        FormsAgree(members[i].value);
      }
      ObjectFormsAgree(members);
    case _ =>
  }

  lemma ObjectFormsAgree(members: seq<Member>)
    requires DistinctKeys(members)
    requires forall i :: 0 <= i < |members| ==>
      (CanonicalMembers(Python, members)[i] == CanonicalMembers(Node, members)[i] <==>
        OrderAgrees(members[i].value) && NumbersAgree(members[i].value))
    ensures Canonical(Python, Obj(members)) == Canonical(Node, Obj(members)) <==>
      OrderAgrees(Obj(members)) && NumbersAgree(Obj(members))
  {
    var x, y := CanonicalMembers(Python, members), CanonicalMembers(Node, members);
    if Sort(Python, x) == Sort(Node, y) {
      OneSortedListAgrees(members, x, y);
      assert forall i :: 0 <= i < |members| ==> x[i] == y[i];
    }
    if OrderAgrees(Obj(members)) && NumbersAgree(Obj(members)) {
      assert x == y;
      SameOrderSameSort(x, members);
    }
  }

  lemma OneSortedListAgrees(members: seq<Member>, x: seq<Member>, y: seq<Member>)
    requires DistinctKeys(members) && |x| == |members| == |y|
    requires forall i :: 0 <= i < |members| ==> x[i].key == members[i].key == y[i].key
    requires Sort(Python, x) == Sort(Node, y)
    ensures x == y && KeysAgree(members)
  {
    SortSorts(Python, x);
    SortSorts(Node, y);
    OneListHasOneMembership(members, x, y);
    SortedTwice(Sort(Python, x), members, x);
  }

  lemma OneListHasOneMembership(members: seq<Member>, x: seq<Member>, y: seq<Member>)
    requires DistinctKeys(members) && |x| == |members| == |y|
    requires forall i :: 0 <= i < |members| ==> x[i].key == members[i].key == y[i].key
    requires forall m :: m in x ==> m in y
    ensures x == y
  {
    forall i | 0 <= i < |members| ensures x[i] == y[i] {
      assert x[i] in y;
      var k :| 0 <= k < |y| && y[k] == x[i];
      assert members[k].key == members[i].key;
    }
  }

  /** A list both runtimes find sorted orders its members alike for both. */
  lemma SortedTwice(a: seq<Member>, members: seq<Member>, x: seq<Member>)
    requires StrictlySorted(Python, a) && StrictlySorted(Node, a) && forall m :: m in x ==> m in a
    requires |x| == |members| && forall i :: 0 <= i < |x| ==> x[i].key == members[i].key
    ensures KeysAgree(members)
  {
    forall k, l | 0 <= k < |members| && 0 <= l < |members|
      ensures KeyBefore(Python, members[k].key, members[l].key) == KeyBefore(Node, members[k].key, members[l].key)
    {
      assert x[k] in a && x[l] in a;
      var i :| 0 <= i < |a| && a[i] == x[k];
      var j :| 0 <= j < |a| && a[j] == x[l];
      KeyBeforeIsTotal(Python, members[k].key, members[l].key);
      KeyBeforeIsTotal(Node, members[k].key, members[l].key);
    }
  }

  lemma SameOrderSameSort(x: seq<Member>, members: seq<Member>)
    requires |x| == |members| && forall i :: 0 <= i < |x| ==> x[i].key == members[i].key
    requires DistinctKeys(members) && KeysAgree(members)
    ensures Sort(Python, x) == Sort(Node, x)
  {
    var p := Sort(Python, x);
    SortSorts(Python, x);
    SortSorts(Node, x);
    forall i, j | 0 <= i < j < |p| ensures KeyBefore(Node, p[i].key, p[j].key) {
      assert p[i] in x && p[j] in x;
      var k :| 0 <= k < |x| && x[k] == p[i];
      var l :| 0 <= l < |x| && x[l] == p[j];
      assert KeyBefore(Python, members[k].key, members[l].key) == KeyBefore(Node, members[k].key, members[l].key);
    }
    SortedListsAgree(Node, p, Sort(Node, x));
  }

  /** Payloads with only the normalizer's own ASCII field names agree; numeric keys need not. */
  lemma NumericKeysDisagree()
    ensures
      var v := Obj([Member("9", Null), Member("10", Null)]);
      && WellFormed(v)
      && CanonicalText(Python, v) != CanonicalText(Node, v)
  {
    var v := Obj([Member("9", Null), Member("10", Null)]);
    assert "9"[..0] == "" && "10"[..1] == "1" && "1"[..0] == "";
    assert NatOf("9") == 9 && NatOf("1") == 1 && NatOf("10") == 10;
    assert IsIndex("9") && IsIndex("10");
    assert KeyBefore(Python, v.members[1].key, v.members[0].key);
    assert !KeyBefore(Node, v.members[1].key, v.members[0].key);
    RuntimesAgree(v);
  }
}
