/**
 * What the canonical text's choices are, said without the functions that make them: the order of an
 * object's keys by character codes and array indices, a double as 53 significant bits, and the sizes
 * at which a runtime turns to an exponent.
 */
module CanonicalMeaning {
  import opened Options
  import opened Json
  import opened JsonRoundTrip
  import opened CanonicalJson

  // ----- key order -----

  /** A text as the units its runtime compares: code points in Python, UTF-16 code units in Node. */
  function Units(rt: Runtime, s: string): (u: seq<int>)
    ensures u == [] <==> s == ""
  {
    if s == "" then [] else UnitsOf(rt, s[0] as int) + Units(rt, s[1..])
  }

  /** RFC 2781, section 2.1. */
  function UnitsOf(rt: Runtime, c: int): seq<int> {
    if rt.Python? || c < 0x10000 then [c] else [0xD800 + (c - 0x10000) / 0x400, 0xDC00 + (c - 0x10000) % 0x400]
  }

  /** The first difference decides, and a proper prefix comes first. */
  ghost predicate LexBefore(a: seq<int>, b: seq<int>) {
    exists k :: 0 <= k < |b| && k <= |a| && a[..k] == b[..k] && (k < |a| ==> a[k] < b[k])
  }

  lemma DifferenceDecides(a: seq<int>, b: seq<int>, k: nat)
    requires k < |a| && k < |b| && a[..k] == b[..k] && a[k] != b[k]
    ensures LexBefore(a, b) <==> a[k] < b[k]
  {
  }

  lemma SharedStart(u: seq<int>, a: seq<int>, b: seq<int>)
    ensures LexBefore(u + a, u + b) <==> LexBefore(a, b)
  {
    if k :| 0 <= k < |b| && k <= |a| && a[..k] == b[..k] && (k < |a| ==> a[k] < b[k]) {
      assert (u + a)[..|u| + k] == u + a[..k] && (u + b)[..|u| + k] == u + b[..k];
      assert LexBefore(u + a, u + b);
    }
    if k :| 0 <= k < |u + b| && k <= |u + a| && (u + a)[..k] == (u + b)[..k] && (k < |u + a| ==> (u + a)[k] < (u + b)[k]) {
      assert k >= |u|;
      assert a[..k - |u|] == (u + a)[..k][|u|..] && b[..k - |u|] == (u + b)[..k][|u|..];
      assert LexBefore(a, b);
    }
  }

  lemma RanksAsUnits(rt: Runtime, c: char, d: char, x: seq<int>, y: seq<int>)
    requires c != d
    ensures LexBefore(UnitsOf(rt, c as int) + x, UnitsOf(rt, d as int) + y) <==> Rank(rt, c) < Rank(rt, d)
  {
    hide LexBefore;
    var u, v := UnitsOf(rt, c as int), UnitsOf(rt, d as int);
    if u[0] != v[0] {
      DifferenceDecides(u + x, v + y, 0);
    } else {
      assert (u + x)[..1] == [u[0]] && (v + y)[..1] == [v[0]];
      DifferenceDecides(u + x, v + y, 1);
    }
  }

  lemma {:induction false} OrderIsLexical(rt: Runtime, a: string, b: string)
    ensures TextBefore(rt, a, b) <==> LexBefore(Units(rt, a), Units(rt, b))
  {
    hide LexBefore, UnitsOf;
    if a == "" || b == "" {
      EmptyIsFirst(Units(rt, a), Units(rt, b));
    } else if a[0] == b[0] {
      OrderIsLexical(rt, a[1..], b[1..]);
      SharedStart(UnitsOf(rt, a[0] as int), Units(rt, a[1..]), Units(rt, b[1..]));
    } else {
      RanksAsUnits(rt, a[0], b[0], Units(rt, a[1..]), Units(rt, b[1..]));
    }
  }

  lemma EmptyIsFirst(a: seq<int>, b: seq<int>)
    requires a == [] || b == []
    ensures LexBefore(a, b) <==> a == [] && b != []
  {
    if b != [] { assert a[..0] == b[..0]; }
  }

  /** The decimal form of an ECMAScript array index. */
  ghost predicate ArrayIndex(k: string, n: nat) {
    n < 0xFFFF_FFFF && k == Digits(n)
  }

  lemma IndexIsDecimal(k: string)
    ensures IsIndex(k) ==> ArrayIndex(k, NatOf(k))
    ensures forall n: nat :: ArrayIndex(k, n) ==> IsIndex(k) && NatOf(k) == n
  {
    if IsIndex(k) { NumeralIsDigits(k); }
    forall n: nat | ArrayIndex(k, n) ensures IsIndex(k) && NatOf(k) == n {
      DigitsHaveValue(n);
    }
  }

  /** How a runtime lists two keys: Node puts array indices first, by value; every other pair of keys is in
      the order of its units. */
  ghost predicate ListedBefore(rt: Runtime, a: string, b: string) {
    if rt.Node? && exists m: nat :: ArrayIndex(a, m)
    then forall m: nat, n: nat :: ArrayIndex(a, m) && ArrayIndex(b, n) ==> m < n
    else !(rt.Node? && exists n: nat :: ArrayIndex(b, n)) && LexBefore(Units(rt, a), Units(rt, b))
  }

  lemma KeysAreListed(rt: Runtime, a: string, b: string)
    ensures KeyBefore(rt, a, b) <==> ListedBefore(rt, a, b)
  {
    hide LexBefore, Units, TextBefore, ArrayIndex, IsIndex;
    OrderIsLexical(rt, a, b);
    IndexIsDecimal(a);
    IndexIsDecimal(b);
  }

  lemma {:induction false} SortKeepsLength(rt: Runtime, members: seq<Member>)
    ensures |Sort(rt, members)| == |members|
  {
    if members != [] {
      SortKeepsLength(rt, members[1..]);
      InsertAddsOne(rt, members[0], Sort(rt, members[1..]));
    }
  }

  lemma {:induction false} InsertAddsOne(rt: Runtime, m: Member, sorted: seq<Member>)
    ensures |Insert(rt, m, sorted)| == |sorted| + 1
  {
    if sorted != [] && !KeyBefore(rt, m.key, sorted[0].key) {
      InsertAddsOne(rt, m, sorted[1..]);
    }
  }

  /** The canonical object has the payload's members, each value in canonical form, and lists its keys in
      the runtime's order. */
  lemma MembersInOrder(rt: Runtime, members: seq<Member>)
    requires DistinctKeys(members)
    ensures
      var listed := Canonical(rt, Obj(members));
      && listed.Obj? && |listed.members| == |members|
      && (forall m :: m in listed.members <==>
            exists i :: 0 <= i < |members| && m == Member(members[i].key, Canonical(rt, members[i].value)))
      && forall i, j :: 0 <= i < j < |members| ==> ListedBefore(rt, listed.members[i].key, listed.members[j].key)
  {
    hide KeyBefore, ListedBefore;
    CanonicalMembersSorted(rt, members);
    SortKeepsLength(rt, CanonicalMembers(rt, members));
    var x, listed := CanonicalMembers(rt, members), Sort(rt, CanonicalMembers(rt, members));
    forall m | m in listed
      ensures exists i :: 0 <= i < |members| && m == Member(members[i].key, Canonical(rt, members[i].value))
    {
      var i :| 0 <= i < |x| && x[i] == m;
      assert m == Member(members[i].key, Canonical(rt, members[i].value));
    }
    forall i | 0 <= i < |members| ensures Member(members[i].key, Canonical(rt, members[i].value)) in listed {
      assert x[i] in x;
    }
    forall i, j | 0 <= i < j < |listed| ensures ListedBefore(rt, listed[i].key, listed[j].key) {
      KeysAreListed(rt, listed[i].key, listed[j].key);
    }
  }

  // ----- whole numbers as doubles -----

  function PowerOfTwo(e: nat): nat
    ensures PowerOfTwo(e) > 0
  {
    if e == 0 then 1 else 2 * PowerOfTwo(e - 1)
  }

  const SIGNIFICAND := 0x20_0000_0000_0000

  /** A double's magnitude: 53 significant bits, then zeros. */
  ghost predicate IsDouble(d: nat) {
    exists m: nat, e: nat :: HasBits(d, m, e)
  }

  predicate HasBits(d: nat, m: nat, e: nat) {
    m <= SIGNIFICAND && d == m * PowerOfTwo(e)
  }

  /** The spacing of doubles at a magnitude: the smallest power of two from which 53 bits reach it. */
  predicate SpacedAt(n: nat, e: nat) {
    n <= SIGNIFICAND * PowerOfTwo(e) && (e > 0 ==> SIGNIFICAND * PowerOfTwo(e - 1) < n)
  }

  function Gap(a: nat, b: nat): nat {
    if a < b then b - a else a - b
  }

  predicate Nearest(n: nat, m: nat, unit: nat) {
    2 * Gap(n, m * unit) <= unit && (2 * Gap(n, m * unit) == unit ==> m % 2 == 0)
  }

  lemma RoundsOneWay(n: nat, unit: nat, q: nat, r: nat)
    requires n == q * unit + r && r < unit
    ensures 2 * r < unit || (2 * r == unit && q % 2 == 0) ==> Nearest(n, q, unit)
    ensures 2 * r > unit || (2 * r == unit && q % 2 == 1) ==> Nearest(n, q + 1, unit)
  {
    assert (q + 1) * unit == q * unit + unit;
  }

  lemma HalfEvenIsNearest(n: nat, unit: nat) returns (m: nat)
    requires unit > 0
    ensures HalfEven(n, unit) == m * unit && Nearest(n, m, unit)
  {
    hide Nearest;
    var q, r := n / unit, n % unit;
    RoundsOneWay(n, unit, q, r);
    m := if 2 * r < unit || (2 * r == unit && q % 2 == 0) then q else q + 1;
  }

  lemma Apart(p: nat, q: nat, unit: nat)
    requires p < q
    ensures p * unit + unit <= q * unit
  {
    assert q * unit == p * unit + (q - p) * unit;
    assert (q - p) * unit == unit + (q - p - 1) * unit;
  }

  lemma NoMultipleIsNearer(n: nat, m: nat, q: nat, unit: nat)
    requires Nearest(n, m, unit)
    ensures Gap(n, m * unit) <= Gap(n, q * unit)
    ensures Gap(n, m * unit) == Gap(n, q * unit) && q != m && unit > 0 ==> m % 2 == 0
  {
    if q < m { Apart(q, m, unit); }
    if m < q { Apart(m, q, unit); }
  }

  lemma {:induction false} PowersSplit(e: nat, f: nat)
    requires e <= f
    ensures PowerOfTwo(f) == PowerOfTwo(f - e) * PowerOfTwo(e)
  {
    if e > 0 {
      PowersSplit(e - 1, f - 1);
      assert PowerOfTwo(f - e) * (2 * PowerOfTwo(e - 1)) == 2 * (PowerOfTwo(f - e) * PowerOfTwo(e - 1));
    }
  }

  lemma Reassociate(a: int, b: int, c: int)
    ensures a * b * c == a * (b * c)
  {
  }

  lemma ProductsGrow(a: nat, b: nat, c: nat)
    requires a <= b
    ensures a * c <= b * c
  {
    if a < b { Apart(a, b, c); }
  }

  /** A double at least as coarse as the spacing of a magnitude is a multiple of it. */
  lemma CoarseIsMultiple(k: nat, f: nat, e: nat) returns (q: nat)
    requires e <= f
    ensures k * PowerOfTwo(f) == q * PowerOfTwo(e)
  {
    PowersSplit(e, f);
    q := k * PowerOfTwo(f - e);
    Reassociate(k, PowerOfTwo(f - e), PowerOfTwo(e));
  }

  lemma NextPower(e: nat)
    requires e > 0
    ensures PowerOfTwo(e) == 2 * PowerOfTwo(e - 1)
  {
  }

  /** Any finer one is at most the least double with that spacing. */
  lemma FineIsBelow(k: nat, f: nat, e: nat)
    requires k <= SIGNIFICAND && f < e
    ensures k * PowerOfTwo(f) <= SIGNIFICAND * PowerOfTwo(e - 1) == SIGNIFICAND / 2 * PowerOfTwo(e)
  {
    hide PowerOfTwo;
    var p, q := PowerOfTwo(e - 1 - f), PowerOfTwo(f);
    PowersSplit(f, e - 1);
    NextPower(e);
    ProductsGrow(k, SIGNIFICAND, q);
    ProductsGrow(1, p, q);
  }

  lemma NoDoubleIsNearer(n: nat, e: nat, m: nat, d: nat, k: nat, f: nat)
    requires SpacedAt(n, e) && Nearest(n, m, PowerOfTwo(e)) && HasBits(d, k, f)
    ensures Gap(n, m * PowerOfTwo(e)) <= Gap(n, d)
    ensures Gap(n, m * PowerOfTwo(e)) == Gap(n, d) && d != m * PowerOfTwo(e) ==> m % 2 == 0
  {
    hide Nearest, PowerOfTwo;
    if e <= f {
      var q := CoarseIsMultiple(k, f, e);
      NoMultipleIsNearer(n, m, q, PowerOfTwo(e));
    } else {
      FineIsBelow(k, f, e);
      NoMultipleIsNearer(n, m, SIGNIFICAND / 2, PowerOfTwo(e));
    }
  }

  lemma {:induction false} StopsAtSpacing(n: nat, e: nat) returns (f: nat)
    requires e > 0 ==> SIGNIFICAND * PowerOfTwo(e - 1) < n
    ensures SpacedAt(n, f) && NearestDouble(n, PowerOfTwo(e)) == HalfEven(n, PowerOfTwo(f))
    decreases n - PowerOfTwo(e)
  {
    if n <= SIGNIFICAND * PowerOfTwo(e) {
      f := e;
    } else {
      f := StopsAtSpacing(n, e + 1);
    }
  }

  lemma BitsSuffice(n: nat, e: nat, m: nat)
    requires SpacedAt(n, e) && Nearest(n, m, PowerOfTwo(e))
    ensures m <= SIGNIFICAND
  {
    if m > SIGNIFICAND { Apart(SIGNIFICAND, m, PowerOfTwo(e)); }
  }

  /** A whole number becomes the nearest double of its sign, of two equally near ones the one with an even
      significand (IEEE 754, section 4.3.1). */
  lemma RoundsToNearest(i: int) returns (m: nat, e: nat)
    ensures
      var n: nat, r := if i < 0 then -i else i, m * PowerOfTwo(e);
      && RoundedWhole(i) == (if i < 0 then -r else r)
      && HasBits(r, m, e) && SpacedAt(n, e)
      && forall d: nat :: IsDouble(d) ==>
           Gap(n, r) <= Gap(n, d) && (Gap(n, r) == Gap(n, d) && d != r ==> m % 2 == 0)
  {
    var n: nat := if i < 0 then -i else i;
    e := StopsAtSpacing(n, 0);
    m := HalfEvenIsNearest(n, PowerOfTwo(e));
    BitsSuffice(n, e, m);
    var r := m * PowerOfTwo(e);
    forall d: nat | IsDouble(d)
      ensures Gap(n, r) <= Gap(n, d) && (Gap(n, r) == Gap(n, d) && d != r ==> m % 2 == 0)
    {
      var k: nat, f: nat :| HasBits(d, k, f);
      NoDoubleIsNearer(n, e, m, d, k, f);
    }
  }

  // ----- what is written -----

  /** Python writes every whole number as it is. Node writes the double it becomes, and that plainly up to
      2^53; of a larger one only that its writing depends on nothing else is known here. */
  lemma WholesAreWritten(rt: Runtime, i: int)
    ensures Written(rt, WholeFloat(i)) == Written(rt, Whole(i))
    ensures rt.Python? || -SIGNIFICAND <= i <= SIGNIFICAND ==> Written(rt, Whole(i)) == Num(Whole(i))
    ensures Written(Node, Whole(i)) == Written(Node, Whole(RoundedWhole(i)))
  {
    var m, e := RoundsToNearest(i);
    var n: nat := if i < 0 then -i else i;
    var r := m * PowerOfTwo(e);
    var k, f := RoundsToNearest(RoundedWhole(i));
    assert IsDouble(r) by { assert HasBits(r, m, e); }
    assert Gap(r, k * PowerOfTwo(f)) <= Gap(r, r);
  }

  /** A fraction is written with an exponent exactly when it is below 0.0001 in Python, 0.000001 in Node:
      one digit, the rest after a point, and the place of that digit, of two figures at least in Python. */
  lemma SmallFractionsAreWritten(rt: Runtime, minus: bool, whole: nat, tail: string)
    requires tail != "" && AllDigits(tail) && tail[|tail| - 1] != '0'
    ensures
      var n, zeros := Written(rt, Fraction(minus, whole, tail)), if rt.Python? then "0000" else "000000";
      if whole == 0 && zeros <= tail then
        exists k: nat ::
          && k < |tail| && tail[..k] == Zeros(k) && tail[k] != '0'
          && n == Num(Scientific(minus, DigitValue(tail[k]), tail[k + 1..], true,
                                 if rt.Python? && k < 9 then "0" + Digits(k + 1) else Digits(k + 1)))
      else n == Num(Fraction(minus, whole, tail))
  {
    var k := LeadingZeros(tail);
    ZerosLead(tail, if rt.Python? then "0000" else "000000");
    hide LeadingZeros, Zeros, PowerDigits;
    assert PowerDigits(rt, k + 1) == if rt.Python? && k < 9 then "0" + Digits(k + 1) else Digits(k + 1) by { PowerIsPadded(rt, k + 1); }
  }

  lemma ZerosLead(tail: string, zeros: string)
    requires forall i :: 0 <= i < |zeros| ==> zeros[i] == '0'
    ensures tail[..LeadingZeros(tail)] == Zeros(LeadingZeros(tail))
    ensures zeros <= tail <==> |zeros| <= LeadingZeros(tail)
  {
    var k := LeadingZeros(tail);
    assert zeros <= tail ==> forall i :: 0 <= i < |zeros| ==> tail[i] == '0';
  }

  lemma PowerIsPadded(rt: Runtime, power: nat)
    ensures PowerDigits(rt, power) == if rt.Python? && power < 10 then "0" + Digits(power) else Digits(power)
  {
  }
}
