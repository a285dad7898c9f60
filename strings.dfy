/** Character classes, the string shapes the application tests with regular
    expressions, and the character order that stands for JavaScript's `<` on strings. */
module Strings {
  import opened Wrappers
  import opened Collections

  /** `\d` in a JavaScript regular expression: the ASCII digits only. */
  predicate IsDigit(c: char) { '0' <= c <= '9' }

  function DigitVal(c: char): (n: nat)
    requires IsDigit(c)
    ensures n < 10
  {
    (c as int) - ('0' as int)
  }

  function DigitChar(n: nat): (c: char)
    requires n < 10
    ensures IsDigit(c) && DigitVal(c) == n
  {
    (('0' as int) + n) as char
  }

  predicate AllDigits(s: string) { forall i :: 0 <= i < |s| ==> IsDigit(s[i]) }

  /** `s.replace(/\D/g, '')`: every character that is not a digit removed. */
  function StripNonDigits(s: string): (r: string)
    ensures AllDigits(r)
    ensures |r| <= |s|
    ensures AllDigits(s) ==> r == s
  {
    if s == [] then []
    else if IsDigit(s[0]) then [s[0]] + StripNonDigits(s[1..])
    else StripNonDigits(s[1..])
  }

  lemma {:induction false} StripNonDigitsAppend(a: string, b: string)
    ensures StripNonDigits(a + b) == StripNonDigits(a) + StripNonDigits(b)
  {
    if a == [] {
      assert a + b == b;
    } else {
      assert (a + b)[0] == a[0] && (a + b)[1..] == a[1..] + b;
      StripNonDigitsAppend(a[1..], b);
      if IsDigit(a[0]) {
        assert [a[0]] + StripNonDigits(a[1..]) + StripNonDigits(b) == [a[0]] + (StripNonDigits(a[1..]) + StripNonDigits(b));
      }
    }
  }

  predicate NoDigits(s: string) { forall i :: 0 <= i < |s| ==> !IsDigit(s[i]) }

  lemma {:induction false} StripNoDigits(s: string)
    requires NoDigits(s)
    ensures StripNonDigits(s) == []
  {
    if s != [] { StripNoDigits(s[1..]); }
  }

  predicate StartsWith(s: string, prefix: string) {
    |prefix| <= |s| && s[..|prefix|] == prefix
  }

  /** `/^\d{2}:\d{2}$/`: exactly two digits, a colon and two digits. */
  predicate IsHHMM(s: string) {
    |s| == 5 && IsDigit(s[0]) && IsDigit(s[1]) && s[2] == ':' && IsDigit(s[3]) && IsDigit(s[4])
  }

  /** `/^\d{4}-\d{2}-\d{2}$/`: the shape of an extended calendar date of
      ISO 8601, section 4.1.2.2; month and day ranges are not checked. */
  predicate IsYMD(s: string) {
    && |s| == 10
    && IsDigit(s[0]) && IsDigit(s[1]) && IsDigit(s[2]) && IsDigit(s[3])
    && s[4] == '-' && IsDigit(s[5]) && IsDigit(s[6])
    && s[7] == '-' && IsDigit(s[8]) && IsDigit(s[9])
  }

  /** The value of the two digits `s[i]s[i+1]`. */
  function TwoDigits(s: string, i: nat): (n: nat)
    requires i + 1 < |s| && IsDigit(s[i]) && IsDigit(s[i + 1])
    ensures n < 100
  {
    10 * DigitVal(s[i]) + DigitVal(s[i + 1])
  }

  /** `/(\d{2}):(\d{2})/` matches at position `i`. */
  predicate HHMMAt(s: string, i: nat) {
    i + 4 < |s| && IsDigit(s[i]) && IsDigit(s[i + 1]) && s[i + 2] == ':' && IsDigit(s[i + 3]) && IsDigit(s[i + 4])
  }

  /** The position of the leftmost match of `/(\d{2}):(\d{2})/` at or after `from`. */
  function FindHHMM(s: string, from: nat): (r: Option<nat>)
    decreases |s| - from
    ensures r.Some? ==> from <= r.value && HHMMAt(s, r.value)
  {
    if from + 4 >= |s| then None
    else if HHMMAt(s, from) then Some(from)
    else FindHHMM(s, from + 1)
  }

  /** The match found is the leftmost one, and none is found only when
      there is no match at all. */
  lemma {:induction false} FindHHMMLeftmost(s: string, from: nat)
    ensures FindHHMM(s, from).Some? ==> forall j :: from <= j < FindHHMM(s, from).value ==> !HHMMAt(s, j)
    ensures FindHHMM(s, from).None? <==> forall j :: from <= j ==> !HHMMAt(s, j)
    decreases |s| - from
  {
    if from + 4 < |s| && !HHMMAt(s, from) {
      FindHHMMLeftmost(s, from + 1);
    }
  }

  /** `String(n).padStart(2, '0')` for a number below 100. */
  function Pad2(n: nat): (r: string)
    requires n < 100
    ensures |r| == 2 && IsDigit(r[0]) && IsDigit(r[1])
    ensures 10 * DigitVal(r[0]) + DigitVal(r[1]) == n
  {
    [DigitChar(n / 10), DigitChar(n % 10)]
  }

  lemma Pad2OfTwoDigits(s: string, i: nat)
    requires i + 1 < |s| && IsDigit(s[i]) && IsDigit(s[i + 1])
    ensures Pad2(TwoDigits(s, i)) == s[i..i + 2]
  {
    var n := TwoDigits(s, i);
    assert n / 10 == DigitVal(s[i]) && n % 10 == DigitVal(s[i + 1]);
  }

  // ---------------------------------------------------------------------
  // The order of JavaScript's `<` on strings, here on code points (Dafny's
  // `char` is a Unicode scalar value; JavaScript compares UTF-16 code units,
  // which agrees on every string without characters above U+FFFF), on which
  // every "date is today or later" test and every `.sort()` of dates rests.

  predicate StrLt(a: string, b: string)
    decreases |a|
  {
    if a == [] then b != []
    else if b == [] then false
    else if a[0] != b[0] then a[0] < b[0]
    else StrLt(a[1..], b[1..])
  }

  predicate StrLe(a: string, b: string) { a == b || StrLt(a, b) }

  lemma {:induction false} StrLtIrreflexive(a: string)
    ensures !StrLt(a, a)
    decreases |a|
  {
    if a != [] { StrLtIrreflexive(a[1..]); }
  }

  lemma {:induction false} StrLtAsymmetric(a: string, b: string)
    ensures !(StrLt(a, b) && StrLt(b, a))
    decreases |a|
  {
    if a != [] && b != [] && a[0] == b[0] { StrLtAsymmetric(a[1..], b[1..]); }
  }

  lemma {:induction false} StrLtTransitive(a: string, b: string, c: string)
    requires StrLt(a, b) && StrLt(b, c)
    ensures StrLt(a, c)
    decreases |a|
  {
    if a != [] && a[0] == b[0] && b[0] == c[0] {
      StrLtTransitive(a[1..], b[1..], c[1..]);
    }
  }

  lemma {:induction false} StrLtTotal(a: string, b: string)
    ensures a == b || StrLt(a, b) || StrLt(b, a)
    decreases |a|
  {
    if a != [] && b != [] && a[0] == b[0] {
      StrLtTotal(a[1..], b[1..]);
      if a[1..] == b[1..] {
        assert a == [a[0]] + a[1..] && b == [b[0]] + b[1..];
      }
    }
  }

  /** Code order is a strict total order on every set of strings. */
  lemma StrLtOrders(s: set<string>)
    ensures StrictTotalOn(s, StrLt)
  {
    forall a, b, c | a in s && b in s && c in s && StrLt(a, b) && StrLt(b, c) ensures StrLt(a, c) {
      StrLtTransitive(a, b, c);
    }
    forall a, b | a in s && b in s && a != b ensures StrLt(a, b) || StrLt(b, a) {
      StrLtTotal(a, b);
    }
  }

  /** The least element of a finite non-empty set of strings. */
  ghost function LeastString(s: set<string>): (m: string)
    requires s != {}
    ensures m in s && forall x :: x in s ==> StrLe(m, x)
  {
    StrLtOrders(s);
    Least(s, StrLt)
  }

  /** Every finite non-empty set of strings has a least element. */
  lemma LeastStringExists(s: set<string>)
    requires s != {}
    ensures exists m :: m in s && forall x :: x in s ==> StrLe(m, x)
  {
    var m := LeastString(s);
    assert m in s && forall x :: x in s ==> StrLe(m, x);
  }

  /** A least element is unique. */
  lemma LeastStringUnique(s: set<string>, m: string)
    requires m in s && forall x :: x in s ==> StrLe(m, x)
    ensures LeastString(s) == m
  {
    var l := LeastString(s);
    if l != m { StrLtAsymmetric(l, m); }
  }

  /** The elements of a finite set of strings in ascending order, as
      `Array.from(set).sort()` produces them. */
  ghost function SortedStrings(s: set<string>): (r: seq<string>)
    ensures |r| == |s|
    ensures forall x :: x in r <==> x in s
    ensures forall i, j :: 0 <= i < j < |r| ==> StrLt(r[i], r[j])
  {
    StrLtOrders(s);
    SortedByCorrect(s, StrLt);
    SortedBy(s, StrLt)
  }
}
