/** Option type and character-level helpers shared by the scanners. */
module Wrappers {
  datatype Option<+T> = None | Some(value: T)
}

/** Character classes of the regular expressions used by the cell magic
    (ECMAScript grammar of std::regex), and scanning helpers on strings. */
module Text {

  /** `\s`: the six characters of the C locale's space class. */
  predicate IsSpace(c: char) {
    c == ' ' || c == '\t' || c == '\n' || c == '\r' || c == '\U{000B}' || c == '\U{000C}'
  }

  /** `\w`: ASCII letters, digits and underscore. */
  predicate IsWordChar(c: char) {
    ('a' <= c <= 'z') || ('A' <= c <= 'Z') || ('0' <= c <= '9') || c == '_'
  }

  /** std::isdigit in the C locale. */
  predicate IsDigit(c: char) {
    '0' <= c <= '9'
  }

  /** The characters ECMAScript's `.` does not match. */
  predicate IsLineBreak(c: char) {
    c == '\n' || c == '\r'
  }

  datatype CharClass = Space | NonSpace | Word | Digit | NotLineBreak | Except(c: char)

  predicate InClass(c: char, k: CharClass) {
    match k
    case Space => IsSpace(c)
    case NonSpace => !IsSpace(c)
    case Word => IsWordChar(c)
    case Digit => IsDigit(c)
    case NotLineBreak => !IsLineBreak(c)
    case Except(x) => c != x
  }

  /** End of the longest run of class-`k` characters starting at `j`: what a
      greedy `k*` consumes from position `j`. */
  function RunEnd(s: string, j: nat, k: CharClass): (e: nat)
    requires j <= |s|
    ensures j <= e <= |s|
    decreases |s| - j
  {
    if j == |s| || !InClass(s[j], k) then j else RunEnd(s, j + 1, k)
  }

  /** Every character of the run is in the class, and the one after is not. */
  lemma {:induction false} RunEndSpan(s: string, j: nat, k: CharClass)
    requires j <= |s|
    ensures forall t :: j <= t < RunEnd(s, j, k) ==> InClass(s[t], k)
    ensures RunEnd(s, j, k) == |s| || !InClass(s[RunEnd(s, j, k)], k)
    decreases |s| - j
  {
    if j < |s| && InClass(s[j], k) {
      RunEndSpan(s, j + 1, k);
    }
  }

  /** The run end is determined by the characters alone. */
  lemma {:induction false} RunEndIs(s: string, j: nat, k: CharClass, e: nat)
    requires j <= e <= |s|
    requires forall t :: j <= t < e ==> InClass(s[t], k)
    requires e == |s| || !InClass(s[e], k)
    ensures RunEnd(s, j, k) == e
    decreases e - j
  {
    if j < e {
      RunEndIs(s, j + 1, k, e);
    }
  }

  /** `w` occurs in `s` at position `i`. */
  predicate HasAt(s: string, i: nat, w: string) {
    i + |w| <= |s| && s[i..i + |w|] == w
  }

  /** A word cannot occur where its first character does not. */
  lemma NotAt(s: string, i: nat, w: string)
    requires i < |s| && w != [] && s[i] != w[0]
    ensures !HasAt(s, i, w)
  {
    if i + |w| <= |s| {
      assert s[i..i + |w|][0] == s[i];
    }
  }

  /** One decimal digit character. */
  function DigitChar(d: nat): (c: char)
    requires d < 10
    ensures IsDigit(c)
  {
    ('0' as int + d) as char
  }

  /** std::to_string on a non-negative integer: decimal, no leading zeros. */
  function NatToString(n: nat): (r: string)
    ensures 1 <= |r|
    ensures forall t :: 0 <= t < |r| ==> IsDigit(r[t])
    ensures n < 10 <==> |r| == 1
    decreases n
  {
    if n < 10 then [DigitChar(n)] else NatToString(n / 10) + [DigitChar(n % 10)]
  }

  /** Different numbers print differently, so names built from them never collide. */
  lemma {:induction false} NatToStringInjective(m: nat, n: nat)
    requires NatToString(m) == NatToString(n)
    ensures m == n
    decreases m
  {
    var a, b := NatToString(m), NatToString(n);
    if m >= 10 && n >= 10 {
      assert a[..|a| - 1] == NatToString(m / 10);
      assert b[..|b| - 1] == NatToString(n / 10);
      NatToStringInjective(m / 10, n / 10);
      assert DigitChar(m % 10) == a[|a| - 1] == DigitChar(n % 10);
    }
  }

  /** Value of one decimal digit character. */
  function DigitValue(c: char): (v: nat)
    requires IsDigit(c)
    ensures v < 10
  {
    c as int - '0' as int
  }

  /** Value of a run of decimal digits, read left to right. */
  function DecimalValue(d: string): nat
    requires forall t :: 0 <= t < |d| ==> IsDigit(d[t])
  {
    if d == [] then 0 else 10 * DecimalValue(d[..|d| - 1]) + DigitValue(d[|d| - 1])
  }

  /** Largest value of a 32-bit `int`. */
  const INT_MAX: nat := 2147483647

  /** std::stoi on a run of digits inside the demangler's try-block:
      an empty run throws invalid_argument and a value beyond `int` throws
      out_of_range; both are caught and leave the length at 0. */
  function StoiOrZero(d: string): (r: nat)
    requires forall t :: 0 <= t < |d| ==> IsDigit(d[t])
    ensures r <= INT_MAX
  {
    if d == [] || DecimalValue(d) > INT_MAX then 0 else DecimalValue(d)
  }

  /** Reading back a printed number gives the number. */
  lemma {:induction false} DecimalValueOfNatToString(n: nat)
    ensures DecimalValue(NatToString(n)) == n
    decreases n
  {
    var r := NatToString(n);
    if n < 10 {
      assert r[..|r| - 1] == [];
    } else {
      DecimalValueOfNatToString(n / 10);
      assert r[..|r| - 1] == NatToString(n / 10);
      assert r[|r| - 1] == DigitChar(n % 10);
    }
  }

  /** std::stoi undoes std::to_string on every value an `int` holds. */
  lemma StoiRoundTrip(n: nat)
    requires n <= INT_MAX
    ensures StoiOrZero(NatToString(n)) == n
  {
    DecimalValueOfNatToString(n);
  }

  /** A leading zero adds nothing to a run of digits... */
  lemma {:induction false} DecimalLeadingZero(d: string)
    requires forall t :: 0 <= t < |d| ==> IsDigit(d[t])
    ensures DecimalValue("0" + d) == DecimalValue(d)
    decreases |d|
  {
    var z := "0" + d;
    if d == [] {
      assert z[..0] == [];
    } else {
      var init := d[..|d| - 1];
      DecimalLeadingZero(init);
      assert z[..|z| - 1] == "0" + init;
      assert z[|z| - 1] == d[|d| - 1];
    }
  }

  /** ... so leading zeros do not change the length the demangler reads. */
  lemma StoiLeadingZero(d: string)
    requires forall t :: 0 <= t < |d| ==> IsDigit(d[t])
    ensures StoiOrZero("0" + d) == StoiOrZero(d)
  {
    DecimalLeadingZero(d);
  }

  /** No element occurs twice. */
  predicate NoDup<T(==)>(s: seq<T>) {
    forall i, j :: 0 <= i < j < |s| ==> s[i] != s[j]
  }
}
