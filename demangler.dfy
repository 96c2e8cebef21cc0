/** The simplified Itanium-style demangler of the cell magic
    (src/xmagics/nvrtc.cpp, demangle): two leading characters dropped
    unchecked, a decimal length read from the digits that follow, and the
    name of that length joined to what remains by `__`. */
module Demangler {
  import opened Text

  /** Number of digits right after the two dropped characters. */
  function DigitCount(m: string): (d: nat)
    requires 2 <= |m|
    ensures 2 + d <= |m|
  {
    RunEnd(m, 2, Digit) - 2
  }

  /** The name length read by `std::stoi`, 0 when it throws. */
  function NameLength(m: string): nat
    requires 2 <= |m|
  {
    RunEndSpan(m, 2, Digit);
    StoiOrZero(m[2..2 + DigitCount(m)])
  }

  /** Neither `substr` of the source throws: the input has the two dropped
      characters, and the name length does not run past its end. */
  predicate CanDemangle(m: string) {
    2 <= |m| && 2 + DigitCount(m) + NameLength(m) <= |m|
  }

  /** The demangled name: the name, `__`, and the rest after the name. */
  function DemangledName(m: string): string
    requires CanDemangle(m)
  {
    var p := 2 + DigitCount(m);
    m[p..p + NameLength(m)] + "__" + m[p + NameLength(m)..]
  }

  /** `std::string::substr(pos, len)`: at most `len` characters from `pos`. */
  function Substr(s: string, pos: nat, len: nat): string
    requires pos <= |s|
  {
    if len <= |s| - pos then s[pos..pos + len] else s[pos..]
  }

  /** demangle: drops the first two characters, strips digits one at a
      time while counting them, converts the counted digits to the name
      length and assembles the result. */
  method Demangle(mangled: string) returns (r: string)
    requires CanDemangle(mangled)
    ensures r == DemangledName(mangled)
  {
    var result := mangled[2..];
    var countNumbers := 0;
    while true
      invariant 2 + countNumbers <= |mangled|
      invariant result == mangled[2 + countNumbers..]
      invariant forall t :: 2 <= t < 2 + countNumbers ==> IsDigit(mangled[t])
      decreases |result|
    {
      // reading one past the end of a std::string yields the null character
      var first := if result == [] then '\0' else result[0];
      if IsDigit(first) {
        countNumbers := countNumbers + 1;
        result := result[1..];
      } else {
        break;
      }
    }
    assert 2 + countNumbers == |mangled| || !IsDigit(mangled[2 + countNumbers]);
    RunEndIs(mangled, 2, Digit, 2 + countNumbers);
    var lengthOfName := StoiOrZero(Substr(mangled, 2, countNumbers));
    r := Substr(mangled, countNumbers + 2, lengthOfName) + "__" + mangled[countNumbers + 2 + lengthOfName..];
  }

  /** The digit run and the length read from it, for an input split as
      two characters, digits `d` and a tail not starting with a digit. */
  lemma DigitRun(m: string, d: string, tail: string)
    requires 2 <= |m| && m[2..] == d + tail
    requires forall t :: 0 <= t < |d| ==> IsDigit(d[t])
    requires tail == [] || !IsDigit(tail[0])
    ensures DigitCount(m) == |d| && NameLength(m) == StoiOrZero(d)
    ensures m[2 + |d|..] == tail
  {
    var e := 2 + |d|;
    forall t | 2 <= t < e ensures InClass(m[t], Digit) {
      assert m[t] == m[2..][t - 2] == d[t - 2];
    }
    if tail != [] {
      assert m[e] == m[2..][|d|] == tail[0];
    }
    RunEndIs(m, 2, Digit, e);
    assert m[2..e] == d;
    assert m[e..] == tail;
  }

  /** The general shape: the result splits the tail after `stoi(d)`
      characters (0 when `d` is empty or too large), and is `|d|`
      characters shorter than the input. */
  lemma DemangleShape(m: string, d: string, tail: string)
    requires 2 <= |m| && m[2..] == d + tail
    requires forall t :: 0 <= t < |d| ==> IsDigit(d[t])
    requires tail == [] || !IsDigit(tail[0])
    requires StoiOrZero(d) <= |tail|
    ensures CanDemangle(m)
    ensures DemangledName(m) == tail[..StoiOrZero(d)] + "__" + tail[StoiOrZero(d)..]
    ensures |DemangledName(m)| == |m| - |d|
  {
    DigitRun(m, d, tail);
  }

  /** A length longer than what follows the digits makes the last `substr`
      throw: such input cannot be demangled. */
  lemma LengthPastEndRejected(m: string, d: string, tail: string)
    requires 2 <= |m| && m[2..] == d + tail
    requires forall t :: 0 <= t < |d| ==> IsDigit(d[t])
    requires tail == [] || !IsDigit(tail[0])
    requires StoiOrZero(d) > |tail|
    ensures !CanDemangle(m)
  {
    DigitRun(m, d, tail);
  }

  /** Without a length, the name is empty and the result is `__` followed
      by everything after the two dropped characters. */
  lemma NoDigitsNoName(m: string)
    requires 2 <= |m| && (|m| == 2 || !IsDigit(m[2]))
    ensures CanDemangle(m) && DemangledName(m) == "__" + m[2..]
  {
    DemangleShape(m, "", m[2..]);
  }

  /** A length beyond `int` is caught like a missing one: the name is empty. */
  lemma OverlongLengthIgnored(m: string, d: string, tail: string)
    requires 2 <= |m| && m[2..] == d + tail && d != []
    requires forall t :: 0 <= t < |d| ==> IsDigit(d[t])
    requires tail == [] || !IsDigit(tail[0])
    requires DecimalValue(d) > INT_MAX
    ensures CanDemangle(m) && DemangledName(m) == "__" + tail
  {
    DemangleShape(m, d, tail);
    assert tail[..0] == "" && tail[0..] == tail;
  }

  /** A one-digit length `k` followed by a name of `k` characters and the
      parameter encoding. */
  lemma OneDigitLength(m: string, k: nat, name: string, params: string)
    requires k < 10 && |name| == k
    requires m == "_Z" + [DigitChar(k)] + name + params
    requires (name + params) == [] || !IsDigit((name + params)[0])
    ensures CanDemangle(m) && DemangledName(m) == name + "__" + params
  {
    var d := [DigitChar(k)];
    assert DecimalValue(d) == k by {
      assert d[..0] == [];
    }
    assert m[2..] == d + (name + params);
    DemangleShape(m, d, name + params);
    assert (name + params)[..k] == name;
    assert (name + params)[k..] == params;
  }

  /** `_Z8myKernelPf` gives `myKernel__Pf`. */
  lemma MyKernelExample(m: string)
    requires m == "_Z8myKernelPf"
    ensures CanDemangle(m) && DemangledName(m) == "myKernel__Pf"
  {
    assert DigitChar(8) == '8';
    OneDigitLength(m, 8, "myKernel", "Pf");
  }

  /** The length is taken at its word: `_Z7myKernelPf` splits after seven
      characters and gives `myKerne__lPf`. */
  lemma ShortLengthExample(m: string)
    requires m == "_Z7myKernelPf"
    ensures CanDemangle(m) && DemangledName(m) == "myKerne__lPf"
  {
    assert DigitChar(7) == '7';
    OneDigitLength(m, 7, "myKerne", "lPf");
  }

  /** `_Z3addPfS_` gives `add__PfS_`. */
  lemma AddExample(m: string)
    requires m == "_Z3addPfS_"
    ensures CanDemangle(m) && DemangledName(m) == "add__PfS_"
  {
    assert DigitChar(3) == '3';
    OneDigitLength(m, 3, "add", "PfS_");
  }
}
