/**
 * The parts of Java's string library the report model relies on: decimal
 * rendering of integers (string concatenation of an `int`), zero padding,
 * ASCII upper-casing, and the dash-joined layout of report lines. `Split`
 * is not used by the program; it is the inverse against which the joined
 * layout is proved.
 */
module Strings {

  predicate IsDigit(c: char) { '0' <= c <= '9' }

  predicate AllDigits(s: string) { forall i :: 0 <= i < |s| ==> IsDigit(s[i]) }

  function DigitValue(c: char): (d: nat)
    requires IsDigit(c)
    ensures d < 10
  {
    c as int - '0' as int
  }

  function DigitChar(d: nat): (c: char)
    requires d < 10
    ensures IsDigit(c) && DigitValue(c) == d
  {
    ('0' as int + d) as char
  }

  /** The value of a string of decimal digits, most significant digit first. */
  function DigitsValue(s: string): nat
    requires AllDigits(s)
  {
    if s == [] then 0 else DigitsValue(s[..|s| - 1]) * 10 + DigitValue(s[|s| - 1])
  }

  /** Decimal rendering of a natural number, without leading zeros. */
  function NatString(n: nat): (s: string)
    ensures |s| > 0 && AllDigits(s)
    ensures n < 10 <==> |s| == 1
  {
    if n < 10 then [DigitChar(n)] else NatString(n / 10) + [DigitChar(n % 10)]
  }

  /** Decimal rendering of an integer as `"" + n` gives it in Java: a minus sign, then the digits. */
  function IntString(n: int): string
  {
    if n < 0 then "-" + NatString(-n) else NatString(n)
  }

  function Zeros(k: nat): (s: string)
    ensures |s| == k && forall i :: 0 <= i < k ==> s[i] == '0'
  {
    if k == 0 then [] else Zeros(k - 1) + "0"
  }

  /** `n` in decimal, left-padded with zeros to at least `width` characters. */
  function ZeroPad(n: nat, width: nat): string
  {
    var digits := NatString(n);
    if |digits| >= width then digits else Zeros(width - |digits|) + digits
  }

  function Pow10(k: nat): (p: nat)
    ensures p >= 1
  {
    if k == 0 then 1 else 10 * Pow10(k - 1)
  }

  /** Reading back a rendered natural number gives the number. */
  lemma {:induction false} NatStringValue(n: nat)
    ensures DigitsValue(NatString(n)) == n
  {
    var s := NatString(n);
    if n >= 10 {
      NatStringValue(n / 10);
      assert s[..|s| - 1] == NatString(n / 10);
    }
  }

  /** A number below 10^w takes at most w digits. */
  lemma {:induction false} NatStringLength(n: nat, w: nat)
    requires w > 0 && n < Pow10(w)
    ensures |NatString(n)| <= w
  {
    if n >= 10 {
      assert w > 1;
      assert n / 10 < Pow10(w - 1);
      NatStringLength(n / 10, w - 1);
    }
  }

  /** Leading zeros do not change the value of a digit string. */
  lemma {:induction false} LeadingZerosValue(k: nat, s: string)
    requires AllDigits(s)
    ensures AllDigits(Zeros(k) + s) && DigitsValue(Zeros(k) + s) == DigitsValue(s)
  {
    if s == [] {
      assert Zeros(k) + s == Zeros(k);
      ZerosValue(k);
    } else {
      var t := Zeros(k) + s;
      assert t[..|t| - 1] == Zeros(k) + s[..|s| - 1];
      LeadingZerosValue(k, s[..|s| - 1]);
    }
  }

  lemma {:induction false} ZerosValue(k: nat)
    ensures AllDigits(Zeros(k)) && DigitsValue(Zeros(k)) == 0
  {
    if k > 0 {
      assert Zeros(k)[..k - 1] == Zeros(k - 1);
      ZerosValue(k - 1);
    }
  }

  /** Zero padding of a number that fits the width gives exactly `width` digits whose value is the number. */
  lemma ZeroPadValue(n: nat, width: nat)
    requires width > 0 && n < Pow10(width)
    ensures |ZeroPad(n, width)| == width && AllDigits(ZeroPad(n, width))
    ensures DigitsValue(ZeroPad(n, width)) == n
  {
    NatStringLength(n, width);
    NatStringValue(n);
    var digits := NatString(n);
    if |digits| < width {
      LeadingZerosValue(width - |digits|, digits);
    }
  }

  /** Every digit string is some leading zeros followed by the canonical rendering of its value. */
  lemma {:induction false} DigitsCanonical(s: string) returns (k: nat)
    requires |s| > 0 && AllDigits(s)
    ensures s == Zeros(k) + NatString(DigitsValue(s))
  {
    var n := |s| - 1;
    var init, c := s[..n], s[n];
    if n == 0 {
      k := 0;
      assert s == [c];
    } else {
      var k0 := DigitsCanonical(init);
      var v0 := DigitsValue(init);
      var v := DigitsValue(s);
      assert s == init + [c];
      assert v == v0 * 10 + DigitValue(c);
      if v0 == 0 {
        k := k0 + 1;
        assert init == Zeros(k0) + "0" == Zeros(k);
      } else {
        k := k0;
        assert v / 10 == v0 && v % 10 == DigitValue(c);
        assert NatString(v) == NatString(v0) + [c];
      }
    }
  }

  function UpperChar(c: char): char
  {
    if 'a' <= c <= 'z' then (c as int - 'a' as int + 'A' as int) as char else c
  }

  /** `String.toUpperCase` restricted to ASCII letters. */
  function UpperAscii(s: string): (u: string)
    ensures |u| == |s| && forall i :: 0 <= i < |s| ==> u[i] == UpperChar(s[i])
  {
    if s == [] then [] else [UpperChar(s[0])] + UpperAscii(s[1..])
  }

  /** The parts joined with `sep` between consecutive parts. */
  function Join(parts: seq<string>, sep: char): string
  {
    if |parts| == 0 then ""
    else if |parts| == 1 then parts[0]
    else parts[0] + [sep] + Join(parts[1..], sep)
  }

  /** The pieces of `s` between occurrences of `sep` (empty pieces kept). */
  function Split(s: string, sep: char): (pieces: seq<string>)
    ensures |pieces| > 0
  {
    if s == [] then [""]
    else if s[0] == sep then [""] + Split(s[1..], sep)
    else
      var rest := Split(s[1..], sep);
      [[s[0]] + rest[0]] + rest[1..]
  }

  predicate Free(s: string, sep: char) { sep !in s }

  /** A string free of the separator is one piece. */
  lemma {:induction false} SplitFree(s: string, sep: char)
    requires Free(s, sep)
    ensures Split(s, sep) == [s]
  {
    if s != [] {
      SplitFree(s[1..], sep);
      assert [s[0]] + s[1..] == s;
    }
  }

  /** Splitting distributes over a separator occurrence. */
  lemma {:induction false} SplitAt(a: string, sep: char, b: string)
    ensures Split(a + [sep] + b, sep) == Split(a, sep) + Split(b, sep)
  {
    if a == [] {
      assert a + [sep] + b == [sep] + b;
      assert ([sep] + b)[1..] == b;
    } else {
      var s := a + [sep] + b;
      assert s[0] == a[0];
      assert s[1..] == a[1..] + [sep] + b;
      SplitAt(a[1..], sep, b);
      if a[0] != sep {
        var restA := Split(a[1..], sep);
        assert Split(a, sep) == [[a[0]] + restA[0]] + restA[1..];
      }
    }
  }

  /** Split undoes Join when no part contains the separator. */
  lemma {:induction false} SplitJoin(parts: seq<string>, sep: char)
    requires |parts| > 0
    requires forall i :: 0 <= i < |parts| ==> Free(parts[i], sep)
    ensures Split(Join(parts, sep), sep) == parts
  {
    if |parts| == 1 {
      SplitFree(parts[0], sep);
    } else {
      SplitAt(parts[0], sep, Join(parts[1..], sep));
      SplitFree(parts[0], sep);
      SplitJoin(parts[1..], sep);
      assert [parts[0]] + parts[1..] == parts;
    }
  }

  predicate StartsWith(s: string, prefix: string)
  {
    |prefix| <= |s| && s[..|prefix|] == prefix
  }

  predicate EndsWith(s: string, suffix: string)
  {
    |suffix| <= |s| && s[|s| - |suffix|..] == suffix
  }

  /** Joining two non-empty runs of parts puts one separator between their joins. */
  lemma {:induction false} JoinConcat(a: seq<string>, b: seq<string>, sep: char)
    requires |a| > 0 && |b| > 0
    ensures Join(a + b, sep) == Join(a, sep) + [sep] + Join(b, sep)
  {
    if |a| > 1 {
      assert (a + b)[1..] == a[1..] + b;
      JoinConcat(a[1..], b, sep);
    }
  }

  /** Join ends with its last part, preceded by the separator when there are several parts. */
  lemma {:induction false} JoinEndsWith(parts: seq<string>, sep: char)
    requires |parts| > 1
    ensures EndsWith(Join(parts, sep), [sep] + parts[|parts| - 1])
  {
    if |parts| > 2 {
      JoinEndsWith(parts[1..], sep);
    }
  }

  /** The four pieces of a concatenation are its slices at their own lengths. */
  lemma ConcatParts<T>(a: seq<T>, b: seq<T>, c: seq<T>, d: seq<T>)
    ensures var s, i, j, k := a + b + c + d, |a|, |a| + |b|, |a| + |b| + |c|;
      s[..i] == a && s[i..j] == b && s[j..k] == c && s[k..] == d
  {
  }

  /** Join starts with its first part followed by the separator when there are several parts. */
  lemma JoinStartsWith(parts: seq<string>, sep: char)
    requires |parts| > 1
    ensures StartsWith(Join(parts, sep), parts[0] + [sep])
  {
    assert Join(parts, sep) == parts[0] + [sep] + Join(parts[1..], sep);
  }
}
