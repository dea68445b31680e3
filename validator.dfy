/**
 * `Validator`: stateless checks that turn raw input strings into domain
 * values. Each Java exception becomes an `Err`/`Fail` carrying the
 * exception's kind and message.
 */
module Validator {
  import opened Wrappers
  import opened Strings
  import opened Reports

  datatype ValidationError =
    | InvalidSeverity(message: string)
    | InvalidSerialNumber(message: string)
    | InvalidVersionFormat(message: string)

  const SeverityMessage: string := "Tipo de severidad inv\U{00E1}lido. Debe ser ALTO, MEDIO o BAJO."
  const NotPositiveMessage: string := "El n\U{00FA}mero serial debe ser un entero positivo."
  const NotIntegerMessage: string := "El n\U{00FA}mero serial debe ser un n\U{00FA}mero entero."
  const VersionMessage: string :=
    "El formato de la versi\U{00F3}n debe ser A.B.C, donde A, B y C son n\U{00FA}meros."

  // ---------------------------------------------------------------- severity

  /** `Severity.valueOf(s.toUpperCase())`, with an invalid name reported as InvalidSeverity. */
  function ValidateSeverity(s: string): (r: Result<Severity, ValidationError>)
    ensures r.Ok? <==> UpperAscii(s) in {"ALTO", "MEDIO", "BAJO"}
    ensures r.Ok? ==> r.value.Name() == UpperAscii(s)
    ensures r.Err? ==> r.error == InvalidSeverity(SeverityMessage)
  {
    var name := UpperAscii(s);
    if name == "ALTO" then Ok(Alto)
    else if name == "MEDIO" then Ok(Medio)
    else if name == "BAJO" then Ok(Bajo)
    else Err(InvalidSeverity(SeverityMessage))
  }

  /** Upper-casing leaves a severity name as it is. */
  lemma UpperOfName(v: Severity)
    ensures UpperAscii(v.Name()) == v.Name()
  {
    var n := v.Name();
    assert forall i :: 0 <= i < |n| ==> UpperChar(n[i]) == n[i];
  }

  /** Validation reads back the name a report prints, and any upper/lower-case spelling of it. */
  lemma ValidateSeverityOfName(v: Severity, s: string)
    requires UpperAscii(s) == v.Name()
    ensures ValidateSeverity(s) == Ok(v)
  {
  }

  lemma ValidateSeverityRoundTrip(v: Severity)
    ensures ValidateSeverity(v.Name()) == Ok(v)
  {
    UpperOfName(v);
  }

  // ----------------------------------------------------------- serial number

  predicate IsInt32(n: int) { Int32Min <= n <= Int32Max }

  /**
   * `Integer.parseInt(s)`: an optional '+' or '-' followed by at least one
   * decimal digit, whose value must fit in 32 bits.
   */
  function ParseInt(s: string): (r: Option<int>)
    ensures r.Some? ==> IsInt32(r.value)
  {
    if |s| == 0 then None
    else
      var digits := if s[0] == '-' || s[0] == '+' then s[1..] else s;
      if |digits| == 0 || !AllDigits(digits) then None
      else
        var n: int := if s[0] == '-' then 0 - DigitsValue(digits) else DigitsValue(digits);
        if IsInt32(n) then Some(n) else None
  }

  /** Every 32-bit integer, rendered in decimal, parses back to itself. */
  lemma ParseIntString(n: int)
    requires IsInt32(n)
    ensures ParseInt(IntString(n)) == Some(n)
  {
    var s := IntString(n);
    if n < 0 {
      NatStringValue(-n);
      assert s[1..] == NatString(-n);
    } else {
      NatStringValue(n);
    }
  }

  /** The value of an optional sign followed by a digit string. */
  function SignedValue(sign: string, digits: string): int
    requires AllDigits(digits)
  {
    if sign == "-" then 0 - DigitsValue(digits) else DigitsValue(digits)
  }

  lemma ParseIntSigned(sign: string, digits: string)
    requires sign == "" || sign == "+" || sign == "-"
    requires |digits| > 0 && AllDigits(digits)
    ensures ParseInt(sign + digits)
      == if IsInt32(SignedValue(sign, digits)) then Some(SignedValue(sign, digits)) else None
  {
    var s := sign + digits;
    if sign == "" {
      assert s == digits;
      assert IsDigit(s[0]);
    } else {
      assert s[0] == sign[0];
      assert s[1..] == digits;
    }
  }

  /**
   * An optional sign, any number of leading zeros and the digits of `n`
   * parse to the signed value exactly when it fits in 32 bits.
   */
  lemma ParseIntNumeral(sign: string, k: nat, n: nat)
    requires sign == "" || sign == "+" || sign == "-"
    ensures var v: int := if sign == "-" then 0 - n else n;
      ParseInt(sign + (Zeros(k) + NatString(n))) == if IsInt32(v) then Some(v) else None
  {
    var digits := Zeros(k) + NatString(n);
    assert AllDigits(digits) && DigitsValue(digits) == n && |digits| > 0 by {
      NatStringValue(n);
      LeadingZerosValue(k, NatString(n));
    }
    ParseIntSigned(sign, digits);
  }

  /** A string that parses is an optional sign followed by a non-empty run of digits. */
  lemma ParseIntSignedShape(s: string) returns (sign: string, digits: string)
    requires ParseInt(s).Some?
    ensures sign == "" || sign == "+" || sign == "-"
    ensures s == sign + digits && |digits| > 0 && AllDigits(digits)
    ensures ParseInt(s).value == SignedValue(sign, digits)
  {
    if s[0] == '-' || s[0] == '+' {
      sign, digits := [s[0]], s[1..];
    } else {
      sign, digits := "", s;
    }
    assert s == sign + digits;
    ParseIntSigned(sign, digits);
  }

  /** Conversely, every string that parses is an optional sign, leading zeros and a canonical numeral. */
  lemma ParseIntShape(s: string) returns (sign: string, k: nat, n: nat)
    requires ParseInt(s).Some?
    ensures sign == "" || sign == "+" || sign == "-"
    ensures s == sign + (Zeros(k) + NatString(n))
    ensures ParseInt(s).value == if sign == "-" then 0 - n else n
  {
    var digits;
    sign, digits := ParseIntSignedShape(s);
    k, n := SignedNumeral(sign, digits);
  }

  /** A sign and a digit run are the sign, leading zeros and the canonical numeral of the run's value. */
  lemma SignedNumeral(sign: string, digits: string) returns (k: nat, n: nat)
    requires |digits| > 0 && AllDigits(digits)
    ensures digits == Zeros(k) + NatString(n)
    ensures SignedValue(sign, digits) == if sign == "-" then 0 - n else n
  {
    n := DigitsValue(digits);
    k := DigitsCanonical(digits);
  }

  /** A decimal number outside the 32-bit range does not parse. */
  lemma ParseIntOutOfRange(n: int)
    requires !IsInt32(n)
    ensures ParseInt(IntString(n)) == None
  {
    var s := IntString(n);
    if n < 0 {
      NatStringValue(-n);
      assert s[1..] == NatString(-n);
    } else {
      NatStringValue(n);
    }
  }

  /** `validateSerialNumber`: the parsed value if it is positive; two distinct messages otherwise. */
  function ValidateSerialNumber(s: string): (r: Result<Int32, ValidationError>)
    ensures r.Ok? <==> ParseInt(s).Some? && ParseInt(s).value > 0
    ensures r.Ok? ==> r.value > 0 && ParseInt(s).value == r.value
    ensures r.Err? ==> r.error == InvalidSerialNumber(if ParseInt(s).None? then NotIntegerMessage else NotPositiveMessage)
  {
    match ParseInt(s)
    case None => Err(InvalidSerialNumber(NotIntegerMessage))
    case Some(n) => if n <= 0 then Err(InvalidSerialNumber(NotPositiveMessage)) else Ok(n)
  }

  /** Each positive 32-bit value, written in decimal, is accepted as itself. */
  lemma ValidateSerialAcceptsPositive(n: int)
    requires 0 < n <= Int32Max
    ensures ValidateSerialNumber(IntString(n)) == Ok(n)
  {
    ParseIntString(n);
  }

  /** A non-positive 32-bit value is rejected with the "entero positivo" message. */
  lemma ValidateSerialRejectsNonPositive(n: int)
    requires Int32Min <= n <= 0
    ensures ValidateSerialNumber(IntString(n)) == Err(InvalidSerialNumber(NotPositiveMessage))
  {
    ParseIntString(n);
  }

  /** A value outside the 32-bit range is rejected with the "número entero" message. */
  lemma ValidateSerialRejectsOutOfRange(n: int)
    requires !IsInt32(n)
    ensures ValidateSerialNumber(IntString(n)) == Err(InvalidSerialNumber(NotIntegerMessage))
  {
    ParseIntOutOfRange(n);
  }

  /** Input holding a character other than a digit after the optional sign is not an integer. */
  lemma ValidateSerialRejectsNonNumeric(s: string, i: nat)
    requires i < |s| && !IsDigit(s[i]) && !(i == 0 && (s[0] == '-' || s[0] == '+') && |s| > 1)
    ensures ValidateSerialNumber(s) == Err(InvalidSerialNumber(NotIntegerMessage))
  {
    if s[0] == '-' || s[0] == '+' {
      if i > 0 {
        assert s[1..][i - 1] == s[i];
      }
    }
  }

  /** Accepted serial numbers, with a sign and with leading zeros as `Integer.parseInt` allows. */
  lemma ValidateSerialAcceptExamples()
    ensures ValidateSerialNumber("42") == Ok(42)
    ensures ValidateSerialNumber("+7") == Ok(7)
    ensures ValidateSerialNumber("007") == Ok(7)
    ensures ValidateSerialNumber("+0042") == Ok(42)
  {
    assert NatString(42) == "42" by {
      assert NatString(42) == NatString(4) + [DigitChar(2)];
    }
    assert ValidateSerialNumber("42") == Ok(42) by {
      assert "42" == "" + (Zeros(0) + NatString(42));
      ParseIntNumeral("", 0, 42);
    }
    assert ValidateSerialNumber("+7") == Ok(7) by {
      assert "+7" == "+" + (Zeros(0) + NatString(7));
      ParseIntNumeral("+", 0, 7);
    }
    assert ValidateSerialNumber("007") == Ok(7) by {
      assert "007" == "" + (Zeros(2) + NatString(7));
      ParseIntNumeral("", 2, 7);
    }
    assert "+0042" == "+" + (Zeros(2) + NatString(42));
    ParseIntNumeral("+", 2, 42);
  }

  /** Rejected serial numbers, including the empty input and a lone sign. */
  lemma ValidateSerialRejectExamples()
    ensures ValidateSerialNumber("0") == Err(InvalidSerialNumber(NotPositiveMessage))
    ensures ValidateSerialNumber("-5") == Err(InvalidSerialNumber(NotPositiveMessage))
    ensures ValidateSerialNumber("") == Err(InvalidSerialNumber(NotIntegerMessage))
    ensures ValidateSerialNumber("-") == Err(InvalidSerialNumber(NotIntegerMessage))
    ensures ValidateSerialNumber("abc") == Err(InvalidSerialNumber(NotIntegerMessage))
  {
    ValidateSerialRejectsNonNumeric("abc", 0);
    assert "-5"[1..] == "5";
  }

  /** Two distinct messages separate "not an integer" from "not positive". */
  lemma SerialMessagesDiffer()
    ensures NotIntegerMessage != NotPositiveMessage
  {
    assert NotIntegerMessage[37] != NotPositiveMessage[37];
  }

  // ---------------------------------------------------------- version format

  /**
   * The regular expression `\d+\.\d+\.\d+` as a definition: the string is
   * cut at positions i and j into three non-empty digit runs separated by
   * the two dots.
   */
  ghost predicate VersionSplit(s: string, i: int, j: int)
  {
    && 0 < i && i + 1 < j && j + 1 < |s|
    && AllDigits(s[..i]) && s[i] == '.' && AllDigits(s[i + 1..j]) && s[j] == '.' && AllDigits(s[j + 1..])
  }

  ghost predicate IsVersion(s: string)
  {
    exists i, j :: VersionSplit(s, i, j)
  }

  /**
   * The matcher for `\d+\.\d+\.\d+` as an automaton. State 2g expects the
   * first digit of group g; state 2g+1 is inside group g, where a digit
   * stays and (for the first two groups) a dot moves to the next group.
   */
  function Matches(s: string, state: nat): bool
    requires state <= 5
  {
    if s == [] then state == 5
    else if IsDigit(s[0]) then Matches(s[1..], if state % 2 == 0 then state + 1 else state)
    else if s[0] == '.' && (state == 1 || state == 3) then Matches(s[1..], state + 1)
    else false
  }

  /** Inside the last group the automaton accepts exactly the digit strings. */
  lemma {:induction false} MatchesLastGroup(s: string)
    ensures Matches(s, 5) <==> AllDigits(s)
  {
    if s != [] {
      MatchesLastGroup(s[1..]);
      if IsDigit(s[0]) && AllDigits(s[1..]) {
        assert forall k :: 0 < k < |s| ==> s[k] == s[1..][k - 1];
      }
    }
  }

  /** Inside group 1 or 2, the group's digits end at position j with a dot, and the rest is matched from the next group. */
  ghost predicate DotAt(s: string, j: int, state: nat)
    requires state == 1 || state == 3
  {
    0 <= j < |s| && AllDigits(s[..j]) && s[j] == '.' && Matches(s[j + 1..], state + 1)
  }

  /** What the automaton accepts inside group 1 or 2 has a dot that closes the group. */
  lemma {:induction false} InnerGroupDot(s: string, state: nat) returns (j: nat)
    requires state == 1 || state == 3
    requires Matches(s, state)
    ensures DotAt(s, j, state)
  {
    if s[0] == '.' {
      j := 0;
    } else {
      var k := InnerGroupDot(s[1..], state);
      j := k + 1;
      assert s[..j] == [s[0]] + s[1..][..k];
      assert s[j + 1..] == s[1..][k + 1..];
    }
  }

  /** A dot closing the group at j is accepted by the automaton inside group 1 or 2. */
  lemma {:induction false} DotInnerGroup(s: string, state: nat, j: nat)
    requires state == 1 || state == 3
    requires DotAt(s, j, state)
    ensures Matches(s, state)
  {
    if j > 0 {
      assert s[..j][0] == s[0];
      assert s[1..][..j - 1] == s[1..j];
      assert s[1..][j..] == s[j + 1..];
      DotInnerGroup(s[1..], state, j - 1);
    }
  }

  /** The automaton recognises exactly the strings of the regular expression. */
  lemma MatchesIsVersion(s: string)
    ensures Matches(s, 0) <==> IsVersion(s)
  {
    if Matches(s, 0) {
      var t := s[1..];
      var a := InnerGroupDot(t, 1);
      var u := t[a + 1..];
      var b := InnerGroupDot(u[1..], 3);
      var w := u[1..][b + 1..];
      MatchesLastGroup(w[1..]);
      var i, j := a + 1, a + b + 3;
      assert s[..i] == [s[0]] + t[..a];
      assert s[i + 1..j] == [u[0]] + u[1..][..b];
      assert s[j + 1..] == w;
      assert VersionSplit(s, i, j);
    }
    if IsVersion(s) {
      var i, j :| VersionSplit(s, i, j);
      VersionAccepted(s, i, j);
    }
  }

  lemma VersionAccepted(s: string, i: int, j: int)
    requires VersionSplit(s, i, j)
    ensures Matches(s, 0)
  {
    var t, u, w := s[1..], s[i + 1..], s[j + 1..];
    assert IsDigit(w[0]) by { assert w[0] == s[j + 1..][0]; }
    assert AllDigits(w[1..]) by { assert forall k :: 0 <= k < |w| - 1 ==> w[1..][k] == s[j + 1..][k + 1]; }
    MatchesLastGroup(w[1..]);
    assert Matches(w, 4);
    assert u[1..][j - i - 1..] == w;
    assert u[1..][..j - i - 2] == s[i + 1..j][1..];
    assert u[1..][j - i - 2] == s[j];
    DotInnerGroup(u[1..], 3, j - i - 2);
    assert IsDigit(u[0]) by { assert u[0] == s[i + 1..j][0]; }
    assert Matches(u, 2);
    assert t[i..] == u && t[i - 1] == s[i];
    assert t[..i - 1] == s[..i][1..];
    DotInnerGroup(t, 1, i - 1);
    assert IsDigit(s[0]) by { assert s[0] == s[..i][0]; }
  }

  /** `validateVersionFormat`: passes exactly the strings of the form digits.digits.digits and returns nothing. */
  function ValidateVersionFormat(version: string): (r: Outcome<ValidationError>)
    ensures r.Pass? <==> IsVersion(version)
    ensures r.Fail? ==> r.error == InvalidVersionFormat(VersionMessage)
  {
    MatchesIsVersion(version);
    if Matches(version, 0) then Pass else Fail(InvalidVersionFormat(VersionMessage))
  }

  /** Any three non-empty digit runs joined by dots form a valid version. */
  lemma VersionOfNumbers(a: string, b: string, c: string)
    requires |a| > 0 && |b| > 0 && |c| > 0 && AllDigits(a) && AllDigits(b) && AllDigits(c)
    ensures ValidateVersionFormat(a + "." + b + "." + c) == Pass
  {
    var s := a + "." + b + "." + c;
    assert s[..|a|] == a && s[|a| + 1..|a| + 1 + |b|] == b && s[|a| + |b| + 2..] == c;
    assert VersionSplit(s, |a|, |a| + 1 + |b|);
  }

  /** A valid version holds exactly two dots and otherwise only digits, so it has no dash. */
  lemma VersionCharacters(s: string)
    requires ValidateVersionFormat(s) == Pass
    ensures forall k :: 0 <= k < |s| ==> IsDigit(s[k]) || s[k] == '.'
  {
    var i, j :| VersionSplit(s, i, j);
    forall k | 0 <= k < |s| ensures IsDigit(s[k]) || s[k] == '.' {
      if k < i { assert s[k] == s[..i][k]; }
      else if i < k < j { assert s[k] == s[i + 1..j][k - i - 1]; }
      else if j < k { assert s[k] == s[j + 1..][k - j - 1]; }
    }
  }

  lemma VersionExamples()
    ensures ValidateVersionFormat("1.2.3") == Pass
    ensures ValidateVersionFormat("1.2").Fail?
    ensures ValidateVersionFormat("a.b.c").Fail?
    ensures ValidateVersionFormat("1.2.3.4").Fail?
  {
    assert Matches("1.2.3", 0);
    assert !Matches("1.2", 0);
    assert !Matches("a.b.c", 0);
    assert !Matches("1.2.3.4", 0);
  }
}
