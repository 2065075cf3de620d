/**
 Decimal text of a C# `int`, as `Int32.ToString()` writes it and as
 `int.Parse` reads it, both under the invariant culture: negative sign `-`,
 positive sign `+`, ASCII digits.

 `int.Parse` uses the number style `Integer`: optional leading and trailing
 white space, an optional sign, then one or more digits. Text that does not
 match fails with a format error; matching text whose value lies outside the
 32-bit range fails with an overflow error; a null string fails with an
 argument-null error for the parameter `s`.
 */
module DecimalText {
  import opened Types

  predicate IsDigit(c: char) { '0' <= c <= '9' }

  /** The white space `int.Parse` skips: U+0009 to U+000D and U+0020. */
  predicate IsWhite(c: char) { c == ' ' || '\t' <= c <= '\r' }

  predicate AllDigits(s: string) { forall i :: 0 <= i < |s| ==> IsDigit(s[i]) }

  predicate AllWhite(s: string) { forall i :: 0 <= i < |s| ==> IsWhite(s[i]) }

  function DigitValue(c: char): (d: nat)
    requires IsDigit(c)
    ensures d < 10
  {
    c as int - '0' as int
  }

  function DigitChar(d: nat): (c: char)
    requires d < 10
    ensures IsDigit(c) && DigitValue(c) == d
  {
    ('0' as int + d) as char
  }

  /** The value of a string of digits, read most significant digit first. */
  function DigitsValue(s: string): nat
    requires AllDigits(s)
  {
    if s == [] then 0 else 10 * DigitsValue(s[..|s| - 1]) + DigitValue(s[|s| - 1])
  }

  /** The digits of an unsigned integer as `ToString()` writes them: no leading zeros, except in "0". */
  predicate IsCanonicalNatText(s: string) {
    |s| >= 1 && AllDigits(s) && (s[0] == '0' ==> |s| == 1)
  }

  /** The text `Int32.ToString()` can produce: canonical digits, with `-` in front exactly for negative values. */
  predicate IsCanonicalIntText(s: string) {
    || IsCanonicalNatText(s)
    || (|s| >= 2 && s[0] == '-' && s[1] != '0' && IsCanonicalNatText(s[1..]))
  }

  /** An optionally signed, non-empty string of digits: the part of `int.Parse`'s input between the white space. */
  predicate IsSignedDigits(s: string) {
    || (|s| >= 1 && AllDigits(s))
    || (|s| >= 2 && (s[0] == '+' || s[0] == '-') && AllDigits(s[1..]))
  }

  /** The value an optionally signed string of digits denotes. */
  function SignedValue(s: string): int
    requires IsSignedDigits(s)
  {
    if s[0] == '-' then -(DigitsValue(s[1..]) as int)
    else if s[0] == '+' then DigitsValue(s[1..])
    else DigitsValue(s)
  }

  /** Text `int.Parse` accepts: white space, an optionally signed digit string, white space. */
  ghost predicate IsIntegerSyntax(t: string) {
    exists i, j :: 0 <= i <= j <= |t| && AllWhite(t[..i]) && AllWhite(t[j..]) && IsSignedDigits(t[i..j])
  }

  // ---------------------------------------------------------------------------
  // Formatting: Int32.ToString()

  /** The decimal digits of `n`. */
  function NatToDigits(n: nat): (s: string)
    ensures IsCanonicalNatText(s)
    ensures DigitsValue(s) == n
  {
    if n < 10 then [DigitChar(n)]
    else
      var prefix := NatToDigits(n / 10);
      var s := prefix + [DigitChar(n % 10)];
      assert s[..|s| - 1] == prefix;
      s
  }

  /** `x.ToString()` for a C# `int` under the invariant culture. */
  function IntToDecimalString(x: int): (s: string)
    ensures IsCanonicalIntText(s)
    ensures IsSignedDigits(s) && SignedValue(s) == x
    ensures s[0] == '-' <==> x < 0
  {
    if x < 0 then
      var digits := NatToDigits(-x);
      var s := "-" + digits;
      assert s[1..] == digits;
      s
    else NatToDigits(x)
  }

  // ---------------------------------------------------------------------------
  // Parsing: int.Parse(string)

  /** `s` without its leading white space. */
  function TrimStart(s: string): (r: string)
    ensures |r| <= |s| && r == s[|s| - |r|..]
    ensures AllWhite(s[..|s| - |r|])
    ensures r == [] || !IsWhite(r[0])
  {
    if s != [] && IsWhite(s[0]) then
      var r := TrimStart(s[1..]);
      assert s[..|s| - |r|] == [s[0]] + s[1..][..|s| - 1 - |r|];
      r
    else s
  }

  /** `s` without its trailing white space. */
  function TrimEnd(s: string): (r: string)
    ensures |r| <= |s| && r == s[..|r|]
    ensures AllWhite(s[|r|..])
    ensures r == [] || !IsWhite(r[|r| - 1])
  {
    if s != [] && IsWhite(s[|s| - 1]) then
      var r := TrimEnd(s[..|s| - 1]);
      assert s[|r|..] == s[..|s| - 1][|r|..] + [s[|s| - 1]];
      r
    else s
  }

  /** `int.Parse(s)` under the invariant culture. A format error takes precedence over an overflow. */
  function ParseInt32(s: Option<string>): (r: Result<Int32>)
    ensures s.None? <==> r == Err(ArgumentNull("s"))
    ensures r.Err? ==> r.error == ArgumentNull("s") || r.error == Format || r.error == Overflow
    ensures r.Ok? ==> s.Some? && exists k :: 0 <= k < |s.value| && IsDigit(s.value[k])
  {
    match s
    case None => Err(ArgumentNull("s"))
    case Some(t) =>
      var body := TrimEnd(TrimStart(t));
      if !IsSignedDigits(body) then Err(Format)
      else
        var v := SignedValue(body);
        if MinInt32 <= v <= MaxInt32 then Ok(v) else Err(Overflow)
  }

  // ---------------------------------------------------------------------------
  // Properties of the parser

  /** A null string is refused with the argument-null error for `s`. */
  lemma ParseNull()
    ensures ParseInt32(None) == Err(ArgumentNull("s"))
  {
  }

  /** Trimming the start stops at the first character that is not white space. */
  lemma {:induction false} TrimStartAt(t: string, i: nat)
    requires i < |t| && AllWhite(t[..i]) && !IsWhite(t[i])
    ensures TrimStart(t) == t[i..]
  {
    if i > 0 {
      assert t[1..][..i - 1] == t[..i][1..];
      TrimStartAt(t[1..], i - 1);
      assert t[1..][i - 1..] == t[i..];
    }
  }

  /** Trimming the end stops at the last character that is not white space. */
  lemma {:induction false} TrimEndAt(t: string, j: nat)
    requires 0 < j <= |t| && AllWhite(t[j..]) && !IsWhite(t[j - 1])
    ensures TrimEnd(t) == t[..j]
  {
    if j < |t| {
      var t' := t[..|t| - 1];
      assert t'[j..] == t[j..][..|t| - 1 - j];
      TrimEndAt(t', j);
      assert t'[..j] == t[..j];
    }
  }

  /** A signed digit string neither starts nor ends with white space. */
  lemma SignedDigitsEnds(s: string)
    requires IsSignedDigits(s)
    ensures |s| >= 1 && !IsWhite(s[0]) && IsDigit(s[|s| - 1])
  {
    if !AllDigits(s) {
      assert s[1..][|s| - 2] == s[|s| - 1];
    }
  }

  /** Trimming the end of a suffix stops at the last character that is not white space. */
  lemma TrimEndFrom(t: string, i: nat, j: nat)
    requires i < j <= |t| && AllWhite(t[j..]) && !IsWhite(t[j - 1])
    ensures TrimEnd(t[i..]) == t[i..j]
  {
    var u := t[i..];
    assert u[j - i - 1] == t[j - 1];
    assert u[j - i..] == t[j..];
    TrimEndAt(u, j - i);
    assert u[..j - i] == t[i..j];
  }

  /** Trimming removes exactly the white space around a part that starts and ends with non-white characters. */
  lemma TrimAround(t: string, i: nat, j: nat)
    requires i < j <= |t|
    requires AllWhite(t[..i]) && AllWhite(t[j..])
    requires !IsWhite(t[i]) && !IsWhite(t[j - 1])
    ensures TrimEnd(TrimStart(t)) == t[i..j]
  {
    TrimStartAt(t, i);
    TrimEndFrom(t, i, j);
  }

  /** Text with the integer syntax parses to its value, or overflows when the value is out of range. */
  lemma ParseAccepts(t: string, i: nat, j: nat)
    requires i <= j <= |t|
    requires AllWhite(t[..i]) && AllWhite(t[j..]) && IsSignedDigits(t[i..j])
    ensures var v := SignedValue(t[i..j]);
      ParseInt32(Some(t)) == if MinInt32 <= v <= MaxInt32 then Ok(v) else Err(Overflow)
  {
    SignedDigitsEnds(t[i..j]);
    assert t[i..j][0] == t[i] && t[i..j][j - i - 1] == t[j - 1];
    TrimAround(t, i, j);
  }

  /** `int.Parse` fails with the format error exactly on text without the integer syntax. */
  lemma ParseFormatIff(t: string)
    ensures ParseInt32(Some(t)) == Err(Format) <==> !IsIntegerSyntax(t)
  {
    forall i, j | 0 <= i <= j <= |t| && AllWhite(t[..i]) && AllWhite(t[j..]) && IsSignedDigits(t[i..j])
      ensures ParseInt32(Some(t)) != Err(Format)
    {
      ParseAccepts(t, i, j);
    }
    if ParseInt32(Some(t)) != Err(Format) {
      ParseOkOrOverflowHasSyntax(t);
    }
  }

  /** Whatever does not fail with the format error is white space around a signed digit string, and
      a successful parse returns the value of that string. */
  lemma ParseOkOrOverflowHasSyntax(t: string)
    requires ParseInt32(Some(t)) != Err(Format)
    ensures exists i, j ::
      && 0 <= i <= j <= |t| && AllWhite(t[..i]) && AllWhite(t[j..]) && IsSignedDigits(t[i..j])
      && (ParseInt32(Some(t)).Ok? ==> SignedValue(t[i..j]) == ParseInt32(Some(t)).value)
  {
    var u := TrimStart(t);
    var w := TrimEnd(u);
    var i := |t| - |u|;
    var j := i + |w|;
    assert t[i..j] == w;
    assert t[j..] == u[|w|..];
    assert AllWhite(t[..i]) && AllWhite(t[j..]) && IsSignedDigits(t[i..j]);
  }

  // ---------------------------------------------------------------------------
  // Formatting and parsing are inverse

  /** Leading zeros do not change the value of a digit string. */
  lemma {:induction false} DigitsValueLeadingZeros(z: string, s: string)
    requires forall k :: 0 <= k < |z| ==> z[k] == '0'
    requires AllDigits(s)
    ensures AllDigits(z + s) && DigitsValue(z + s) == DigitsValue(s)
  {
    if s == [] {
      assert z + s == z;
      DigitsValueAllZeros(z);
    } else {
      var s' := s[..|s| - 1];
      DigitsValueLeadingZeros(z, s');
      assert (z + s)[..|z + s| - 1] == z + s';
    }
  }

  lemma {:induction false} DigitsValueAllZeros(z: string)
    requires forall k :: 0 <= k < |z| ==> z[k] == '0'
    ensures AllDigits(z) && DigitsValue(z) == 0
  {
    if z != [] {
      DigitsValueAllZeros(z[..|z| - 1]);
    }
  }

  /** A digit string starting with a non-zero digit has a positive value. */
  lemma {:induction false} DigitsValuePositive(s: string)
    requires |s| >= 1 && AllDigits(s) && s[0] != '0'
    ensures DigitsValue(s) > 0
  {
    if |s| > 1 {
      DigitsValuePositive(s[..|s| - 1]);
    }
  }

  /** The canonical digits of a value are the only canonical digits with that value. */
  lemma {:induction false} NatToDigitsOfCanonical(s: string)
    requires IsCanonicalNatText(s)
    ensures NatToDigits(DigitsValue(s)) == s
  {
    if |s| > 1 {
      var s' := s[..|s| - 1];
      var c := s[|s| - 1];
      assert s'[0] == s[0] && IsCanonicalNatText(s');
      DigitsValuePositive(s');
      NatToDigitsOfCanonical(s');
      var n := DigitsValue(s);
      var d := DigitValue(c);
      assert n == 10 * DigitsValue(s') + d && d < 10;
      assert n / 10 == DigitsValue(s') && n % 10 == d;
      assert DigitChar(d) == c;
      assert s == s' + [c];
    }
  }

  /** Parse after format is the identity on 32-bit integers. */
  lemma ParseFormatRoundTrip(x: Int32)
    ensures ParseInt32(Some(IntToDecimalString(x))) == Ok(x)
  {
    var s := IntToDecimalString(x);
    assert s[..0] == [] && s[|s|..] == [] && s[0..|s|] == s;
    ParseAccepts(s, 0, |s|);
  }

  /** Formatting the value of canonical text gives back the text: each value has one canonical spelling. */
  lemma {:induction false} FormatOfCanonical(t: string)
    requires IsCanonicalIntText(t)
    ensures IsSignedDigits(t) && IntToDecimalString(SignedValue(t)) == t
  {
    if t[0] == '-' {
      var digits := t[1..];
      assert digits[0] == t[1];
      NatToDigitsOfCanonical(digits);
      DigitsValuePositive(digits);
      assert SignedValue(t) == -(DigitsValue(digits) as int) < 0;
      assert t == "-" + digits;
    } else {
      NatToDigitsOfCanonical(t);
    }
  }

  /** Canonical text of a 32-bit value parses to that value. */
  lemma ParseOfCanonical(t: string)
    requires IsCanonicalIntText(t)
    requires MinInt32 <= SignedValue(t) <= MaxInt32
    ensures ParseInt32(Some(t)) == Ok(SignedValue(t))
  {
    assert t[..0] == [] && t[|t|..] == [] && t[0..|t|] == t;
    ParseAccepts(t, 0, |t|);
  }

  /** Format after parse is the identity on canonical text: the formatter writes the only canonical spelling of a value. */
  lemma FormatParseRoundTrip(t: string)
    requires IsCanonicalIntText(t)
    requires MinInt32 <= SignedValue(t) <= MaxInt32
    ensures ParseInt32(Some(t)) == Ok(SignedValue(t))
    ensures IntToDecimalString(SignedValue(t)) == t
  {
    ParseOfCanonical(t);
    FormatOfCanonical(t);
  }

  /** Accepted text that is not canonical does not come back as written: "007" is read as 7, which is written "7". */
  lemma LeadingZerosExample()
    ensures ParseInt32(Some("007")) == Ok(7) && IntToDecimalString(7) == "7"
  {
    var a := "007";
    assert a == "00" + "7";
    DigitsValueLeadingZeros("00", "7");
    assert DigitsValue("7") == 7;
    assert IsSignedDigits(a) && SignedValue(a) == 7;
    assert a[..0] == [] && a[3..] == [] && a[0..3] == a;
    ParseAccepts(a, 0, 3);
  }

  /** An explicit plus sign is accepted and dropped: "+7" is read as 7. */
  lemma PlusSignExample()
    ensures ParseInt32(Some("+7")) == Ok(7)
  {
    var b := "+7";
    assert b[1..] == "7";
    assert DigitsValue("7") == 7;
    assert IsSignedDigits(b) && SignedValue(b) == 7;
    assert b[..0] == [] && b[2..] == [] && b[0..2] == b;
    ParseAccepts(b, 0, 2);
  }

  /** Surrounding white space and a negative zero are accepted: " -0 " is read as 0, which is written "0". */
  lemma NegativeZeroExample()
    ensures ParseInt32(Some(" -0 ")) == Ok(0) && IntToDecimalString(0) == "0"
  {
    var c := " -0 ";
    var d := "-0";
    assert d[1..] == "0";
    assert DigitsValue("0") == 0;
    assert IsSignedDigits(d) && SignedValue(d) == 0;
    assert c[..1] == " " && c[3..] == " " && c[1..3] == d;
    ParseAccepts(c, 1, 3);
  }

  /** Text without white space at either end is parsed as it stands. */
  lemma TrimNothing(t: string)
    requires t != [] && !IsWhite(t[0]) && !IsWhite(t[|t| - 1])
    ensures TrimEnd(TrimStart(t)) == t
  {
    assert t[..0] == [];
    TrimStartAt(t, 0);
    assert t[|t|..] == [] && t[..|t|] == t;
    TrimEndAt(t, |t|);
  }

  /** Text whose first character is neither white space, a sign nor a digit is a format error. */
  lemma ParseRejectsBadStart(t: string)
    requires t != [] && !IsWhite(t[0]) && !IsDigit(t[0]) && t[0] != '+' && t[0] != '-'
    ensures ParseInt32(Some(t)) == Err(Format)
  {
    assert t[..0] == [];
    TrimStartAt(t, 0);
    var body := TrimEnd(t);
    assert body != [] ==> body[0] == t[0];
    assert body == [] || !IsSignedDigits(body);
  }

  /** White space between the first and the last non-white character is a format error. */
  lemma ParseRejectsInnerWhiteAt(t: string, k: nat)
    requires 0 < k < |t| - 1 && IsWhite(t[k])
    requires !IsWhite(t[0]) && !IsWhite(t[|t| - 1])
    ensures ParseInt32(Some(t)) == Err(Format)
  {
    TrimNothing(t);
    assert t[1..][k - 1] == t[k];
  }

  /** A non-numeric id such as "abc" is a format error. */
  lemma ParseRejectsLetters()
    ensures ParseInt32(Some("abc")) == Err(Format)
  {
    ParseRejectsBadStart("abc");
  }

  /** Empty text is a format error: at least one digit is needed. */
  lemma ParseRejectsEmpty()
    ensures ParseInt32(Some("")) == Err(Format)
  {
  }

  /** White space inside the number is a format error: "1 2" is not read as 12. */
  lemma ParseRejectsInnerWhite()
    ensures ParseInt32(Some("1 2")) == Err(Format)
  {
    ParseRejectsInnerWhiteAt("1 2", 1);
  }
}
