/** The parts of Go's strconv package that the bridge relies on:
    Atoi and Itoa for decimal integers, ParseBool and FormatBool for booleans.
    Integers are unbounded here; Go's 64-bit `int` range is stated explicitly. */
module Strconv {
  import opened Results

  const MinInt64: int := -0x8000_0000_0000_0000
  const MaxInt64: int := 0x7fff_ffff_ffff_ffff

  predicate InInt64(i: int) {
    MinInt64 <= i <= MaxInt64
  }

  predicate IsDigit(c: char) {
    '0' <= c <= '9'
  }

  predicate AllDigits(s: string) {
    forall k :: 0 <= k < |s| ==> IsDigit(s[k])
  }

  function DigitValue(c: char): (d: nat)
    requires IsDigit(c)
    ensures d < 10
  {
    c as int - '0' as int
  }

  function DigitChar(d: nat): (c: char)
    requires d < 10
    ensures IsDigit(c) && DigitValue(c) == d
  {
    ('0' as int + d) as char
  }

  /** The number a run of decimal digits denotes, most significant digit first
      (the empty run denotes 0). */
  function DigitsValue(s: string): nat
    requires AllDigits(s)
  {
    if |s| == 0 then 0 else 10 * DigitsValue(s[..|s| - 1]) + DigitValue(s[|s| - 1])
  }

  /** Shortest decimal spelling of a natural number: never empty, only digits,
      and no leading zero except for 0 itself. */
  function Digits(n: nat): (s: string)
    ensures |s| > 0 && AllDigits(s)
    ensures s[0] == '0' ==> n == 0
    ensures n < 10 <==> |s| == 1
  {
    if n < 10 then [DigitChar(n)] else Digits(n / 10) + [DigitChar(n % 10)]
  }

  /** strconv.Itoa: a minus sign for negative values, then the digits of the magnitude. */
  function Itoa(i: int): (s: string)
    ensures |s| > 0 && (s[0] == '-' <==> i < 0)
    ensures s[0] != '+' && AllDigits(if i < 0 then s[1..] else s)
    ensures i < 0 ==> |s| > 1 && s[1] != '0'
    ensures i >= 0 && s[0] == '0' ==> s == "0"
  {
    if i < 0 then "-" + Digits(-i) else Digits(i)
  }

  /** The text after an optional leading '+' or '-'. */
  function Unsigned(s: string): (u: string)
    ensures |u| <= |s|
  {
    if |s| > 0 && (s[0] == '+' || s[0] == '-') then s[1..] else s
  }

  /** strconv.Atoi: an optional sign followed by one or more ASCII digits whose
      value fits Go's 64-bit int; anything else (empty text, a lone sign, a
      space, an underscore, a non-digit, an out-of-range value) is an error. */
  function Atoi(s: string): (r: Option<int>)
    ensures r.Some? ==> InInt64(r.value)
    ensures r.Some? ==> |Unsigned(s)| > 0 && AllDigits(Unsigned(s))
    ensures r.Some? ==> (r.value < 0 ==> s[0] == '-')
  {
    var body := Unsigned(s);
    if |body| == 0 || !AllDigits(body) then None
    else
      var magnitude: int := DigitsValue(body);
      var v := if s[0] == '-' then -magnitude else magnitude;
      if InInt64(v) then Some(v) else None
  }

  const TrueSpellings: set<string> := {"1", "t", "T", "TRUE", "true", "True"}
  const FalseSpellings: set<string> := {"0", "f", "F", "FALSE", "false", "False"}

  /** strconv.ParseBool: exactly twelve spellings are accepted; everything else,
      including other capitalisations and surrounding spaces, is an error. */
  function ParseBool(s: string): (r: Option<bool>)
    ensures r == Some(true) <==> s in TrueSpellings
    ensures r == Some(false) <==> s in FalseSpellings
    ensures r == None <==> s !in TrueSpellings + FalseSpellings
  {
    match s
    case "1" => Some(true)
    case "t" => Some(true)
    case "T" => Some(true)
    case "TRUE" => Some(true)
    case "true" => Some(true)
    case "True" => Some(true)
    case "0" => Some(false)
    case "f" => Some(false)
    case "F" => Some(false)
    case "FALSE" => Some(false)
    case "false" => Some(false)
    case "False" => Some(false)
    case _ => None
  }

  /** strconv.FormatBool. */
  function FormatBool(b: bool): (s: string)
    ensures s in (if b then TrueSpellings else FalseSpellings)
    ensures s == "true" || s == "false"
  {
    if b then "true" else "false"
  }

  /** Reading back the digits of n gives n. */
  lemma {:induction false} DigitsRoundTrip(n: nat)
    ensures DigitsValue(Digits(n)) == n
  {
    var s := Digits(n);
    if n >= 10 {
      DigitsRoundTrip(n / 10);
      assert s[..|s| - 1] == Digits(n / 10);
    }
  }

  /** Atoi inverts Itoa on Go's whole int range. */
  lemma AtoiItoa(i: int)
    requires InInt64(i)
    ensures Atoi(Itoa(i)) == Some(i)
  {
    var s := Itoa(i);
    var magnitude: nat := if i < 0 then -i else i;
    var d := Digits(magnitude);
    assert s == (if i < 0 then "-" + d else d);
    assert Unsigned(s) == d by {
      if i < 0 { assert s[1..] == d; }
    }
    DigitsRoundTrip(magnitude);
    AtoiAccepts(s);
  }

  /** ParseBool inverts FormatBool. */
  lemma ParseFormatBool(b: bool)
    ensures ParseBool(FormatBool(b)) == Some(b)
  {
  }

  /** Go's Atoi on a few payloads: a sign and leading zeros are fine; spaces,
      letters and the empty text are not. */
  lemma AtoiExamples()
    ensures Atoi("50") == Some(50)
    ensures Atoi("+050") == Some(50)
    ensures Atoi("101") == Some(101)
    ensures Atoi("-1") == Some(-1)
    ensures Atoi("abc") == None
    ensures Atoi(" 50") == None
    ensures Atoi("") == None
  {
    assert "50"[..1] == "5";
    assert Unsigned("+050") == "050";
    assert DigitsValue("050") == 50 by {
      assert "050"[..2] == "05" && "05"[..1] == "0";
    }
    assert "101"[..2] == "10" && "10"[..1] == "1";
    assert Unsigned("-1") == "1";
    assert !IsDigit(' ') && !IsDigit('a');
  }

  /** The converse of Atoi's contract: an optional sign and at least one digit
      whose signed value fits Go's int is accepted, with that value; the value
      is negative exactly when the text starts with '-' and is not all zeros. */
  lemma AtoiAccepts(s: string)
    requires |Unsigned(s)| > 0 && AllDigits(Unsigned(s))
    requires InInt64(if s[0] == '-' then -(DigitsValue(Unsigned(s)) as int) else DigitsValue(Unsigned(s)))
    ensures Atoi(s).Some?
    ensures Atoi(s).value == DigitsValue(Unsigned(s)) || Atoi(s).value == -(DigitsValue(Unsigned(s)) as int)
    ensures Atoi(s).value < 0 <==> s[0] == '-' && DigitsValue(Unsigned(s)) != 0
  {
  }

  /** The rest of the converse: an optional sign and at least one digit whose
      signed value lies outside Go's int is a range error. */
  lemma AtoiRejectsOutOfRange(s: string)
    requires |Unsigned(s)| > 0 && AllDigits(Unsigned(s))
    requires !InInt64(if s[0] == '-' then -(DigitsValue(Unsigned(s)) as int) else DigitsValue(Unsigned(s)))
    ensures Atoi(s) == None
  {
  }

  /** A zero after the optional sign does not change what Atoi reads:
      "+050" reads as "+50", "007" as "07", and "-0" as 0. */
  lemma AtoiLeadingZero(sign: string, s: string)
    requires sign == "" || sign == "+" || sign == "-"
    requires sign == "" && |s| > 0 ==> s[0] != '+' && s[0] != '-'
    ensures |s| > 0 ==> Atoi(sign + "0" + s) == Atoi(sign + s)
    ensures Atoi(sign + "0") == Some(0)
  {
    var long := sign + "0" + s;
    assert Unsigned(long) == "0" + s by {
      if sign == "" { assert long == "0" + s; } else { assert long[1..] == "0" + s; }
    }
    assert Unsigned(sign + "0") == "0" by {
      if sign != "" { assert (sign + "0")[1..] == "0"; }
    }
    assert DigitsValue("0") == 0 by { assert "0"[..0] == ""; }
    if |s| > 0 {
      var short := sign + s;
      assert Unsigned(short) == s by {
        if sign != "" { assert short[1..] == s; }
      }
      assert (long[0] == '-') == (short[0] == '-');
      if AllDigits(s) {
        DigitsValueLeadingZero(s);
      } else {
        var k :| 0 <= k < |s| && !IsDigit(s[k]);
        assert ("0" + s)[k + 1] == s[k];
      }
    }
  }

  /** A leading zero does not change the value of a run of digits. */
  lemma {:induction false} DigitsValueLeadingZero(s: string)
    requires AllDigits(s)
    ensures AllDigits("0" + s) && DigitsValue("0" + s) == DigitsValue(s)
  {
    var t := "0" + s;
    assert AllDigits(t) by {
      forall k | 0 <= k < |t| ensures IsDigit(t[k]) {
        if k > 0 { assert t[k] == s[k - 1]; }
      }
    }
    if |s| > 0 {
      assert t[..|t| - 1] == "0" + s[..|s| - 1];
      DigitsValueLeadingZero(s[..|s| - 1]);
    }
  }
}
