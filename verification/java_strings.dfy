/** The pieces of `java.lang.String` and `java.lang.Integer` that the builders rely on:
    `trim()`, `startsWith`/`endsWith`, `Integer.parseInt` and the decimal rendering of an
    `int` in string concatenation. */
module JavaStrings {
  import opened Wrappers

  /** Java's 32-bit `int`. */
  newtype int32 = x: int | -0x8000_0000 <= x < 0x8000_0000

  predicate StartsWith(s: string, prefix: string)
  {
    |prefix| <= |s| && s[..|prefix|] == prefix
  }

  predicate EndsWith(s: string, suffix: string)
  {
    |suffix| <= |s| && s[|s| - |suffix|..] == suffix
  }

  // ---------------------------------------------------------------------------
  // String.trim()
  // ---------------------------------------------------------------------------

  /** `trim()` removes every leading and trailing character whose code is at most U+0020. */
  predicate IsTrimmed(c: char)
  {
    c <= ' '
  }

  /** Every character of `s` is one that `trim()` removes. */
  predicate AllTrimmed(s: string)
  {
    forall i :: 0 <= i < |s| ==> IsTrimmed(s[i])
  }

  /** `s` without its leading characters at most U+0020 (which characters go is
      `TrimStartDropsBlanks`). */
  function TrimStart(s: string): (r: string)
    ensures |r| <= |s| && r == s[|s| - |r|..]
    ensures |r| > 0 ==> !IsTrimmed(r[0])
  {
    if |s| > 0 && IsTrimmed(s[0]) then TrimStart(s[1..]) else s
  }

  /** `s` without its trailing characters at most U+0020 (which characters go is
      `TrimEndDropsBlanks`). */
  function TrimEnd(s: string): (r: string)
    ensures |r| <= |s| && r == s[..|r|]
    ensures |r| > 0 ==> !IsTrimmed(r[|r| - 1])
  {
    if |s| > 0 && IsTrimmed(s[|s| - 1]) then TrimEnd(s[..|s| - 1]) else s
  }

  /** Only characters at most U+0020 are dropped from the front. */
  lemma {:induction false} TrimStartDropsBlanks(s: string)
    ensures forall i :: 0 <= i < |s| - |TrimStart(s)| ==> IsTrimmed(s[i])
    decreases |s|
  {
    if |s| > 0 && IsTrimmed(s[0]) {
      TrimStartDropsBlanks(s[1..]);
      forall i | 1 <= i < |s| - |TrimStart(s)|
        ensures IsTrimmed(s[i])
      {
        assert s[i] == s[1..][i - 1];
      }
    }
  }

  /** Only characters at most U+0020 are dropped from the back. */
  lemma {:induction false} TrimEndDropsBlanks(s: string)
    ensures forall i :: |TrimEnd(s)| <= i < |s| ==> IsTrimmed(s[i])
    decreases |s|
  {
    if |s| > 0 && IsTrimmed(s[|s| - 1]) {
      var p := s[..|s| - 1];
      TrimEndDropsBlanks(p);
      forall i | |TrimEnd(s)| <= i < |s| - 1
        ensures IsTrimmed(s[i])
      {
        assert s[i] == p[i];
      }
    }
  }

  /** `s.trim()`. */
  function Trim(s: string): string
  {
    TrimEnd(TrimStart(s))
  }

  /** `s.trim().isEmpty()`. */
  predicate IsBlank(s: string)
  {
    Trim(s) == ""
  }

  /** A string is blank exactly when every character of it is one that `trim()` removes. */
  lemma {:induction false} BlankIff(s: string)
    ensures IsBlank(s) <==> AllTrimmed(s)
  {
    TrimKeepsMiddle(s);
    TrimDropsOnlyBlanks(s);
    var t := Trim(s);
    var i := |s| - |TrimStart(s)|;
    if t == "" {
      // nothing is left after the front is dropped, since what is left would start above U+0020
      assert i == |s|;
      forall k | 0 <= k < |s|
        ensures IsTrimmed(s[k])
      {
        assert s[k] == s[..i][k];
      }
    } else {
      assert s[i] == t[0];
    }
  }

  /** `trim()` cuts `s` to its middle: what it keeps is a slice of `s` that starts and ends
      above U+0020. */
  lemma {:induction false} TrimKeepsMiddle(s: string)
    ensures
      var t := Trim(s);
      var i := |s| - |TrimStart(s)|;
      && i + |t| <= |s|
      && t == s[i..i + |t|]
      && (|t| > 0 ==> !IsTrimmed(t[0]) && !IsTrimmed(t[|t| - 1]))
  {
    SliceOfSlice(s, TrimStart(s), Trim(s));
  }

  /** A prefix `t` of a suffix `u` of `s` is a slice of `s`, and it starts where `u` starts. */
  lemma {:induction false} SliceOfSlice(s: string, u: string, t: string)
    requires |u| <= |s| && u == s[|s| - |u|..]
    requires |t| <= |u| && t == u[..|t|]
    ensures
      var i := |s| - |u|;
      && i + |t| <= |s|
      && t == s[i..i + |t|]
      && (|t| > 0 ==> t[0] == u[0])
  {
  }

  /** What `trim()` removes lies at the two ends of `s` and is made only of characters at
      most U+0020. */
  lemma {:induction false} TrimDropsOnlyBlanks(s: string)
    ensures
      var t := Trim(s);
      var i := |s| - |TrimStart(s)|;
      && i + |t| <= |s|
      && AllTrimmed(s[..i]) && AllTrimmed(s[i + |t|..])
  {
    TrimStartDropsBlanks(s);
    TrimEndDropsBlanks(TrimStart(s));
    MiddleOf(s, TrimStart(s), Trim(s));
  }

  /** `u` is `s` without a blank front and `t` is `u` without a blank back, so `t` is a
      middle slice of `s`. */
  lemma {:induction false} MiddleOf(s: string, u: string, t: string)
    requires |u| <= |s| && u == s[|s| - |u|..]
    requires forall k :: 0 <= k < |s| - |u| ==> IsTrimmed(s[k])
    requires |u| > 0 ==> !IsTrimmed(u[0])
    requires |t| <= |u| && t == u[..|t|]
    requires forall k :: |t| <= k < |u| ==> IsTrimmed(u[k])
    requires |t| > 0 ==> !IsTrimmed(t[|t| - 1])
    ensures
      var i := |s| - |u|;
      && i + |t| <= |s|
      && t == s[i..i + |t|]
      && AllTrimmed(s[..i]) && AllTrimmed(s[i + |t|..])
      && (|t| > 0 ==> !IsTrimmed(t[0]) && !IsTrimmed(t[|t| - 1]))
  {
    var i := |s| - |u|;
    forall k | 0 <= k < i
      ensures IsTrimmed(s[..i][k])
    {
      assert s[..i][k] == s[k];
    }
    var back := s[i + |t|..];
    forall k | 0 <= k < |back|
      ensures IsTrimmed(back[k])
    {
      assert back[k] == u[|t| + k];
    }
    if |t| > 0 {
      assert t[0] == u[0];
    }
  }

  // ---------------------------------------------------------------------------
  // Decimal digits
  // ---------------------------------------------------------------------------

  predicate IsDigit(c: char)
  {
    '0' <= c <= '9'
  }

  predicate AllDigits(s: string)
  {
    forall i :: 0 <= i < |s| ==> IsDigit(s[i])
  }

  function DigitChar(d: nat): (c: char)
    requires d < 10
    ensures IsDigit(c)
  {
    ('0' as int + d) as char
  }

  function DigitValue(c: char): nat
    requires IsDigit(c)
  {
    c as int - '0' as int
  }

  /** The decimal digits of `n`, most significant first, without leading zeros. */
  function NatToDigits(n: nat): (r: string)
    ensures |r| > 0 && AllDigits(r)
    ensures |r| > 1 ==> r[0] != '0'
  {
    if n < 10 then [DigitChar(n)] else NatToDigits(n / 10) + [DigitChar(n % 10)]
  }

  /** The number a string of decimal digits denotes. */
  function DigitsValue(s: string): nat
    requires AllDigits(s)
  {
    if |s| == 0 then 0 else 10 * DigitsValue(s[..|s| - 1]) + DigitValue(s[|s| - 1])
  }

  lemma {:induction false} DigitsRoundTrip(n: nat)
    ensures DigitsValue(NatToDigits(n)) == n
  {
    if n >= 10 {
      var p := NatToDigits(n / 10);
      var r := p + [DigitChar(n % 10)];
      assert r[..|r| - 1] == p;
      DigitsRoundTrip(n / 10);
    }
  }

  // ---------------------------------------------------------------------------
  // Integer.toString and Integer.parseInt
  // ---------------------------------------------------------------------------

  /** The text Java's string concatenation produces for an `int`: a `-` for a negative
      number, then the decimal digits of its magnitude without leading zeros. */
  function IntToString(n: int32): (r: string)
    ensures |r| > 0
    ensures r[0] == '-' <==> n < 0
    ensures AllDigits(r[1..])
    ensures
      var d := r[if n < 0 then 1 else 0..];
      && |d| > 0 && AllDigits(d) && (|d| > 1 ==> d[0] != '0')
      && DigitsValue(d) == (if n < 0 then -(n as int) else n as int)
  {
    var m: nat := if n < 0 then -(n as int) else n as int;
    DigitsRoundTrip(m);
    if n < 0 then "-" + NatToDigits(m) else NatToDigits(m)
  }

  predicate IsSign(c: char)
  {
    c == '+' || c == '-'
  }

  /** `s` without its sign, if it has one. */
  function Unsigned(s: string): string
  {
    if |s| > 0 && IsSign(s[0]) then s[1..] else s
  }

  /** An optional `+` or `-` followed by one or more ASCII digits. */
  predicate IsNumeral(s: string)
  {
    |Unsigned(s)| > 0 && AllDigits(Unsigned(s))
  }

  /** The integer a numeral denotes, however large. */
  function NumeralValue(s: string): int
    requires IsNumeral(s)
  {
    if s[0] == '-' then -(DigitsValue(Unsigned(s)) as int) else DigitsValue(Unsigned(s))
  }

  predicate InInt32(v: int)
  {
    -0x8000_0000 <= v < 0x8000_0000
  }

  /** `Integer.parseInt(s)`: an optional `+` or `-` followed by one or more ASCII digits
      denoting a value in the `int` range; anything else (including surrounding
      whitespace) is a `NumberFormatException`, modelled as `None`. */
  function ParseInt(s: string): (r: Option<int32>)
    ensures r.Some? <==> IsNumeral(s) && InInt32(NumeralValue(s))
    ensures r.Some? ==> r.value as int == NumeralValue(s)
    ensures r.Some? ==> |s| > 0 && AllDigits(s[1..])
    ensures r.Some? ==> IsDigit(s[0]) || s[0] == '+' || s[0] == '-'
    ensures r.Some? && r.value < 0 ==> s[0] == '-'
  {
    if |s| == 0 then None
    else
      var digits := if s[0] == '-' || s[0] == '+' then s[1..] else s;
      if |digits| == 0 || !AllDigits(digits) then None
      else
        var v: int := if s[0] == '-' then -(DigitsValue(digits) as int) else DigitsValue(digits);
        if -0x8000_0000 <= v < 0x8000_0000 then Some(v as int32) else None
  }

  /** A leading zero does not change the number a string of digits denotes. */
  lemma {:induction false} LeadingZeroKeepsValue(d: string)
    requires AllDigits(d)
    ensures AllDigits("0" + d) && DigitsValue("0" + d) == DigitsValue(d)
    decreases |d|
  {
    var z := "0" + d;
    if |d| == 0 {
      assert z[..0] == "";
    } else {
      var init := d[..|d| - 1];
      assert z[..|z| - 1] == "0" + init;
      assert z[|z| - 1] == d[|d| - 1];
      LeadingZeroKeepsValue(init);
    }
  }

  /** A `+` sign and leading zeros are accepted and change nothing: `"+7"`, `"007"` and `"7"`
      parse alike, and so do `"-007"` and `"-7"`. */
  lemma {:induction false} SignAndZerosKeepValue(d: string)
    requires |d| > 0 && AllDigits(d)
    ensures ParseInt("+" + d) == ParseInt(d)
    ensures ParseInt("0" + d) == ParseInt(d)
    ensures ParseInt("-0" + d) == ParseInt("-" + d)
  {
    LeadingZeroKeepsValue(d);
    assert Unsigned("+" + d) == d;
    assert Unsigned("-" + d) == d;
    assert Unsigned("-0" + d) == "0" + d;
    assert Unsigned("0" + d) == "0" + d;
    assert Unsigned(d) == d by { assert IsDigit(d[0]); }
  }

  /** Parsing the decimal text of an `int` gives the `int` back. */
  lemma {:induction false} IntRoundTrip(n: int32)
    ensures ParseInt(IntToString(n)) == Some(n)
  {
    if n < 0 {
      var d := NatToDigits(-(n as int));
      assert ("-" + d)[1..] == d;
      DigitsRoundTrip(-(n as int));
    } else {
      DigitsRoundTrip(n as int);
    }
  }

  /** A string `parseInt` accepts is never blank. */
  lemma {:induction false} ParsedIsNotBlank(s: string)
    requires ParseInt(s).Some?
    ensures !IsBlank(s)
  {
    BlankIff(s);
    assert !IsTrimmed(s[0]);
  }
}
