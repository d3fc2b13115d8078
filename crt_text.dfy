// The C runtime's string routines the raw dump generator's argument parser
// relies on (tools/makeRawDump/processArgs.cpp): strtok with the ':'
// delimiter, _strnicmp against a literal, atoi, strtoul and _strtoui64, and
// the "%0Nd" formatting of a section number.
module CrtText {
  import opened Machine

  /** tolower in the "C" locale. */
  function Lower(c: char): char
  {
    if 'A' <= c <= 'Z' then (c as int + 32) as char else c
  }

  /** _strnicmp(s, p, strlen(p)) == 0: s starts with p, ignoring the case of letters. */
  predicate IPrefix(s: string, p: string)
  {
    |p| <= |s| && forall i :: 0 <= i < |p| ==> Lower(s[i]) == Lower(p[i])
  }

  /** A string without the strtok delimiter. */
  predicate NoColon(s: string)
  {
    forall i :: 0 <= i < |s| ==> s[i] != ':'
  }

  /** The index of the first ':' of s, or |s|. */
  function ColonIndex(s: string): (k: nat)
    ensures k <= |s| && NoColon(s[..k]) && (k < |s| ==> s[k] == ':')
  {
    if |s| == 0 then 0
    else if s[0] == ':' then 0
    else
      var k := 1 + ColonIndex(s[1..]);
      assert s[..k] == [s[0]] + s[1..][..k - 1];
      k
  }

  /**
   * The tokens strtok(s, ":") and then strtok(NULL, ":") return one after
   * another: the maximal runs of characters other than ':', where
   * delimiters next to each other produce no empty token.
   */
  function Tokens(s: string): (r: seq<string>)
    ensures forall t :: 0 <= t < |r| ==> |r[t]| > 0 && NoColon(r[t])
    decreases |s|
  {
    if |s| == 0 then []
    else
      var k := ColonIndex(s);
      if k == 0 then Tokens(s[1..])
      else if k == |s| then [s]
      else [s[..k]] + Tokens(s[k + 1..])
  }

  /**
   * A switch name followed by nothing or by ':' is the first token, and a
   * ':' right after it starts the second one.
   */
  lemma FirstToken(s: string, p: string)
    requires 0 < |p| && NoColon(p) && IPrefix(s, p) && (|s| == |p| || s[|p|] == ':')
    ensures |Tokens(s)| >= 1 && Tokens(s)[0] == s[..|p|]
    ensures Tokens(s)[1..] == if |s| == |p| then [] else Tokens(s[|p| + 1..])
  {
    assert forall i :: 0 <= i < |p| ==> s[i] != ':' by {
      forall i | 0 <= i < |p| ensures s[i] != ':' {
        assert Lower(s[i]) == Lower(p[i]);
      }
    }
    ColonAt(s, |p|);
  }

  lemma {:induction false} ColonAt(s: string, k: nat)
    requires k <= |s| && (forall i :: 0 <= i < k ==> s[i] != ':') && (k == |s| || s[k] == ':')
    ensures ColonIndex(s) == k
  {
    if k > 0 {
      ColonAt(s[1..], k - 1);
    }
  }

  // ------------------------------------------------------------------ digits

  /** The value of c as a digit of the given base (10 or 16), if it is one. */
  function DigitValue(c: char, base: nat): (r: Option<nat>)
    ensures r.Some? ==> r.value < base
  {
    if '0' <= c <= '9' && (c as int - '0' as int) < base then Some(c as int - '0' as int)
    else if base == 16 && 'a' <= c <= 'f' then Some(c as int - 'a' as int + 10)
    else if base == 16 && 'A' <= c <= 'F' then Some(c as int - 'A' as int + 10)
    else None
  }

  predicate AllDigits(s: string, base: nat)
  {
    forall i :: 0 <= i < |s| ==> DigitValue(s[i], base).Some?
  }

  /** The length of the run of digits s starts with. */
  function DigitRun(s: string, base: nat): (k: nat)
    ensures k <= |s| && AllDigits(s[..k], base) && (k < |s| ==> DigitValue(s[k], base).None?)
  {
    if |s| == 0 || DigitValue(s[0], base).None? then 0
    else
      var k := 1 + DigitRun(s[1..], base);
      assert s[..k] == [s[0]] + s[1..][..k - 1];
      k
  }

  /** The value of a string of digits, most significant first. */
  function DigitsValue(s: string, base: nat): nat
    requires AllDigits(s, base)
  {
    if |s| == 0 then 0
    else DigitsValue(s[..|s| - 1], base) * base + DigitValue(s[|s| - 1], base).value
  }

  /** The decimal digits of n, without leading zeros ("0" for zero). */
  function Decimal(n: nat): (s: string)
    ensures 1 <= |s| && AllDigits(s, 10)
  {
    if n < 10 then [('0' as int + n) as char]
    else Decimal(n / 10) + [('0' as int + n % 10) as char]
  }

  /** Reading the decimal digits of n back gives n. */
  lemma {:induction false} DecimalRoundTrip(n: nat)
    ensures DigitsValue(Decimal(n), 10) == n
  {
    var s := Decimal(n);
    if n >= 10 {
      DecimalRoundTrip(n / 10);
      assert s[..|s| - 1] == Decimal(n / 10);
    }
  }

  function Pow10(k: nat): (r: nat)
    ensures r >= 1
  {
    if k == 0 then 1 else 10 * Pow10(k - 1)
  }

  /** A number below 10^k has at most k decimal digits. */
  lemma {:induction false} DecimalLength(n: nat, k: nat)
    requires 1 <= k && n < Pow10(k)
    ensures |Decimal(n)| <= k
  {
    if n >= 10 {
      assert k >= 2;
      DecimalLength(n / 10, k - 1);
    }
  }

  /** "%0wd": s with zeros in front up to w characters. */
  function ZeroPad(s: string, w: nat): (r: string)
    ensures |r| == if |s| < w then w else |s|
    ensures r[|r| - |s|..] == s && forall i :: 0 <= i < |r| - |s| ==> r[i] == '0'
  {
    if |s| < w then seq(w - |s|, _ => '0') + s else s
  }

  /** Leading zeros do not change the value of a digit string. */
  lemma {:induction false} ZeroPadValue(s: string, w: nat)
    requires AllDigits(s, 10)
    ensures AllDigits(ZeroPad(s, w), 10) && DigitsValue(ZeroPad(s, w), 10) == DigitsValue(s, 10)
  {
    if |s| < w {
      LeadingZeros(w - |s|, s);
    }
  }

  lemma {:induction false} LeadingZeros(z: nat, s: string)
    requires AllDigits(s, 10)
    ensures AllDigits(seq(z, _ => '0') + s, 10) && DigitsValue(seq(z, _ => '0') + s, 10) == DigitsValue(s, 10)
    decreases |s|
  {
    var t := seq(z, _ => '0') + s;
    if |s| == 0 {
      assert t == seq(z, _ => '0');
      AllZeros(z);
    } else {
      assert t[..|t| - 1] == seq(z, _ => '0') + s[..|s| - 1];
      LeadingZeros(z, s[..|s| - 1]);
    }
  }

  lemma {:induction false} AllZeros(z: nat)
    ensures AllDigits(seq(z, _ => '0'), 10) && DigitsValue(seq(z, _ => '0'), 10) == 0
  {
    if z > 0 {
      assert seq(z, _ => '0')[..z - 1] == seq(z - 1, _ => '0');
      AllZeros(z - 1);
    }
  }

  // ------------------------------------------------------------------ conversions

  /** The conversion base the handlers choose: 16 when the token starts with "0x" (either case), else 10. */
  function TokenBase(t: string): nat
  {
    if IPrefix(t, "0x") then 16 else 10
  }

  /** The token without one leading '+' or '-'. */
  function Unsigned(s: string): string
  {
    if |s| > 0 && (s[0] == '+' || s[0] == '-') then s[1..] else s
  }

  /** The magnitude strtoul reads: after the sign, and in base 16 after an optional "0x", the digit run. */
  function Magnitude(s: string, base: nat): nat
  {
    var t := Unsigned(s);
    var u := if base == 16 && IPrefix(t, "0x") then t[2..] else t;
    DigitsValue(u[..DigitRun(u, base)], base)
  }

  /**
   * strtoul (limit 2^32, ULONG) and _strtoui64 (limit 2^64): a magnitude
   * that does not fit gives the largest value, a '-' sign negates modulo the
   * limit, and a token without digits gives 0.
   */
  function StrToUnsigned(s: string, base: nat, limit: nat): (r: nat)
    requires 0 < limit
    ensures r < limit
    ensures Magnitude(s, base) >= limit ==> r == limit - 1
    ensures Magnitude(s, base) < limit && (|s| == 0 || s[0] != '-') ==> r == Magnitude(s, base)
  {
    var v := Magnitude(s, base);
    if v >= limit then limit - 1
    else if |s| > 0 && s[0] == '-' then (limit - v) % limit
    else v
  }

  /** strtoul(token, NULL, base) as a ULONG. */
  function StrToUlong(s: string, base: nat): u32
  {
    StrToUnsigned(s, base, U32_LIMIT)
  }

  /** _strtoui64(token, NULL, base). */
  function StrToUi64(s: string, base: nat): u64
  {
    StrToUnsigned(s, base, U64_LIMIT)
  }

  const INT_MAX: int := 0x7FFF_FFFF
  const INT_MIN: int := -0x8000_0000

  /** atoi: an optional sign and decimal digits, held to the range of int. */
  function Atoi(s: string): (r: int)
    ensures INT_MIN <= r <= INT_MAX
  {
    var v := Magnitude(s, 10);
    if |s| > 0 && s[0] == '-' then (if v > -INT_MIN then INT_MIN else -(v as int))
    else if v > INT_MAX then INT_MAX else v
  }

  /** A string of decimal digits reads back as its value, with or without atoi. */
  lemma {:induction false} DecimalReadsBack(n: nat)
    ensures Magnitude(Decimal(n), 10) == n
  {
    var s := Decimal(n);
    assert Unsigned(s) == s by {
      assert DigitValue(s[0], 10).Some?;
    }
    DigitRunAll(s, 10);
    assert s[..|s|] == s;
    DecimalRoundTrip(n);
  }

  lemma {:induction false} DigitRunAll(s: string, base: nat)
    requires AllDigits(s, base)
    ensures DigitRun(s, base) == |s|
  {
    if |s| > 0 {
      DigitRunAll(s[1..], base);
    }
  }
}
