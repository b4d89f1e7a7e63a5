/** Decimal text of integers: `fmt.Sprintf("%d", n)` and
    `strconv.ParseInt(s, 10, 64)`, used for version labels, snapshot ids
    and the `version` query parameter. */
module Decimal {
  import opened Base

  predicate IsDigit(c: char) { '0' <= c <= '9' }

  predicate AllDigits(s: string) {
    forall i :: 0 <= i < |s| ==> IsDigit(s[i])
  }

  function DigitChar(d: nat): (c: char)
    requires d < 10
    ensures IsDigit(c)
  {
    ['0', '1', '2', '3', '4', '5', '6', '7', '8', '9'][d]
  }

  function DigitValue(c: char): (d: nat)
    requires IsDigit(c)
    ensures d < 10 && DigitChar(d) == c
  {
    (c as int - '0' as int) as nat
  }

  /** The decimal digits of n, without leading zeros ("0" for zero). */
  function Digits(n: nat): (s: string)
    ensures |s| >= 1 && AllDigits(s)
  {
    if n < 10 then [DigitChar(n)] else Digits(n / 10) + [DigitChar(n % 10)]
  }

  /** The number a non-empty run of digits denotes, leading zeros allowed. */
  function ValueOf(s: string): nat
    requires AllDigits(s)
  {
    if |s| == 0 then 0 else ValueOf(s[..|s| - 1]) * 10 + DigitValue(s[|s| - 1])
  }

  /** `fmt.Sprintf("%d", n)`. */
  function FormatInt(n: int): (s: string)
    ensures |s| >= 1
    ensures '.' !in s
    ensures s[0] == '-' <==> n < 0
    ensures n >= 0 ==> AllDigits(s)
    ensures n < 0 ==> AllDigits(s[1..])
  {
    if n < 0 then "-" + Digits(-n) else Digits(n)
  }

  /** `strconv.ParseUint(s, 10, 64)` without its range check: one or more
      decimal digits, leading zeros allowed, no underscores in base 10. */
  function ParseDigits(s: string): (r: Option<nat>)
    ensures r.Some? <==> |s| >= 1 && AllDigits(s)
    ensures r.Some? ==> r.value == ValueOf(s)
  {
    if |s| == 0 || !AllDigits(s) then None else Some(ValueOf(s))
  }

  /** `strconv.ParseInt(s, 10, 64)`: an optional `+` or `-`, then digits as
      `ParseDigits` reads them, and the value must fit an int64. Go
      distinguishes syntax and range errors; every caller in the core treats
      them alike, so the model has just `None`. */
  function ParseInt(s: string): (r: Option<int64>)
    ensures r.Some? ==> |s| >= 1
    ensures r.Some? && s[0] != '-' && s[0] != '+' ==> ParseDigits(s) == Some(r.value as int)
    ensures r.Some? && s[0] == '-' ==> ParseDigits(s[1..]) == Some(-(r.value as int))
    ensures r.Some? && s[0] == '+' ==> ParseDigits(s[1..]) == Some(r.value as int)
    ensures |s| >= 1 && s[0] != '-' && s[0] != '+' ==>
              (r.Some? <==> ParseDigits(s).Some? && ParseDigits(s).value <= Int64Max)
    ensures |s| >= 1 && s[0] == '+' ==>
              (r.Some? <==> ParseDigits(s[1..]).Some? && ParseDigits(s[1..]).value <= Int64Max)
    ensures |s| >= 1 && s[0] == '-' ==>
              (r.Some? <==> ParseDigits(s[1..]).Some? && ParseDigits(s[1..]).value <= -Int64Min)
  {
    if |s| == 0 then None
    else
      var rest := if s[0] == '+' || s[0] == '-' then s[1..] else s;
      match ParseDigits(rest)
      case None => None
      case Some(u) =>
        var v: int := if s[0] == '-' then -(u as int) else u;
        if Int64Min <= v <= Int64Max then Some(v) else None
  }

  lemma {:induction false} ValueOfDigits(n: nat)
    ensures ValueOf(Digits(n)) == n
  {
    if n >= 10 {
      var s := Digits(n);
      assert s[..|s| - 1] == Digits(n / 10);
      ValueOfDigits(n / 10);
    }
  }

  /** Parsing what `%d` printed gives the number back, for every int64. */
  lemma FormatParseRoundTrip(n: int64)
    ensures ParseInt(FormatInt(n)) == Some(n)
  {
    if n < 0 {
      NegativeRoundTrip(n);
    } else {
      var d := Digits(n);
      assert FormatInt(n) == d && d[0] != '-' && d[0] != '+';
      ValueOfDigits(n);
    }
  }

  /** The round trip for a negative number, whose text starts with '-'. */
  lemma NegativeRoundTrip(n: int64)
    requires n < 0
    ensures ParseInt(FormatInt(n)) == Some(n)
  {
    var s := FormatInt(n);
    var d := Digits(-(n as int));
    assert s == "-" + d;
    assert s[0] == '-' && s[1..] == d;
    ValueOfDigits(-(n as int));
    assert ParseDigits(s[1..]) == Some(-(n as int));
  }

  /** Distinct int64 values print differently. */
  lemma FormatIntInjective(a: int64, b: int64)
    requires FormatInt(a) == FormatInt(b)
    ensures a == b
  {
    FormatParseRoundTrip(a);
    FormatParseRoundTrip(b);
  }
}
