/** Integer timestamps as the session store holds them: `Number.prototype.toString`
    for integers and the global `parseInt` with its default radix on decimal text. */
module Numbers {
  import opened Wrappers
  import opened Text

  predicate IsDigit(c: char) {
    '0' <= c <= '9'
  }

  predicate AllDigits(s: string) {
    forall i :: 0 <= i < |s| ==> IsDigit(s[i])
  }

  function DigitValue(c: char): (d: nat)
    requires IsDigit(c)
    ensures d < 10
  {
    c as int - '0' as int
  }

  function DigitChar(d: nat): (c: char)
    requires d < 10
    ensures IsDigit(c) && DigitValue(c) == d
  {
    ('0' as int + d) as char
  }

  /** Decimal digits of `n`, most significant first, without leading zeros. */
  function NatToString(n: nat): (s: string)
    ensures |s| >= 1 && AllDigits(s)
    ensures |s| > 1 ==> s[0] != '0'
  {
    if n < 10 then [DigitChar(n)] else NatToString(n / 10) + [DigitChar(n % 10)]
  }

  /** The text `toString` gives an integer: a minus sign for negatives, then the digits. */
  function IntToString(n: int): (s: string)
    ensures |s| >= 1
    ensures n < 0 <==> s[0] == '-'
  {
    if n < 0 then "-" + NatToString(-n) else NatToString(n)
  }

  /** The number a string of decimal digits denotes. */
  function DigitsValue(s: string): nat
    requires AllDigits(s)
    decreases |s|
  {
    if |s| == 0 then 0 else DigitsValue(s[..|s| - 1]) * 10 + DigitValue(s[|s| - 1])
  }

  /** The longest prefix of `s` made of digits. */
  function DigitPrefix(s: string): (p: string)
    ensures p <= s && AllDigits(p)
    ensures |p| == |s| || !IsDigit(s[|p|])
    decreases |s|
  {
    if |s| > 0 && IsDigit(s[0]) then [s[0]] + DigitPrefix(s[1..]) else ""
  }

  /** `s` with one leading sign removed, and whether that sign was a minus. */
  function Unsigned(s: string): (r: (bool, string))
    ensures r.0 <==> |s| > 0 && s[0] == '-'
    ensures r.1 == if |s| > 0 && (s[0] == '-' || s[0] == '+') then s[1..] else s
  {
    if |s| > 0 && s[0] == '-' then (true, s[1..])
    else if |s| > 0 && s[0] == '+' then (false, s[1..])
    else (false, s)
  }

  /** `parseInt(s)`: skip leading whitespace, then read a number; `None` stands for
      `NaN`, the result when no digit comes first. */
  function ParseInt(s: string): (r: Option<int>)
    ensures r.None? <==> (var b := Unsigned(TrimStart(s)).1; |b| == 0 || !IsDigit(b[0]))
    ensures r.Some? ==> (r.value < 0 ==> Unsigned(TrimStart(s)).0)
  {
    ReadNumber(TrimStart(s))
  }

  /** An optional sign and the longest run of decimal digits after it; whatever
      follows is ignored. */
  function ReadNumber(s: string): (r: Option<int>)
    ensures r.None? <==> (var b := Unsigned(s).1; |b| == 0 || !IsDigit(b[0]))
    ensures r.Some? ==> (r.value < 0 ==> Unsigned(s).0)
  {
    var u := Unsigned(s);
    var digits := DigitPrefix(u.1);
    if |digits| == 0 then None
    else if u.0 then Some(-(DigitsValue(digits) as int))
    else Some(DigitsValue(digits))
  }

  /** Reading back the digits of `n` gives `n`. */
  lemma {:induction false} DigitsValueOfNat(n: nat)
    ensures DigitsValue(NatToString(n)) == n
  {
    if n >= 10 {
      var x := NatToString(n / 10);
      var s := NatToString(n);
      assert s[..|s| - 1] == x;
      DigitsValueOfNat(n / 10);
    }
  }

  /** The digit prefix of digits followed by a non-digit is exactly those digits. */
  lemma {:induction false} DigitPrefixStops(d: string, tail: string)
    requires AllDigits(d)
    requires |tail| == 0 || !IsDigit(tail[0])
    ensures DigitPrefix(d + tail) == d
    decreases |d|
  {
    if |d| == 0 {
      assert d + tail == tail;
    } else {
      assert (d + tail)[1..] == d[1..] + tail;
      DigitPrefixStops(d[1..], tail);
    }
  }

  /** `ParseInt` once its three stages are known. */
  lemma ParseStages(s: string, negative: bool, body: string, d: string)
    requires TrimStart(s) == s && Unsigned(s) == (negative, body)
    requires DigitPrefix(body) == d && |d| > 0
    ensures ParseInt(s) == Some(if negative then -(DigitsValue(d) as int) else DigitsValue(d))
  {
  }

  /** Digits with no sign in front parse to their value. */
  lemma ParseDigits(d: string, tail: string)
    requires |d| > 0 && AllDigits(d)
    requires |tail| == 0 || !IsDigit(tail[0])
    ensures ParseInt(d + tail) == Some(DigitsValue(d))
  {
    UnsignedDigits(d, tail);
    DigitPrefixStops(d, tail);
    ParseStages(d + tail, false, d + tail, d);
  }

  lemma UnsignedDigits(d: string, tail: string)
    requires |d| > 0 && IsDigit(d[0])
    ensures TrimStart(d + tail) == d + tail && Unsigned(d + tail) == (false, d + tail)
  {
    assert (d + tail)[0] == d[0];
    StartsWithoutSpace(d + tail);
  }

  /** Digits behind a minus sign parse to the negated value. */
  lemma ParseNegativeDigits(d: string, tail: string)
    requires |d| > 0 && AllDigits(d)
    requires |tail| == 0 || !IsDigit(tail[0])
    ensures ParseInt("-" + d + tail) == Some(-(DigitsValue(d) as int))
  {
    UnsignedMinus(d + tail);
    assert "-" + d + tail == "-" + (d + tail);
    DigitPrefixStops(d, tail);
    ParseStages("-" + (d + tail), true, d + tail, d);
  }

  lemma UnsignedMinus(x: string)
    ensures TrimStart("-" + x) == "-" + x && Unsigned("-" + x) == (true, x)
  {
    assert ("-" + x)[0] == '-' && ("-" + x)[1..] == x;
    StartsWithoutSpace("-" + x);
  }

  /** Leading whitespace is skipped: it never changes what `parseInt` reads. */
  lemma ParseIntSkipsBlank(ws: string, s: string)
    requires IsBlank(ws)
    ensures ParseInt(ws + s) == ParseInt(s)
  {
    TrimStartBlank(ws, s);
  }

  /** Digits behind a plus sign parse to their value. */
  lemma ParsePlusDigits(d: string, tail: string)
    requires |d| > 0 && AllDigits(d)
    requires |tail| == 0 || !IsDigit(tail[0])
    ensures ParseInt("+" + d + tail) == Some(DigitsValue(d))
  {
    UnsignedPlus(d + tail);
    assert "+" + d + tail == "+" + (d + tail);
    DigitPrefixStops(d, tail);
    ParseStages("+" + (d + tail), false, d + tail, d);
  }

  lemma UnsignedPlus(x: string)
    ensures TrimStart("+" + x) == "+" + x && Unsigned("+" + x) == (false, x)
  {
    assert ("+" + x)[0] == '+' && ("+" + x)[1..] == x;
    assert !IsSpace('+');
  }

  /** `parseInt(n.toString() + tail)` recovers `n` when `tail` does not continue the
      number; with `tail == ""` this is the round trip the guest expiry relies on. */
  lemma ParseIntToString(n: int, tail: string)
    requires |tail| == 0 || !IsDigit(tail[0])
    ensures ParseInt(IntToString(n) + tail) == Some(n)
  {
    if n < 0 {
      var d := NatToString(-n);
      assert IntToString(n) + tail == "-" + d + tail;
      assert DigitsValue(d) == -n by { DigitsValueOfNat(-n); }
      ParseNegativeDigits(d, tail);
    } else {
      var d := NatToString(n);
      assert IntToString(n) + tail == d + tail;
      assert DigitsValue(d) == n by { DigitsValueOfNat(n); }
      ParseDigits(d, tail);
    }
  }

  /** `parseInt(n.toString()) == n`. */
  lemma ParseIntRoundTrip(n: int)
    ensures ParseInt(IntToString(n)) == Some(n)
  {
    ParseIntToString(n, "");
    assert IntToString(n) + "" == IntToString(n);
  }

  /** A number's text starts with a sign or a digit, never with whitespace. */
  lemma StartsWithoutSpace(s: string)
    requires |s| > 0 && (s[0] == '-' || IsDigit(s[0]))
    ensures TrimStart(s) == s
  {
    assert !IsSpace(s[0]);
  }
}
