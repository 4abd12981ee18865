/** The text of a number: what a JavaScript template literal prints for an
    integer-valued Number, and the decimal reading that undoes it. */
module NumberText {
  import opened Wrappers

  predicate IsDigit(c: char) {
    '0' <= c <= '9'
  }

  function DigitChar(d: nat): (c: char)
    requires d < 10
    ensures IsDigit(c)
  {
    (48 + d) as char
  }

  /** The decimal digits of `n`, most significant first, without leading zeros. */
  function Digits(n: nat): (s: string)
    ensures |s| > 0 && forall i :: 0 <= i < |s| ==> IsDigit(s[i])
    ensures s[0] == '0' ==> n == 0
  {
    if n < 10 then [DigitChar(n)] else Digits(n / 10) + [DigitChar(n % 10)]
  }

  /** `${n}` for an integer `n`: an optional minus sign, then the digits. */
  function IntToText(n: int): (s: string)
    ensures |s| > 0
    ensures forall i :: 0 <= i < |s| ==> IsDigit(s[i]) || s[i] == '-'
  {
    if n < 0 then "-" + Digits(-n) else Digits(n)
  }

  /** `${x}` for a Number that may be NaN. */
  function NumberToText(x: Option<int>): string {
    match x
    case Some(n) => IntToText(n)
    case None => "NaN"
  }

  /** The value of a string of decimal digits. */
  function DigitsValue(s: string): nat
    requires forall i :: 0 <= i < |s| ==> IsDigit(s[i])
  {
    if s == [] then 0 else DigitsValue(s[..|s| - 1]) * 10 + DigitValue(s[|s| - 1])
  }

  function DigitValue(c: char): nat
    requires IsDigit(c)
  {
    c as int - 48
  }

  predicate AllDigits(s: string) {
    forall i :: 0 <= i < |s| ==> IsDigit(s[i])
  }

  /** A decimal-only instance of `Number(s)`, used to read the download
      back: the empty string is 0, an optional minus sign may precede the
      digits, and anything else is NaN here. `Number` itself also reads
      forms this does not, such as "+5", " 7 " and "1e3"; the cleaning takes
      `Number` as a parameter and does not rely on this instance. */
  function ParseDecimal(s: string): Option<int> {
    if s == "" then Some(0 as int)
    else if AllDigits(s) then Some(DigitsValue(s))
    else if s[0] == '-' && |s| > 1 && AllDigits(s[1..]) then Some(-(DigitsValue(s[1..]) as int))
    else None
  }

  lemma {:induction false} DigitsRoundTrip(n: nat)
    ensures DigitsValue(Digits(n)) == n
  {
    if n >= 10 {
      DigitsRoundTrip(n / 10);
      var s := Digits(n / 10) + [DigitChar(n % 10)];
      assert s[..|s| - 1] == Digits(n / 10);
    }
  }

  /** Reading the printed text of an integer gives the integer back. */
  lemma IntToTextRoundTrip(n: int)
    ensures ParseDecimal(IntToText(n)) == Some(n)
  {
    if n < 0 {
      DigitsRoundTrip(-n);
      assert IntToText(n)[1..] == Digits(-n);
      assert !AllDigits(IntToText(n));
    } else {
      DigitsRoundTrip(n);
    }
  }

  /** Reading "NaN" gives NaN back. */
  lemma NaNRoundTrip()
    ensures ParseDecimal(NumberToText(None)) == None
  {
    assert !IsDigit('N');
  }
}
