/** The message field's character counter (js/main.js:477-492). */
module CharCounter {
  import opened Text

  /** `MAX_CHARS`, also set as the field's `maxlength`. */
  const MaxChars: nat := 1000

  /** The warning threshold: `len > MAX_CHARS * 0.85`. The product is exactly
      850 in binary floating point, so for whole lengths this is `len > 850`. */
  function NearLimit(len: nat): (warn: bool)
    ensures warn <==> len > 850
    ensures warn ==> len * 100 > MaxChars * 85
  {
    len * 100 > MaxChars * 85
  }

  /** The decimal text JavaScript prints for a non-negative integer. */
  function Decimal(n: nat): (s: string)
    ensures |s| > 0 && AllDigits(s)
    ensures |s| > 1 ==> s[0] != '0'
  {
    if n < 10 then [('0' as int + n) as char]
    else Decimal(n / 10) + [('0' as int + n % 10) as char]
  }

  /** The value of a string of decimal digits. */
  function DigitsValue(s: string): nat
    requires AllDigits(s)
  {
    if s == [] then 0
    else DigitsValue(s[..|s| - 1]) * 10 + (s[|s| - 1] as int - '0' as int)
  }

  /** Reading the printed count back gives the count. */
  lemma {:induction false} DecimalRoundTrip(n: nat)
    ensures DigitsValue(Decimal(n)) == n
  {
    if n >= 10 {
      DecimalRoundTrip(n / 10);
      var s := Decimal(n);
      assert s[..|s| - 1] == Decimal(n / 10);
    }
  }

  /** `${len} / ${MAX_CHARS}`. */
  function CounterText(len: nat): (t: string)
    ensures |t| > 7 && t[..|t| - 7] == Decimal(len) && t[|t| - 7..] == " / 1000"
  {
    assert Decimal(MaxChars) == "1000" by {
      assert Decimal(1) == "1" && Decimal(10) == "10" && Decimal(100) == "100";
    }
    Decimal(len) + " / " + Decimal(MaxChars)
  }

  /** The counter as the input handler leaves it: the UTF-16 length the field
      reports and whether the warning class is on. */
  datatype Counter = Counter(len: nat, warn: bool)

  function CounterFor(message: string): (c: Counter)
    ensures c.len >= |message|
    ensures c.warn <==> c.len > 850
  {
    var n := Utf16Length(message);
    Counter(n, NearLimit(n))
  }

  /** Reading the displayed text back recovers the length it shows. */
  lemma CounterTextShowsLength(len: nat)
    ensures var t := CounterText(len); DigitsValue(t[..|t| - 7]) == len
  {
    DecimalRoundTrip(len);
  }
}
