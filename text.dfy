/** Character classes and string helpers shared by the browser script and the
    PHP relay: the whitespace each runtime trims, ASCII digits, filtering,
    trimming and JavaScript's clamping `slice`. */
module Text {

  /** The code points ECMAScript's `\s` matches and `String.prototype.trim`
      removes: WhiteSpace plus LineTerminator. */
  predicate IsJsSpace(c: char) {
    c == '\t' || c == '\n' || c == '\U{000B}' || c == '\U{000C}' || c == '\r'
    || c == ' ' || c == '\U{00A0}' || c == '\U{1680}'
    || ('\U{2000}' <= c <= '\U{200A}')
    || c == '\U{2028}' || c == '\U{2029}' || c == '\U{202F}' || c == '\U{205F}'
    || c == '\U{3000}' || c == '\U{FEFF}'
  }

  /** The characters PHP's `trim` removes by default: " \t\n\r\0\x0B". */
  predicate IsPhpTrimmed(c: char) {
    c == ' ' || c == '\t' || c == '\n' || c == '\r' || c == '\0' || c == '\U{000B}'
  }

  /** ASCII decimal digit, the class of `\d` (its complement is `\D`). */
  predicate IsDigit(c: char) {
    '0' <= c <= '9'
  }

  predicate AllDigits(s: string) {
    forall k :: 0 <= k < |s| ==> IsDigit(s[k])
  }

  function Min(a: int, b: int): int {
    if a <= b then a else b
  }

  /** `s.slice(from, to)` for non-negative bounds: both are clamped to the length. */
  function Slice(s: string, from: nat, to: nat): (r: string)
    ensures |r| == if Min(to, |s|) <= from then 0 else Min(to, |s|) - from
    ensures from <= Min(to, |s|) ==> r == s[from..Min(to, |s|)]
  {
    var hi := Min(to, |s|);
    if hi <= from then "" else s[from..hi]
  }

  /** The characters of `s` that satisfy `keep`, in order: `s.replace(/[^…]/g, "")`. */
  function Keep(s: string, keep: char -> bool): (r: string)
    ensures |r| <= |s|
    ensures forall k :: 0 <= k < |r| ==> keep(r[k])
    ensures (forall k :: 0 <= k < |s| ==> keep(s[k])) <==> r == s
  {
    if s == [] then []
    else if keep(s[0]) then [s[0]] + Keep(s[1..], keep)
    else Keep(s[1..], keep)
  }

  /** Nothing accepted is lost: each accepted character occurs in the result
      as often as in the input. */
  lemma {:induction false} KeepCountsAccepted(s: string, keep: char -> bool)
    ensures forall c :: keep(c) ==> multiset(Keep(s, keep))[c] == multiset(s)[c]
  {
    if s != [] {
      KeepCountsAccepted(s[1..], keep);
      assert s == [s[0]] + s[1..];
    }
  }

  /** One character is kept exactly when it is accepted. With `KeepAppend` this
      pins the filter down: it is the order-preserving sub-sequence of accepted
      characters. */
  lemma KeepSingle(c: char, keep: char -> bool)
    ensures Keep([c], keep) == if keep(c) then [c] else []
  {
    assert [c][1..] == [];
  }

  lemma {:induction false} KeepAppend(a: string, b: string, keep: char -> bool)
    ensures Keep(a + b, keep) == Keep(a, keep) + Keep(b, keep)
  {
    if a == [] {
      assert a + b == b;
    } else {
      assert (a + b)[1..] == a[1..] + b;
      KeepAppend(a[1..], b, keep);
    }
  }

  /** `s.replace(/\D/g, "")`. */
  function Digits(s: string): (r: string)
    ensures AllDigits(r) && |r| <= |s|
  {
    Keep(s, IsDigit)
  }

  /** Every digit of the input survives, as often as it occurs. */
  lemma {:induction false} DigitsKeepsEveryDigit(s: string)
    ensures forall c :: IsDigit(c) ==> multiset(Digits(s))[c] == multiset(s)[c]
  {
    KeepCountsAccepted(s, IsDigit);
  }

  /** How many leading characters satisfy `ws`. */
  function LeadingCount(s: string, ws: char -> bool): (n: nat)
    ensures n <= |s|
    ensures forall k :: 0 <= k < n ==> ws(s[k])
    ensures n < |s| ==> !ws(s[n])
  {
    if s != [] && ws(s[0]) then 1 + LeadingCount(s[1..], ws) else 0
  }

  /** How many trailing characters satisfy `ws`. */
  function TrailingCount(s: string, ws: char -> bool): (n: nat)
    ensures n <= |s|
    ensures forall k :: |s| - n <= k < |s| ==> ws(s[k])
    ensures n < |s| ==> !ws(s[|s| - n - 1])
  {
    if s != [] && ws(s[|s| - 1]) then 1 + TrailingCount(s[..|s| - 1], ws) else 0
  }

  /** Drops the leading characters satisfying `ws`. */
  function TrimStart(s: string, ws: char -> bool): (r: string)
    ensures |r| <= |s| && r == s[|s| - |r|..]
    ensures r == [] || !ws(r[0])
    ensures forall k :: 0 <= k < |s| - |r| ==> ws(s[k])
  {
    s[LeadingCount(s, ws)..]
  }

  /** Drops the trailing characters satisfying `ws`. */
  function TrimEnd(s: string, ws: char -> bool): (r: string)
    ensures |r| <= |s| && r == s[..|r|]
    ensures r == [] || !ws(r[|r| - 1])
    ensures forall k :: |r| <= k < |s| ==> ws(s[k])
  {
    s[..|s| - TrailingCount(s, ws)]
  }

  /** Both ends trimmed: JavaScript's `trim()` with `IsJsSpace`, PHP's `trim()`
      with `IsPhpTrimmed`. The result is the slice of the original that starts
      after the leading whitespace, and it begins and ends with a kept character. */
  function Trim(s: string, ws: char -> bool): (r: string)
    ensures var i := |s| - |TrimStart(s, ws)|; i + |r| <= |s| && r == s[i..i + |r|]
    ensures |r| > 0 ==> !ws(r[0]) && !ws(r[|r| - 1])
  {
    var t := TrimStart(s, ws);
    TrimEndOfSuffix(s, t, ws);
    TrimEndOfTrimmed(t, ws);
    TrimEnd(t, ws)
  }

  /** Everything `Trim` cuts away on either side is whitespace. */
  lemma TrimIsInnerSlice(s: string, ws: char -> bool)
    ensures var r, i := Trim(s, ws), |s| - |TrimStart(s, ws)|;
      (forall k :: 0 <= k < i ==> ws(s[k]))
      && (forall k :: i + |r| <= k < |s| ==> ws(s[k]))
  {
    TrimEndOfSuffix(s, TrimStart(s, ws), ws);
  }

  /** Trimming the end of a string that does not start with whitespace leaves
      one that does not start with it either. */
  lemma TrimEndOfTrimmed(t: string, ws: char -> bool)
    requires |t| > 0 ==> !ws(t[0])
    ensures var r := TrimEnd(t, ws); |r| > 0 ==> !ws(r[0])
  {
    var r := TrimEnd(t, ws);
    if |r| > 0 {
      assert r[0] == t[0];
    }
  }

  /** Trimming the end of a suffix `t` of `s` leaves a slice of `s`, and what it
      cuts away is whitespace of `s`. */
  lemma TrimEndOfSuffix(s: string, t: string, ws: char -> bool)
    requires |t| <= |s| && t == s[|s| - |t|..]
    ensures var r, i := TrimEnd(t, ws), |s| - |t|;
      i + |r| <= |s| && r == s[i..i + |r|]
      && (forall k :: i + |r| <= k < |s| ==> ws(s[k]))
  {
    var i := |s| - |t|;
    var r := TrimEnd(t, ws);
    assert r == t[..|r|];
    forall k | i + |r| <= k < |s| ensures ws(s[k]) {
      assert s[k] == t[k - i];
    }
  }

  /** Trimming the start of a string that starts with whitespace is trimming
      the start of its tail. */
  lemma {:induction false} TrimStartStep(s: string, ws: char -> bool)
    requires s != [] && ws(s[0])
    ensures TrimStart(s, ws) == TrimStart(s[1..], ws)
  {
    var n := LeadingCount(s[1..], ws);
    assert LeadingCount(s, ws) == 1 + n;
    assert s[1 + n..] == s[1..][n..];
  }

  /** A string that neither begins nor ends with whitespace is left as it is. */
  lemma TrimUntouched(s: string, ws: char -> bool)
    requires s != [] && !ws(s[0]) && !ws(s[|s| - 1])
    ensures Trim(s, ws) == s
  {
    assert TrimStart(s, ws) == s;
  }

  /** Trimming twice changes nothing. */
  lemma {:induction false} TrimIdempotent(s: string, ws: char -> bool)
    ensures Trim(Trim(s, ws), ws) == Trim(s, ws)
  {
    TrimIsInnerSlice(s, ws);
    var r := Trim(s, ws);
    if |r| > 0 {
      TrimUntouched(r, ws);
    } else {
      assert r == [];
    }
  }

  /** Length in UTF-16 code units, which is what a JavaScript string's `length` counts. */
  function Utf16Length(s: string): (n: nat)
    ensures |s| <= n <= 2 * |s|
  {
    if s == [] then 0
    else (if s[0] as int > 0xFFFF then 2 else 1) + Utf16Length(s[1..])
  }

  lemma {:induction false} Utf16LengthAscii(s: string)
    requires forall k :: 0 <= k < |s| ==> s[k] as int < 128
    ensures Utf16Length(s) == |s|
  {
    if s != [] {
      Utf16LengthAscii(s[1..]);
    }
  }
}
