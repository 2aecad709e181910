/** The phone-number mask of the contact form (js/main.js:366-425): the
    `formatPhone` transform, the rule the blur handler applies, and the
    keypress filter. */
module PhoneMask {
  import opened Text

  /** The canonical Polish prefix the mask writes in front of every number. */
  const Prefix: string := "+48"
  /** The value the focus handler seeds into an empty field. */
  const Seed: string := "+48 "
  /** Digits of a Polish subscriber number, without the country code. */
  const NationalLength: nat := 9

  /** `digits.startsWith("48") ? digits.slice(2) : digits`, also what
      `replace(/^48/, "")` does. */
  function DropCountryCode(d: string): (r: string)
    ensures |d| >= 2 && d[..2] == "48" ==> d == "48" + r
    ensures !(|d| >= 2 && d[..2] == "48") ==> r == d
  {
    if |d| >= 2 && d[..2] == "48" then d[2..] else d
  }

  /** The digits that survive the mask: non-digits dropped, one leading "48"
      dropped, at most nine kept. */
  function KeptDigits(raw: string): (d: string)
    ensures AllDigits(d) && |d| <= NationalLength
  {
    Slice(DropCountryCode(Digits(raw)), 0, NationalLength)
  }

  /** The kept digits are the first nine of the input's digits after the
      country code, or all of them when there are fewer. */
  lemma {:induction false} KeptDigitsArePrefix(raw: string)
    ensures var all, d := DropCountryCode(Digits(raw)), KeptDigits(raw);
      |d| == Min(NationalLength, |all|) && d == all[..|d|]
  {
  }

  /** `formatPhone` (js/main.js:369-385): "+48", then the kept digits in groups
      of 3, 3 and 3, each group after one space. */
  function FormatPhone(raw: string): (r: string)
    ensures |r| >= 3 && r[..3] == Prefix
    ensures |r| <= 15
  {
    Prefix + GuardedGroups(KeptDigits(raw))
  }

  /** The three guarded appends of `formatPhone`, on the kept digits. */
  function GuardedGroups(d: string): (g: string)
    ensures |g| <= |d| + 3
  {
    var n := |d|;
    (if n > 0 then " " + Slice(d, 0, 3) else "")
    + (if n > 3 then " " + Slice(d, 3, 6) else "")
    + (if n > 6 then " " + Slice(d, 6, 9) else "")
  }

  /** Reference definition of the grouping: a space before each run of at most
      three digits, runs of exactly three except the last. */
  function Grouped(d: string): (g: string)
    decreases |d|
  {
    if d == [] then ""
    else if |d| <= 3 then " " + d
    else " " + d[..3] + Grouped(d[3..])
  }

  /** ⌈n / 3⌉, the number of groups of n digits. */
  function GroupCount(n: nat): nat {
    (n + 2) / 3
  }

  lemma GroupedOne(d: string)
    requires 0 < |d| <= 3
    ensures GuardedGroups(d) == Grouped(d)
  {
    assert Slice(d, 0, 3) == d;
  }

  lemma GroupedTwo(d: string)
    requires 3 < |d| <= 6
    ensures GuardedGroups(d) == Grouped(d)
  {
    assert Slice(d, 0, 3) == d[..3];
    assert Slice(d, 3, 6) == d[3..];
    assert Grouped(d[3..]) == " " + d[3..];
  }

  lemma GroupedThree(d: string)
    requires 6 < |d| <= 9
    ensures GuardedGroups(d) == Grouped(d)
  {
    var a, b, c := d[..3], d[3..6], d[6..];
    assert Slice(d, 0, 3) == a && Slice(d, 3, 6) == b && Slice(d, 6, 9) == c;
    assert d[3..][..3] == b && d[3..][3..] == c;
    assert Grouped(d[3..]) == " " + b + Grouped(c);
    assert Grouped(c) == " " + c;
    assert GuardedGroups(d) == " " + a + (" " + b + (" " + c));
  }

  /** The output of the mask is exactly the prefix followed by the grouped kept digits. */
  lemma FormatPhoneIsGrouped(raw: string)
    ensures FormatPhone(raw) == Prefix + Grouped(KeptDigits(raw))
  {
    var d := KeptDigits(raw);
    if |d| == 0 {
    } else if |d| <= 3 {
      GroupedOne(d);
    } else if |d| <= 6 {
      GroupedTwo(d);
    } else {
      GroupedThree(d);
    }
  }

  /** The grouping has ⌈n/3⌉ groups, one space each, never a trailing space,
      and gives back exactly the digits it was given. */
  lemma {:induction false} GroupedShape(d: string)
    requires AllDigits(d)
    ensures |Grouped(d)| == |d| + GroupCount(|d|)
    ensures Digits(Grouped(d)) == d
    ensures d == [] <==> Grouped(d) == []
    ensures d != [] ==> Grouped(d)[0] == ' ' && IsDigit(Grouped(d)[|Grouped(d)| - 1])
    decreases |d|
  {
    GroupedDigits(d);
    if |d| > 3 {
      GroupedShape(d[3..]);
      var rest := Grouped(d[3..]);
      assert Grouped(d) == (" " + d[..3]) + rest;
    }
  }

  lemma {:induction false} GroupedDigits(d: string)
    requires AllDigits(d)
    ensures Digits(Grouped(d)) == d
    decreases |d|
  {
    if d == [] {
    } else if |d| <= 3 {
      KeepAppend([' '], d, IsDigit);
    } else {
      GroupedDigits(d[3..]);
      KeepAppend([' '] + d[..3], Grouped(d[3..]), IsDigit);
      KeepAppend([' '], d[..3], IsDigit);
      assert d[..3] + d[3..] == d;
    }
  }

  /** The digits of a formatted number are "48" followed by the kept digits. */
  lemma FormatPhoneDigits(raw: string)
    ensures Digits(FormatPhone(raw)) == "48" + KeptDigits(raw)
  {
    var d := KeptDigits(raw);
    FormatPhoneIsGrouped(raw);
    GroupedShape(d);
    KeepAppend(Prefix, Grouped(d), IsDigit);
    assert Digits(Prefix) == "48" by {
      assert Prefix == "+" + "48";
      KeepAppend("+", "48", IsDigit);
    }
  }

  /** Re-masking a masked number keeps the same digits. */
  lemma KeptDigitsStable(raw: string)
    ensures KeptDigits(FormatPhone(raw)) == KeptDigits(raw)
  {
    FormatPhoneDigits(raw);
  }

  /** The mask is idempotent: typing into an already formatted field and
      re-formatting it gives back the same text. */
  lemma FormatPhoneIdempotent(raw: string)
    ensures FormatPhone(FormatPhone(raw)) == FormatPhone(raw)
  {
    KeptDigitsStable(raw);
  }

  /** The shape of the output for n kept digits: ⌈n/3⌉ groups after the prefix,
      a space opening each group, no trailing space, "+48" alone when n = 0. */
  lemma {:induction false} FormatPhoneShape(raw: string)
    ensures var n, f := |KeptDigits(raw)|, FormatPhone(raw);
      |f| == 3 + n + GroupCount(n)
      && (n == 0 <==> f == Prefix)
      && (n > 0 ==> f[3] == ' ' && IsDigit(f[|f| - 1]))
  {
    FormatPhoneIsGrouped(raw);
    PrefixedGroupsShape(FormatPhone(raw), KeptDigits(raw));
  }

  /** "+48" followed by the grouped digits `d`. */
  lemma PrefixedGroupsShape(f: string, d: string)
    requires AllDigits(d) && f == Prefix + Grouped(d)
    ensures |f| == 3 + |d| + GroupCount(|d|)
    ensures |d| == 0 <==> f == Prefix
    ensures |d| > 0 ==> f[3] == ' ' && IsDigit(f[|f| - 1])
  {
    GroupedShape(d);
    var g := Grouped(d);
    if d != [] {
      assert f[3] == g[0];
      assert f[|f| - 1] == g[|g| - 1];
    } else {
      assert f == Prefix;
    }
  }

  /** An eleven-or-more digit string that starts with the country code yields
      exactly "+48 DDD DDD DDD", the nine digits after the "48", whatever follows. */
  lemma LongNumberTruncated(s: string)
    requires AllDigits(s) && |s| >= 11 && s[..2] == "48"
    ensures FormatPhone(s) == Prefix + " " + s[2..5] + " " + s[5..8] + " " + s[8..11]
  {
    LongNumberKept(s);
    FormatPhoneIsGrouped(s);
    NineDigitsGrouped(s);
  }

  /** Of an all-digit string starting with "48", the mask keeps the nine digits
      after the country code. */
  lemma LongNumberKept(s: string)
    requires AllDigits(s) && |s| >= 11 && s[..2] == "48"
    ensures KeptDigits(s) == s[2..11]
  {
    assert Keep(s, IsDigit) == s;
  }

  /** Grouping the nine digits that follow a two-digit country code. */
  lemma NineDigitsGrouped(s: string)
    requires |s| >= 11
    ensures Prefix + Grouped(s[2..11]) == Prefix + " " + s[2..5] + " " + s[5..8] + " " + s[8..11]
  {
    var d := s[2..11];
    assert d[..3] == s[2..5];
    assert d[3..][..3] == s[5..8];
    assert d[3..][3..] == s[8..11];
    assert Grouped(d[3..][3..]) == " " + s[8..11];
    assert Grouped(d) == " " + s[2..5] + (" " + s[5..8] + (" " + s[8..11]));
  }

  /** The value the blur handler leaves: a bare prefix is cleared. */
  function BlurValue(v: string): (r: string)
    ensures r == "" || r == v
    ensures Trim(v, IsJsSpace) == Prefix ==> r == ""
    ensures Trim(v, IsJsSpace) != Prefix ==> r == v
  {
    TrimmedNeverSeed(v);
    var t := Trim(v, IsJsSpace);
    if t == "+48" || t == "+48 " then "" else v
  }

  /** The second comparison of the blur handler (`trim() === "+48 "`) can never
      hold: a trimmed value does not end in a space. */
  lemma TrimmedNeverSeed(v: string)
    ensures Trim(v, IsJsSpace) != Seed
  {
    TrimIsInnerSlice(v, IsJsSpace);
    assert IsJsSpace(Seed[|Seed| - 1]);
  }

  /** The seeded prefix, and the bare prefix, are cleared on blur, through the
      first comparison. */
  lemma SeedClearedOnBlur()
    ensures BlurValue(Seed) == "" && BlurValue(Prefix) == ""
  {
    assert !IsJsSpace('+') && !IsJsSpace('8') && IsJsSpace(' ');
    assert TrimStart(Seed, IsJsSpace) == Seed;
    assert TrimStart(Prefix, IsJsSpace) == Prefix;
    assert Seed[..|Seed| - 1] == Prefix;
    assert TrimEnd(Prefix, IsJsSpace) == Prefix;
    assert TrimEnd(Seed, IsJsSpace) == Prefix;
  }

  /** Digits of the national number, as the blur handler counts them
      (`replace(/\D/g, "").replace(/^48/, "").length`), without the cap of nine. */
  function NationalDigitCount(v: string): nat {
    |DropCountryCode(Digits(v))|
  }

  /** The "too short" warning of the blur handler: a non-empty value holding
      between one and eight national digits. */
  predicate TooShort(v: string) {
    v != "" && 0 < NationalDigitCount(v) < NationalLength
  }

  /** A complete masked number, and any value with no national digit, carry no
      warning; every masked number with one to eight digits carries it. */
  lemma TooShortOfMasked(raw: string)
    ensures var n := |KeptDigits(raw)|;
      TooShort(FormatPhone(raw)) <==> 0 < n < NationalLength
  {
    FormatPhoneDigits(raw);
    var d := KeptDigits(raw);
    assert ("48" + d)[..2] == "48";
    assert DropCountryCode("48" + d) == d;
  }

  /** `/[\d+\s]/.test(key)`: the key text holds a digit, a plus or whitespace. */
  predicate KeyMayEnterPhone(key: string) {
    exists k :: 0 <= k < |key| && (IsDigit(key[k]) || key[k] == '+' || IsJsSpace(key[k]))
  }

  /** The keypress handler cancels the key unless it passes the test above or
      a Ctrl or Meta modifier is held. */
  predicate KeypressBlocked(key: string, ctrl: bool, meta: bool) {
    !KeyMayEnterPhone(key) && !ctrl && !meta
  }

  /** For a single-character key without modifiers, exactly the digits, the plus
      sign and whitespace get through. */
  lemma SingleKeyFilter(c: char)
    ensures KeypressBlocked([c], false, false) <==> !(IsDigit(c) || c == '+' || IsJsSpace(c))
  {
    if IsDigit(c) || c == '+' || IsJsSpace(c) {
      assert [c][0] == c;
    }
  }
}
