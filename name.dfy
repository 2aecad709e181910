/** The name field of the contact form (js/main.js:428-443): the character
    filter applied on every input and the clean-up applied on blur. */
module NameInput {
  import opened Text

  /** The Polish letters the filter admits, lower and upper case, in the same order. */
  const PolishLower: string := "ąćęłńóśźż"
  const PolishUpper: string := "ĄĆĘŁŃÓŚŹŻ"

  predicate IsAsciiLetter(c: char) {
    'a' <= c <= 'z' || 'A' <= c <= 'Z'
  }

  predicate IsPolishLetter(c: char) {
    c in PolishLower || c in PolishUpper
  }

  /** `[a-zA-ZąćęłńóśźżĄĆĘŁŃÓŚŹŻ\s\-']`: the characters the input filter keeps. */
  predicate NameAllowed(c: char) {
    IsAsciiLetter(c) || IsPolishLetter(c) || IsJsSpace(c) || c == '-' || c == '\''
  }

  /** The input handler's value: every character outside the class removed. */
  function FilterName(s: string): (r: string)
    ensures forall k :: 0 <= k < |r| ==> NameAllowed(r[k])
    ensures r == s <==> forall k :: 0 <= k < |s| ==> NameAllowed(s[k])
  {
    Keep(s, NameAllowed)
  }

  /** Every allowed character of the input survives the filter, as often as it occurs. */
  lemma {:induction false} FilterNameKeepsAllowed(s: string)
    ensures forall c :: NameAllowed(c) ==> multiset(FilterName(s))[c] == multiset(s)[c]
  {
    KeepCountsAccepted(s, NameAllowed);
  }

  /** Filtering is idempotent, so the handler's `value !== clean` test fails on
      the second pass and the field is written at most once per input. */
  lemma FilterNameIdempotent(s: string)
    ensures FilterName(FilterName(s)) == FilterName(s)
  {
  }

  predicate IsNotJsSpace(c: char) {
    !IsJsSpace(c)
  }

  lemma {:induction false} KeepNothing(s: string, keep: char -> bool)
    requires forall k :: 0 <= k < |s| ==> !keep(s[k])
    ensures Keep(s, keep) == []
  {
    if s != [] {
      KeepNothing(s[1..], keep);
    }
  }

  /** `s.replace(/\s+/g, " ")`: every run of whitespace becomes one space. */
  function CollapseSpaces(s: string): (r: string)
    ensures |r| <= |s|
    ensures (r == []) == (s == [])
    ensures s != [] ==> (IsJsSpace(r[0]) <==> IsJsSpace(s[0]))
    decreases |s|
  {
    if s == [] then []
    else if IsJsSpace(s[0]) then " " + CollapseSpaces(TrimStart(s[1..], IsJsSpace))
    else [s[0]] + CollapseSpaces(s[1..])
  }

  /** The reference for the collapse: a left-to-right scan that copies every
      other character and writes one space at the start of each whitespace run,
      `inRun` saying whether the previous character was whitespace. */
  function CollapseScan(s: string, inRun: bool): (r: string)
    ensures |r| <= |s|
  {
    if s == [] then []
    else if IsJsSpace(s[0]) then (if inRun then [] else " ") + CollapseScan(s[1..], true)
    else [s[0]] + CollapseScan(s[1..], false)
  }

  /** Inside a run, the rest of the run writes nothing. */
  lemma {:induction false} ScanSkipsRun(x: string)
    ensures CollapseScan(x, true) == CollapseScan(TrimStart(x, IsJsSpace), true)
    decreases |x|
  {
    if x != [] && IsJsSpace(x[0]) {
      ScanSkipsRun(x[1..]);
      TrimStartStep(x, IsJsSpace);
    } else {
      assert LeadingCount(x, IsJsSpace) == 0;
    }
  }

  /** The recursive collapse agrees with the scan: each maximal whitespace run
      becomes exactly one space, every other character is copied. */
  lemma {:induction false} CollapseSpacesIsScan(s: string)
    ensures CollapseSpaces(s) == CollapseScan(s, false)
    decreases |s|
  {
    if s != [] {
      if IsJsSpace(s[0]) {
        var t := TrimStart(s[1..], IsJsSpace);
        ScanSkipsRun(s[1..]);
        assert CollapseScan(t, true) == CollapseScan(t, false);
        CollapseSpacesIsScan(t);
      } else {
        CollapseSpacesIsScan(s[1..]);
      }
    }
  }

  /** Every whitespace is a plain space and no two whitespace characters are adjacent. */
  predicate SingleSpaced(r: string) {
    (forall k :: 0 <= k < |r| && IsJsSpace(r[k]) ==> r[k] == ' ')
    && (forall k :: 0 <= k < |r| - 1 ==> !(IsJsSpace(r[k]) && IsJsSpace(r[k + 1])))
  }

  /** Prepending a character keeps a string single-spaced unless both it and
      the string's first character are whitespace, or it is whitespace other
      than a plain space. */
  lemma ConsSingleSpaced(c: char, r: string)
    requires SingleSpaced(r)
    requires IsJsSpace(c) ==> c == ' ' && (r == [] || !IsJsSpace(r[0]))
    ensures SingleSpaced([c] + r)
  {
    var q := [c] + r;
    forall k | 0 < k < |q| ensures q[k] == r[k - 1] { }
  }

  /** A collapsed string is single-spaced. */
  lemma {:induction false} CollapseSpacesSingle(s: string)
    ensures SingleSpaced(CollapseSpaces(s))
    decreases |s|
  {
    if s == [] {
    } else if IsJsSpace(s[0]) {
      var t := TrimStart(s[1..], IsJsSpace);
      CollapseSpacesSingle(t);
      ConsSingleSpaced(' ', CollapseSpaces(t));
    } else {
      CollapseSpacesSingle(s[1..]);
      ConsSingleSpaced(s[0], CollapseSpaces(s[1..]));
    }
  }

  /** Collapsing keeps every other character, in order. */
  lemma {:induction false} CollapseSpacesKeeps(s: string)
    ensures Keep(CollapseSpaces(s), IsNotJsSpace) == Keep(s, IsNotJsSpace)
    decreases |s|
  {
    if s != [] {
      assert [s[0]] + s[1..] == s;
      KeepAppend([s[0]], s[1..], IsNotJsSpace);
      if IsJsSpace(s[0]) {
        var t := TrimStart(s[1..], IsJsSpace);
        CollapseSpacesKeeps(t);
        DroppedSpacesKeepNothing(s[1..]);
        KeepAppend(" ", CollapseSpaces(t), IsNotJsSpace);
      } else {
        CollapseSpacesKeeps(s[1..]);
        KeepAppend([s[0]], CollapseSpaces(s[1..]), IsNotJsSpace);
      }
    }
  }

  /** A collapsed string ends in whitespace exactly when the input does. */
  lemma {:induction false} CollapseSpacesLast(s: string)
    requires s != []
    ensures var r := CollapseSpaces(s); IsJsSpace(r[|r| - 1]) <==> IsJsSpace(s[|s| - 1])
    decreases |s|
  {
    if IsJsSpace(s[0]) {
      var t := TrimStart(s[1..], IsJsSpace);
      if t != [] {
        CollapseSpacesLast(t);
        LastOfAppend(" ", CollapseSpaces(t));
        SuffixLast(s, t);
      } else {
        SpaceRunLast(s);
      }
    } else if |s| > 1 {
      CollapseSpacesLast(s[1..]);
      LastOfAppend([s[0]], CollapseSpaces(s[1..]));
      SuffixLast(s, s[1..]);
    }
  }

  /** The last character of a concatenation with a non-empty right part. */
  lemma LastOfAppend(a: string, b: string)
    requires b != []
    ensures (a + b)[|a + b| - 1] == b[|b| - 1]
  {
  }

  /** A non-empty suffix shares its last character with the whole string. */
  lemma SuffixLast(s: string, t: string)
    requires t != [] && |t| <= |s| && t == s[|s| - |t|..]
    ensures t[|t| - 1] == s[|s| - 1]
  {
  }

  /** A string that is whitespace from its second character on ends in
      whitespace iff it starts with it. */
  lemma SpaceRunLast(s: string)
    requires s != [] && IsJsSpace(s[0]) && TrimStart(s[1..], IsJsSpace) == []
    ensures IsJsSpace(s[|s| - 1])
  {
    if |s| > 1 {
      assert IsJsSpace(s[1..][|s| - 2]);
    }
  }

  /** The whitespace that `TrimStart` drops holds no non-space character. */
  lemma DroppedSpacesKeepNothing(s: string)
    ensures Keep(TrimStart(s, IsJsSpace), IsNotJsSpace) == Keep(s, IsNotJsSpace)
  {
    var t := TrimStart(s, IsJsSpace);
    var i := |s| - |t|;
    var dropped := s[..i];
    assert s == dropped + t;
    forall k | 0 <= k < |dropped| ensures !IsNotJsSpace(dropped[k]) {
      assert dropped[k] == s[k];
    }
    KeepAppend(dropped, t, IsNotJsSpace);
    KeepNothing(dropped, IsNotJsSpace);
  }

  /** The trim-and-collapse part of the blur handler. */
  function NormaliseName(s: string): (r: string) {
    CollapseSpaces(Trim(s, IsJsSpace))
  }

  /** After normalising: no whitespace at either end, every whitespace a single
      plain space between two other characters, and the non-space characters
      exactly those of the input, in order. */
  lemma {:induction false} NormaliseNameShape(s: string)
    ensures var r := NormaliseName(s);
      (r == [] || (!IsJsSpace(r[0]) && !IsJsSpace(r[|r| - 1])))
      && SingleSpaced(r)
      && Keep(r, IsNotJsSpace) == Keep(s, IsNotJsSpace)
  {
    var t := Trim(s, IsJsSpace);
    TrimIsInnerSlice(s, IsJsSpace);
    CollapseSpacesSingle(t);
    CollapseSpacesKeeps(t);
    if t != [] {
      CollapseSpacesLast(t);
    }
    TrimKeepsNonSpace(s);
  }

  /** The whitespace that `TrimEnd` drops holds no non-space character. */
  lemma {:induction false} TrailingSpacesKeepNothing(t: string)
    ensures Keep(TrimEnd(t, IsJsSpace), IsNotJsSpace) == Keep(t, IsNotJsSpace)
  {
    var r := TrimEnd(t, IsJsSpace);
    var tail := t[|r|..];
    assert t == r + tail;
    forall k | 0 <= k < |tail| ensures !IsNotJsSpace(tail[k]) {
      assert tail[k] == t[|r| + k];
    }
    KeepAppend(r, tail, IsNotJsSpace);
    KeepNothing(tail, IsNotJsSpace);
  }

  /** Trimming drops only whitespace. */
  lemma {:induction false} TrimKeepsNonSpace(s: string)
    ensures Keep(Trim(s, IsJsSpace), IsNotJsSpace) == Keep(s, IsNotJsSpace)
  {
    DroppedSpacesKeepNothing(s);
    TrailingSpacesKeepNothing(TrimStart(s, IsJsSpace));
  }

  // ---------------------------------------------------------------------------
  // Capitalisation on blur: `.replace(/\b\p{L}/gu, c => c.toUpperCase())`.
  // Letters are those of the filter's alphabet; upper-casing is given for them.

  /** `\p{L}` over the filter's alphabet. */
  predicate IsLetter(c: char) {
    IsAsciiLetter(c) || IsPolishLetter(c)
  }

  predicate IsUpperLetter(c: char) {
    'A' <= c <= 'Z' || c in PolishUpper
  }

  /** `toUpperCase` on the filter's letters; every other character unchanged. */
  function ToUpper(c: char): (u: char)
    ensures IsLetter(c) ==> IsUpperLetter(u)
    ensures !IsLetter(c) ==> u == c
    ensures IsUpperLetter(c) ==> u == c
    ensures 'a' <= c <= 'z' ==> u as int == c as int - 32
  {
    if 'a' <= c <= 'z' then (c as int - 32) as char
    else if c == 'ą' then 'Ą'
    else if c == 'ć' then 'Ć'
    else if c == 'ę' then 'Ę'
    else if c == 'ł' then 'Ł'
    else if c == 'ń' then 'Ń'
    else if c == 'ó' then 'Ó'
    else if c == 'ś' then 'Ś'
    else if c == 'ź' then 'Ź'
    else if c == 'ż' then 'Ż'
    else c
  }

  /** Each Polish lower-case letter goes to the capital at the same position. */
  lemma ToUpperPairs()
    ensures |PolishLower| == |PolishUpper|
    ensures forall i :: 0 <= i < |PolishLower| ==> ToUpper(PolishLower[i]) == PolishUpper[i]
  {
  }

  /** `\w` of a regular expression without the `i` flag: ASCII letters, digits
      and underscore, even under the `u` flag. */
  predicate IsAsciiWordChar(c: char) {
    IsAsciiLetter(c) || IsDigit(c) || c == '_'
  }

  /** `\b` before position k: exactly one of its neighbours is a `\w` character. */
  predicate AsciiBoundaryBefore(s: string, k: nat)
    requires k < |s|
  {
    (k > 0 && IsAsciiWordChar(s[k - 1])) != IsAsciiWordChar(s[k])
  }

  /** The capitalisation as the handler writes it. */
  function CapitaliseAsWritten(s: string): (r: string)
    ensures |r| == |s|
  {
    seq(|s|, k requires 0 <= k < |s| =>
      if IsLetter(s[k]) && AsciiBoundaryBefore(s, k) then ToUpper(s[k]) else s[k])
  }

  /** Because `\b` knows only ASCII word characters, a name starting with a
      Polish letter keeps it lower-case and gets its second letter capitalised
      instead, and a Polish letter after an ASCII one is capitalised too. */
  lemma CapitaliseAsWrittenMissesPolish()
    ensures CapitaliseAsWritten("łukasz") == "łUkasz"
    ensures CapitaliseAsWritten("ał") == "AŁ"
  {
    AsWrittenLukasz();
    AsWrittenAl();
  }

  lemma AsWrittenLukasz()
    ensures CapitaliseAsWritten("łukasz") == "łUkasz"
  {
    var s := "łukasz";
    var r := CapitaliseAsWritten(s);
    assert !IsAsciiWordChar('ł') && IsAsciiWordChar('u');
    assert !AsciiBoundaryBefore(s, 0) && AsciiBoundaryBefore(s, 1);
    assert r[0] == 'ł' && r[1] == 'U';
    assert forall k :: 2 <= k < 6 ==> !AsciiBoundaryBefore(s, k);
    assert r[2] == 'k' && r[3] == 'a' && r[4] == 's' && r[5] == 'z';
  }

  lemma AsWrittenAl()
    ensures CapitaliseAsWritten("ał") == "AŁ"
  {
    var q := CapitaliseAsWritten("ał");
    assert q[0] == 'A' && q[1] == 'Ł';
  }

  /** Word characters once Polish letters are counted as letters. */
  predicate IsWordChar(c: char) {
    IsAsciiWordChar(c) || IsPolishLetter(c)
  }

  /** The letter at k opens a word: nothing or a non-word character before it. */
  predicate StartsWord(s: string, k: nat)
    requires k < |s|
  {
    IsLetter(s[k]) && (k == 0 || !IsWordChar(s[k - 1]))
  }

  /** The capitalisation the handler intends: the first letter of every word,
      Polish or not, upper-cased. */
  function CapitaliseWords(s: string): (r: string)
    ensures |r| == |s|
    ensures forall k :: 0 <= k < |s| && StartsWord(s, k) ==> IsUpperLetter(r[k]) && r[k] == ToUpper(s[k])
    ensures forall k :: 0 <= k < |s| && !StartsWord(s, k) ==> r[k] == s[k]
  {
    seq(|s|, k requires 0 <= k < |s| => if StartsWord(s, k) then ToUpper(s[k]) else s[k])
  }

  /** On text without Polish letters the intended rule is exactly what the
      handler does: the correction changes nothing for ASCII names. */
  lemma CapitaliseAgreesWithoutPolish(s: string)
    requires AllChars(s, NotPolish)
    ensures CapitaliseWords(s) == CapitaliseAsWritten(s)
  {
    forall k | 0 <= k < |s|
      ensures CapitaliseWords(s)[k] == CapitaliseAsWritten(s)[k]
    {
      if IsLetter(s[k]) {
        assert IsAsciiWordChar(s[k]);
      }
    }
  }

  /** The intended rule on the examples above. */
  lemma CapitaliseWordsPolish()
    ensures CapitaliseWords("łukasz") == "Łukasz"
    ensures CapitaliseWords("ał") == "Ał"
  {
    var r := CapitaliseWords("łukasz");
    assert IsWordChar('ł');
    assert r[0] == 'Ł' && r[1] == 'u';
    assert r[2] == 'k' && r[3] == 'a' && r[4] == 's' && r[5] == 'z';
    var q := CapitaliseWords("ał");
    assert q[0] == 'A' && q[1] == 'ł';
  }

  /** The blur handler's new value, with the intended capitalisation. */
  function BlurName(s: string): (r: string)
    ensures |r| <= |s|
  {
    CapitaliseWords(NormaliseName(s))
  }

  /** The blur handler's new value as the code computes it. */
  function BlurNameAsWritten(s: string): (r: string)
    ensures |r| == |NormaliseName(s)| && |r| <= |s|
  {
    CapitaliseAsWritten(NormaliseName(s))
  }

  predicate AllChars(s: string, p: char -> bool) {
    forall k :: 0 <= k < |s| ==> p(s[k])
  }

  lemma {:induction false} AllCharsAppend(a: string, b: string, p: char -> bool)
    requires AllChars(a, p) && AllChars(b, p)
    ensures AllChars(a + b, p)
  {
  }

  /** Trimming keeps a slice of its input, so any property of all the input's
      characters holds of the result's. */
  lemma {:induction false} TrimKeepsCharProperty(s: string, p: char -> bool)
    requires AllChars(s, p)
    ensures AllChars(Trim(s, IsJsSpace), p)
  {
    var t := Trim(s, IsJsSpace);
    var i := |s| - |TrimStart(s, IsJsSpace)|;
    assert forall k :: 0 <= k < |t| ==> t[k] == s[i + k];
  }

  /** Collapsing brings in no character other than a plain space, so any
      property of all the input's characters that a space also has holds of
      the output's. */
  lemma {:induction false} CollapseKeepsCharProperty(s: string, p: char -> bool)
    requires p(' ') && AllChars(s, p)
    ensures AllChars(CollapseSpaces(s), p)
    decreases |s|
  {
    if s != [] {
      if IsJsSpace(s[0]) {
        var t := TrimStart(s[1..], IsJsSpace);
        assert forall k :: 0 <= k < |t| ==> t[k] == s[1..][|s[1..]| - |t| + k];
        CollapseKeepsCharProperty(t, p);
        AllCharsAppend(" ", CollapseSpaces(t), p);
      } else {
        assert forall k :: 0 <= k < |s| - 1 ==> s[1..][k] == s[k + 1];
        CollapseKeepsCharProperty(s[1..], p);
        AllCharsAppend([s[0]], CollapseSpaces(s[1..]), p);
      }
    }
  }

  predicate NotPolish(c: char) {
    !IsPolishLetter(c)
  }

  /** Normalising brings in no Polish letter. */
  lemma {:induction false} NormaliseKeepsNoPolish(s: string)
    requires AllChars(s, NotPolish)
    ensures AllChars(NormaliseName(s), NotPolish)
  {
    TrimKeepsCharProperty(s, NotPolish);
    assert NotPolish(' ');
    CollapseKeepsCharProperty(Trim(s, IsJsSpace), NotPolish);
  }

  /** For a name without Polish letters the corrected blur is exactly what the
      code writes. */
  lemma {:induction false} BlurNameAgreesWithoutPolish(s: string)
    requires AllChars(s, NotPolish)
    ensures BlurName(s) == BlurNameAsWritten(s)
  {
    NormaliseKeepsNoPolish(s);
    CapitaliseAgreesWithoutPolish(NormaliseName(s));
  }


}
