/** `isValidEmail` (js/main.js:301-303), the test `/^[^\s@]+@[^\s@]+\.[^\s@]+$/`,
    written as a scan for the first "@" and a dot inside the domain, and shown
    equal to the split form "a@b.c". */
module EmailPattern {
  import opened Text

  /** A character of the class `[^\s@]`. */
  predicate IsAddressChar(c: char) {
    !IsJsSpace(c) && c != '@'
  }

  /** A non-empty run of `[^\s@]`. */
  predicate IsAddressRun(s: string) {
    |s| > 0 && forall k :: 0 <= k < |s| ==> IsAddressChar(s[k])
  }

  /** Position of the first "@", or the length when there is none. */
  function IndexOfAt(s: string): (i: nat)
    ensures i <= |s|
    ensures i < |s| ==> s[i] == '@'
    ensures forall k :: 0 <= k < i ==> s[k] != '@'
  {
    if s == [] then 0
    else if s[0] == '@' then 0
    else 1 + IndexOfAt(s[1..])
  }

  /** What may follow the "@": `[^\s@]+\.[^\s@]+`, i.e. only address characters
      and a dot with at least one character on each side of it. */
  predicate IsDomainPart(d: string) {
    |d| >= 3 && (forall k :: 0 <= k < |d| ==> IsAddressChar(d[k])) && '.' in d[1..|d| - 1]
  }

  predicate IsValidEmail(s: string) {
    var i := IndexOfAt(s);
    0 < i < |s| && IsAddressRun(s[..i]) && IsDomainPart(s[i + 1..])
  }

  /** Every "a@b.c" built from three runs of `[^\s@]` passes the test. */
  lemma ValidEmailFromParts(a: string, b: string, c: string)
    requires IsAddressRun(a) && IsAddressRun(b) && IsAddressRun(c)
    ensures IsValidEmail(a + "@" + b + "." + c)
  {
    var d := b + "." + c;
    DomainFromParts(b, c);
    var s := a + "@" + b + "." + c;
    assert s == a + ("@" + d);
    AtIsFirst(a, d);
    assert s[..|a|] == a;
    assert s[|a| + 1..] == d;
  }

  /** "b.c" with two runs of `[^\s@]` is what may follow the "@". */
  lemma DomainFromParts(b: string, c: string)
    requires IsAddressRun(b) && IsAddressRun(c)
    ensures IsDomainPart(b + "." + c)
  {
    var d := b + "." + c;
    assert d[1..|d| - 1][|b| - 1] == '.';
    forall k | 0 <= k < |d| ensures IsAddressChar(d[k]) {
      if k < |b| {
        assert d[k] == b[k];
      } else if k > |b| {
        assert d[k] == c[k - |b| - 1];
      }
    }
  }

  lemma {:induction false} AtIsFirst(a: string, d: string)
    requires forall k :: 0 <= k < |a| ==> a[k] != '@'
    ensures IndexOfAt(a + ("@" + d)) == |a|
  {
    if a != [] {
      assert (a + ("@" + d))[1..] == a[1..] + ("@" + d);
      AtIsFirst(a[1..], d);
    }
  }

  /** Every string that passes the test splits as "a@b.c" with three runs of
      `[^\s@]`. */
  lemma PartsOfValidEmail(s: string) returns (a: string, b: string, c: string)
    requires IsValidEmail(s)
    ensures IsAddressRun(a) && IsAddressRun(b) && IsAddressRun(c)
    ensures s == a + "@" + b + "." + c
  {
    var i := IndexOfAt(s);
    var d := s[i + 1..];
    var inner := d[1..|d| - 1];
    var j :| 0 <= j < |inner| && inner[j] == '.';
    assert d[j + 1] == '.';
    a, b, c := s[..i], d[..j + 1], d[j + 2..];
    RunOfSlice(d, 0, j + 1);
    RunOfSlice(d, j + 2, |d|);
    SplitAround(d, j + 1);
    SplitAround(s, i);
  }

  /** A non-empty slice of address characters is a run. */
  lemma RunOfSlice(x: string, lo: nat, hi: nat)
    requires lo < hi <= |x|
    requires forall k :: 0 <= k < |x| ==> IsAddressChar(x[k])
    ensures IsAddressRun(x[lo..hi])
  {
    forall k | 0 <= k < hi - lo ensures IsAddressChar(x[lo..hi][k]) {
      assert x[lo..hi][k] == x[lo + k];
    }
  }

  /** A string is what precedes a position, the character there, and what follows. */
  lemma SplitAround(x: string, p: nat)
    requires p < |x|
    ensures x == x[..p] + [x[p]] + x[p + 1..]
  {
  }

  /** Without any "@" the scan runs to the end. */
  lemma {:induction false} IndexOfAtMissing(s: string)
    requires forall k :: 0 <= k < |s| ==> s[k] != '@'
    ensures IndexOfAt(s) == |s|
  {
    if s != [] {
      IndexOfAtMissing(s[1..]);
    }
  }

  /** The two examples the inline validator is known by. */
  lemma EmailExamples()
    ensures IsValidEmail("a@b.co")
    ensures !IsValidEmail("not-an-email")
  {
    assert IsAddressRun("a") && IsAddressRun("b") && IsAddressRun("co") by {
      assert IsAddressChar('a') && IsAddressChar('b') && IsAddressChar('c') && IsAddressChar('o');
    }
    ValidEmailFromParts("a", "b", "co");
    assert "a" + "@" + "b" + "." + "co" == "a@b.co";
    IndexOfAtMissing("not-an-email");
  }
}
