/** The e-mail shape check of the sign-in form: the regular expression
    `^[^\s@]+@[^\s@]+\.[^\s@]+$`, stated over the characters of the input. */
module EmailPattern {

  /** The class `\s` of an ECMAScript regular expression: the WhiteSpace and
      LineTerminator code points. */
  predicate IsSpace(c: char) {
    c == '\t' || c == '\n' || c == '\U{000B}' || c == '\U{000C}' || c == '\r' || c == ' ' ||
    c == '\U{00A0}' || c == '\U{1680}' || ('\U{2000}' <= c <= '\U{200A}') ||
    c == '\U{2028}' || c == '\U{2029}' || c == '\U{202F}' || c == '\U{205F}' ||
    c == '\U{3000}' || c == '\U{FEFF}'
  }

  /** The class `[^\s@]`. */
  predicate IsRunChar(c: char) {
    c != '@' && !IsSpace(c)
  }

  /** `[^\s@]+`: a non-empty run of characters that are neither `@` nor whitespace. */
  predicate IsRun(s: string) {
    |s| > 0 && forall k :: 0 <= k < |s| ==> IsRunChar(s[k])
  }

  /** `s` reads as run `@` run `.` run, with the `@` at `at` and the literal dot at `dot`. */
  predicate SplitsAt(s: string, at: int, dot: int) {
    0 <= at < dot < |s| && s[at] == '@' && s[dot] == '.' &&
    IsRun(s[..at]) && IsRun(s[at + 1..dot]) && IsRun(s[dot + 1..])
  }

  /** `/^[^\s@]+@[^\s@]+\.[^\s@]+$/.test(s)`: some choice of the `@` and of the
      separating dot splits the whole input into three runs. An accepted input has at
      least five characters and starts and ends with a run character. */
  predicate IsValidEmail(s: string)
    ensures IsValidEmail(s) ==> |s| >= 5 && IsRunChar(s[0]) && IsRunChar(s[|s| - 1])
  {
    exists at, dot | 0 <= at < dot < |s| :: SplitsAt(s, at, dot)
  }

  predicate NoSpace(s: string) {
    forall k :: 0 <= k < |s| ==> !IsSpace(s[k])
  }

  /** Position of the first `c` in `s`, or `|s|` when `s` has none. */
  function IndexOf(s: string, c: char): (r: nat)
    ensures r <= |s|
    ensures r < |s| ==> s[r] == c
    ensures forall k :: 0 <= k < r ==> s[k] != c
  {
    if s == [] then 0
    else if s[0] == c then 0
    else 1 + IndexOf(s[1..], c)
  }

  /** If `c` occurs exactly once in `s`, at `i`, then nowhere else. */
  lemma OnlyOccurrence(s: string, c: char, i: int)
    requires 0 <= i < |s| && s[i] == c && multiset(s)[c] == 1
    ensures forall k :: 0 <= k < |s| && k != i ==> s[k] != c
  {
    assert s == s[..i] + [s[i]] + s[i + 1..];
    assert multiset(s) == multiset(s[..i]) + multiset{c} + multiset(s[i + 1..]);
    assert c !in multiset(s[..i]) && c !in multiset(s[i + 1..]);
    forall k | 0 <= k < |s| && k != i
      ensures s[k] != c
    {
      if k < i {
        assert s[..i][k] == s[k];
      } else {
        assert s[i + 1..][k - i - 1] == s[k];
      }
    }
  }

  /** Every character of a run is a run character: neither `@` nor whitespace. */
  lemma RunChars(s: string, lo: int, hi: int)
    requires 0 <= lo <= hi <= |s| && IsRun(s[lo..hi])
    ensures forall k :: lo <= k < hi ==> IsRunChar(s[k])
  {
    forall k | lo <= k < hi
      ensures IsRunChar(s[k])
    {
      assert s[lo..hi][k - lo] == s[k];
    }
  }

  /** Every character between `lo` and `hi` is a run character, and there is one. */
  lemma RunFromChars(s: string, lo: int, hi: int)
    requires 0 <= lo < hi <= |s|
    requires forall k :: lo <= k < hi ==> IsRunChar(s[k])
    ensures IsRun(s[lo..hi])
  {
    forall k | 0 <= k < hi - lo
      ensures IsRunChar(s[lo..hi][k])
    {
      assert s[lo..hi][k] == s[lo + k];
    }
  }

  /** The shape the pattern accepts, stated without the split: no whitespace, a
      single `@`, not in first position, followed later by a dot with at least one
      character on each side of it (the part between `@` and that dot may hold
      more dots). */
  predicate HasEmailShape(s: string) {
    NoSpace(s) && multiset(s)['@'] == 1 &&
    var at := IndexOf(s, '@');
    0 < at && exists dot | at + 1 < dot < |s| - 1 :: s[dot] == '.'
  }

  lemma {:induction false} ShapeOfSplit(s: string, at: int, dot: int)
    requires SplitsAt(s, at, dot)
    ensures HasEmailShape(s)
  {
    RunChars(s, 0, at);
    RunChars(s, at + 1, dot);
    RunChars(s, dot + 1, |s|);
    assert forall k :: 0 <= k < |s| && k != at ==> IsRunChar(s[k]) by {
      forall k | 0 <= k < |s| && k != at
        ensures IsRunChar(s[k])
      {
        if k < at {
        } else if k < dot {
        } else if k == dot {
        } else {
        }
      }
    }
    assert s == s[..at] + [s[at]] + s[at + 1..];
    assert '@' !in s[..at] && '@' !in s[at + 1..];
    assert multiset(s) == multiset(s[..at]) + multiset{'@'} + multiset(s[at + 1..]);
    assert IndexOf(s, '@') == at;
    assert at + 1 < dot < |s| - 1 && s[dot] == '.';
  }

  lemma {:induction false} SplitOfShape(s: string)
    requires HasEmailShape(s)
    ensures IsValidEmail(s)
  {
    var at := IndexOf(s, '@');
    var dot :| at + 1 < dot < |s| - 1 && s[dot] == '.';
    OnlyOccurrence(s, '@', at);
    RunFromChars(s, 0, at);
    RunFromChars(s, at + 1, dot);
    RunFromChars(s, dot + 1, |s|);
    assert SplitsAt(s, at, dot);
  }

  /** The pattern accepts exactly the inputs of that shape. */
  lemma EmailShape(s: string)
    ensures IsValidEmail(s) <==> HasEmailShape(s)
  {
    if IsValidEmail(s) {
      var at, dot :| 0 <= at < dot < |s| && SplitsAt(s, at, dot);
      ShapeOfSplit(s, at, dot);
    }
    if HasEmailShape(s) {
      SplitOfShape(s);
    }
  }

  /** The address of the seeded demo account passes the check. */
  lemma DemoAddressIsValid()
    ensures IsValidEmail("user@example.com")
  {
    var s := "user@example.com";
    RunFromChars(s, 0, 4);
    RunFromChars(s, 5, 12);
    RunFromChars(s, 13, 16);
    assert SplitsAt(s, 4, 12);
  }

  /** Whitespace anywhere makes the check fail. */
  lemma RejectsSpace(s: string, k: int)
    requires 0 <= k < |s| && IsSpace(s[k])
    ensures !IsValidEmail(s)
  {
  }

  /** An input that starts with `@` has no local part and fails the check. */
  lemma RejectsLeadingAt(s: string)
    requires |s| > 0 && s[0] == '@'
    ensures !IsValidEmail(s)
  {
    EmailShape(s);
    assert IndexOf(s, '@') == 0;
  }
}
