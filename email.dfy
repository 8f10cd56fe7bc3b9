/** The contact form's email check, the regular expression
    `^[^\s@]+@[^\s@]+\.[^\s@]+$`, written twice: once following the
    shape of the pattern (three runs of `[^\s@]` joined by `@` and `.`),
    once as the explicit string test the form performs, with a proof that
    the two agree on every string. */
module Email {
  import opened Text

  /** The character class `[^\s@]`. */
  predicate InClass(c: char)
  {
    !IsWhitespace(c) && c != '@'
  }

  /** `t` matches `[^\s@]+`. */
  predicate IsRun(t: string)
  {
    |t| > 0 && forall k :: 0 <= k < |t| ==> InClass(t[k])
  }

  /** `s` matches `^[^\s@]+@[^\s@]+\.[^\s@]+$`: it splits at an `@` at
      index i and a `.` at index j into three runs of `[^\s@]`. */
  ghost predicate MatchesPattern(s: string)
  {
    exists i, j :: 0 <= i < j < |s| && s[i] == '@' && s[j] == '.' &&
      IsRun(s[..i]) && IsRun(s[i + 1..j]) && IsRun(s[j + 1..])
  }

  /** Number of occurrences of `c` in `s`. */
  function Count(s: string, c: char): (n: nat)
    ensures n <= |s|
  {
    if s == [] then 0 else (if s[0] == c then 1 else 0) + Count(s[1..], c)
  }

  /** Index of the first `c` in `s`, or |s| when there is none. */
  function IndexOf(s: string, c: char): (i: nat)
    ensures i <= |s|
    ensures i < |s| ==> s[i] == c
    ensures forall k :: 0 <= k < i ==> s[k] != c
  {
    if s == [] then 0
    else if s[0] == c then 0
    else
      1 + IndexOf(s[1..], c)
  }

  /** The domain contains a `.` that is neither its first nor its last
      character. */
  predicate HasInnerDot(d: string)
  {
    exists k :: 0 < k < |d| - 1 && d[k] == '.'
  }

  /** The pattern as an explicit test: no whitespace anywhere, exactly one
      `@`, a non-empty part before it, and after it a domain with an inner
      `.`. */
  predicate ValidEmail(s: string)
  {
    var i := IndexOf(s, '@');
    (forall k :: 0 <= k < |s| ==> !IsWhitespace(s[k])) &&
    Count(s, '@') == 1 &&
    0 < i < |s| && HasInnerDot(s[i + 1..])
  }

  lemma {:induction false} CountConcat(a: string, b: string, c: char)
    ensures Count(a + b, c) == Count(a, c) + Count(b, c)
  {
    if a != [] {
      assert (a + b)[1..] == a[1..] + b;
      CountConcat(a[1..], b, c);
    } else {
      assert a + b == b;
    }
  }

  lemma {:induction false} CountZero(s: string, c: char)
    ensures Count(s, c) == 0 <==> c !in s
  {
    if s != [] {
      CountZero(s[1..], c);
      assert s == [s[0]] + s[1..];
    }
  }

  /** A string with a single `@` has it nowhere but at the index found. */
  lemma AtIsUnique(s: string, i: nat)
    requires i < |s| && s[i] == '@' && Count(s, '@') == 1
    ensures forall m :: 0 <= m < |s| && m != i ==> s[m] != '@'
  {
    var a, d := s[..i], s[i + 1..];
    assert s == a + [s[i]] + d;
    CountConcat(a + [s[i]], d, '@');
    CountConcat(a, [s[i]], '@');
    CountZero(a, '@');
    CountZero(d, '@');
    assert forall m :: 0 <= m < i ==> s[m] == a[m];
    assert forall m :: i < m < |s| ==> s[m] == d[m - i - 1];
  }

  /** Cutting a string at i and j, where every other character is in
      `[^\s@]`, leaves three runs when none of them is empty. */
  lemma RunsOfSplit(s: string, i: nat, j: nat)
    requires 0 < i && i + 1 < j && j + 1 < |s|
    requires forall m :: 0 <= m < |s| && m != i && m != j ==> InClass(s[m])
    ensures IsRun(s[..i]) && IsRun(s[i + 1..j]) && IsRun(s[j + 1..])
  {
    var a, b, c := s[..i], s[i + 1..j], s[j + 1..];
    forall m | 0 <= m < |a| ensures InClass(a[m]) {
      assert a[m] == s[m];
    }
    forall m | 0 <= m < |b| ensures InClass(b[m]) {
      assert b[m] == s[i + 1 + m];
    }
    forall m | 0 <= m < |c| ensures InClass(c[m]) {
      assert c[m] == s[j + 1 + m];
    }
  }

  /** Every string the explicit test accepts matches the pattern. */
  lemma ValidEmailMatchesPattern(s: string)
    requires ValidEmail(s)
    ensures MatchesPattern(s)
  {
    var i := IndexOf(s, '@');
    var d := s[i + 1..];
    var k :| 0 < k < |d| - 1 && d[k] == '.';
    var j := i + 1 + k;
    assert s[j] == d[k];
    AtIsUnique(s, i);
    assert forall m :: 0 <= m < |s| && m != i && m != j ==> InClass(s[m]);
    RunsOfSplit(s, i, j);
  }

  /** In a string the pattern splits at i and j, every other character is
      in `[^\s@]`. */
  lemma SplitChars(s: string, i: nat, j: nat)
    requires i < j < |s|
    requires IsRun(s[..i]) && IsRun(s[i + 1..j]) && IsRun(s[j + 1..])
    ensures forall k :: 0 <= k < |s| && k != i && k != j ==> InClass(s[k])
  {
    forall k | 0 <= k < |s| && k != i && k != j ensures InClass(s[k]) {
      if k < i {
        assert s[..i][k] == s[k];
      } else if k < j {
        assert s[i + 1..j][k - i - 1] == s[k];
      } else {
        assert s[j + 1..][k - j - 1] == s[k];
      }
    }
  }

  /** A string whose only `@` is at index i has exactly one `@`. */
  lemma CountOne(s: string, i: nat)
    requires i < |s| && s[i] == '@'
    requires forall m :: 0 <= m < |s| && m != i ==> s[m] != '@'
    ensures Count(s, '@') == 1
  {
    var a, d := s[..i], s[i + 1..];
    assert forall m :: 0 <= m < |a| ==> a[m] == s[m];
    assert forall m :: 0 <= m < |d| ==> d[m] == s[i + 1 + m];
    CountZero(a, '@');
    CountZero(d, '@');
    assert s == a + [s[i]] + d;
    CountConcat(a + [s[i]], d, '@');
    CountConcat(a, [s[i]], '@');
  }

  /** The facts the explicit test needs about a string split at i and j. */
  lemma SplitFacts(s: string, i: nat, j: nat)
    requires i < j < |s| && s[i] == '@' && s[j] == '.'
    requires IsRun(s[..i]) && IsRun(s[i + 1..j]) && IsRun(s[j + 1..])
    ensures forall k :: 0 <= k < |s| ==> !IsWhitespace(s[k])
    ensures Count(s, '@') == 1
    ensures IndexOf(s, '@') == i
  {
    SplitChars(s, i, j);
    forall k | 0 <= k < |s| ensures !IsWhitespace(s[k]) {
      if k != i && k != j {
        assert InClass(s[k]);
      }
    }
    assert forall m :: 0 <= m < |s| && m != i ==> s[m] != '@';
    CountOne(s, i);
  }

  /** Every string the pattern matches passes the explicit test. */
  lemma PatternIsValidEmail(s: string)
    requires MatchesPattern(s)
    ensures ValidEmail(s)
  {
    var i, j :| 0 <= i < j < |s| && s[i] == '@' && s[j] == '.' &&
      IsRun(s[..i]) && IsRun(s[i + 1..j]) && IsRun(s[j + 1..]);
    SplitFacts(s, i, j);
    var d := s[i + 1..];
    assert d[j - i - 1] == '.';
    assert HasInnerDot(d);
  }

  /** The explicit test accepts exactly the strings the regular expression
      matches. */
  lemma ValidEmailIffPattern(s: string)
    ensures ValidEmail(s) <==> MatchesPattern(s)
  {
    if ValidEmail(s) {
      ValidEmailMatchesPattern(s);
    }
    if MatchesPattern(s) {
      PatternIsValidEmail(s);
    }
  }
}
