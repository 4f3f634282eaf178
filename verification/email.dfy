/** The quote form's email pattern `^[^\s@]+@[^\s@]+\.[^\s@]+$`, read two
    ways: literally, as the split of the whole string that the regular
    expression describes, and as a string test (no whitespace, one `@` with
    something before it, a dot strictly inside the domain). The two are
    proved to accept the same strings. */
module EmailPattern {
  import opened JsText

  /** A character the class `[^\s@]` matches. */
  predicate PatternChar(c: char)
  {
    !IsWhitespace(c) && c != '@'
  }

  /** A string the repetition `[^\s@]+` matches. */
  predicate OneOrMore(t: string)
  {
    |t| > 0 && forall k :: 0 <= k < |t| ==> PatternChar(t[k])
  }

  /** The regular expression read literally: the whole string is a `[^\s@]+`
      run, an `@`, another run, a `.`, and a last run. */
  predicate RegexMatches(s: string)
    ensures RegexMatches(s) ==> 5 <= |s| && '@' in s && '.' in s
  {
    exists at, dot :: 0 <= at < dot < |s| && s[at] == '@' && s[dot] == '.' &&
      OneOrMore(s[..at]) && OneOrMore(s[at + 1..dot]) && OneOrMore(s[dot + 1..])
  }

  /** Index of the first occurrence of `c`, or `|s|` when there is none. */
  function IndexOf(s: string, c: char): (i: nat)
    ensures i <= |s|
    ensures forall k :: 0 <= k < i ==> s[k] != c
    ensures i < |s| ==> s[i] == c
  {
    if |s| == 0 then 0
    else if s[0] == c then 0
    else 1 + IndexOf(s[1..], c)
  }

  /** The domain has a dot that is neither its first nor its last character. */
  predicate DotInside(domain: string)
  {
    exists k :: 0 < k < |domain| - 1 && domain[k] == '.'
  }

  /** The pattern as a string test: no whitespace anywhere, exactly one `@`,
      a non-empty local part before it, and a domain after it with a dot
      strictly inside. */
  predicate EmailPatternTest(s: string)
  {
    var at := IndexOf(s, '@');
    NoWhitespace(s) && 0 < at < |s| &&
    IndexOf(s[at + 1..], '@') == |s| - at - 1 &&
    DotInside(s[at + 1..])
  }

  /** The string test and the literal reading of the regular expression
      accept exactly the same strings. */
  lemma EmailPatternTestIsRegex(s: string)
    ensures EmailPatternTest(s) <==> RegexMatches(s)
  {
    if EmailPatternTest(s) {
      TestImpliesRegex(s);
    }
    if RegexMatches(s) {
      RegexImpliesTest(s);
    }
  }

  lemma TestImpliesRegex(s: string)
    requires EmailPatternTest(s)
    ensures RegexMatches(s)
  {
    var at := IndexOf(s, '@');
    var domain := s[at + 1..];
    var k :| 0 < k < |domain| - 1 && domain[k] == '.';
    var dot := at + 1 + k;
    assert s[dot] == '.';
    forall j | 0 <= j < |domain| ensures domain[j] != '@' {
    }
    assert OneOrMore(s[..at]);
    assert s[at + 1..dot] == domain[..k];
    assert OneOrMore(s[at + 1..dot]);
    assert s[dot + 1..] == domain[k + 1..];
    assert OneOrMore(s[dot + 1..]);
  }

  lemma RegexImpliesTest(s: string)
    requires RegexMatches(s)
    ensures EmailPatternTest(s)
  {
    var at, dot :| 0 <= at < dot < |s| && s[at] == '@' && s[dot] == '.' &&
      OneOrMore(s[..at]) && OneOrMore(s[at + 1..dot]) && OneOrMore(s[dot + 1..]);
    var domain := s[at + 1..];
    PatternCharsOutsideAt(s, at, dot);
    IndexOfFirst(s, '@', at);
    forall j | 0 <= j < |domain| ensures domain[j] != '@' {
      assert domain[j] == s[at + 1 + j];
    }
    IndexOfAbsent(domain, '@');
    assert domain[dot - at - 1] == '.';
  }

  /** In a string split as the pattern describes, every character other
      than the `@` is a pattern character or the dot. */
  lemma PatternCharsOutsideAt(s: string, at: int, dot: int)
    requires 0 <= at < dot < |s| && s[dot] == '.'
    requires OneOrMore(s[..at]) && OneOrMore(s[at + 1..dot]) && OneOrMore(s[dot + 1..])
    ensures forall j :: 0 <= j < |s| && j != at ==> PatternChar(s[j])
  {
    forall j | 0 <= j < |s| && j != at ensures PatternChar(s[j]) {
      if j < at {
        assert s[j] == s[..at][j];
      } else if at < j < dot {
        assert s[j] == s[at + 1..dot][j - at - 1];
      } else if dot < j {
        assert s[j] == s[dot + 1..][j - dot - 1];
      }
    }
  }

  /** `IndexOf` finds the first occurrence. */
  lemma IndexOfFirst(s: string, c: char, i: nat)
    requires i < |s| && s[i] == c
    requires forall k :: 0 <= k < i ==> s[k] != c
    ensures IndexOf(s, c) == i
  {
  }

  /** `IndexOf` reports an absent character as `|s|`. */
  lemma IndexOfAbsent(s: string, c: char)
    requires forall k :: 0 <= k < |s| ==> s[k] != c
    ensures IndexOf(s, c) == |s|
  {
  }

  /** A value the pattern accepts has nothing to trim; in particular a value
      with leading or trailing whitespace is rejected even when its trim
      would be accepted. */
  lemma AcceptedIsTrimmed(s: string)
    requires EmailPatternTest(s)
    ensures Trim(s) == s
  {
  }

  /** A value led by a no-break space, which an email input keeps (its
      value sanitization strips ASCII whitespace only), fails although its
      trim passes. */
  lemma PaddedValueRejected()
    ensures !EmailPatternTest("\U{00A0}a@b.co")
    ensures EmailPatternTest("a@b.co")
  {
    assert IsWhitespace("\U{00A0}a@b.co"[0]);
    ShortAddressAccepted();
  }

  /** The pattern accepts the address `a@b.co`. */
  lemma ShortAddressAccepted()
    ensures EmailPatternTest("a@b.co")
  {
    var s := "a@b.co";
    IndexOfFirst(s, '@', 1);
    var domain := s[2..];
    assert domain == "b.co";
    IndexOfAbsent(domain, '@');
    assert domain[1] == '.';
  }
}
