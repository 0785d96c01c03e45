/** The e-mail format test shared by the Register, Login and ForgotPassword
    pages: the regular expression `^[^\s@]+@[^\s@]+\.[^\s@]+$`. */
module EmailFormat {
  import opened Text

  /** A character of the class `[^\s@]`. */
  predicate Plain(c: char)
  {
    !IsSpace(c) && c != '@'
  }

  predicate AllPlain(s: string)
  {
    forall k :: 0 <= k < |s| ==> Plain(s[k])
  }

  /** The language of the regular expression, read off its structure: a
      non-empty plain run, '@' at `i`, a non-empty plain run, '.' at `j`,
      and a non-empty plain run up to the end. */
  ghost predicate MatchesPattern(s: string)
  {
    exists i, j ::
      && 0 < i && i + 1 < j && j + 1 < |s|
      && s[i] == '@' && s[j] == '.'
      && AllPlain(s[..i]) && AllPlain(s[i + 1..j]) && AllPlain(s[j + 1..])
  }

  /** A '.' that is neither the first nor the last character of `d`. */
  predicate HasInnerDot(d: string)
  {
    exists k :: 0 < k < |d| - 1 && d[k] == '.'
  }

  /** The test as the pages evaluate it, character by character: no white
      space, exactly one '@' and not in front, and after it a domain with a
      '.' that is neither its first nor its last character. */
  predicate IsEmailFormat(s: string)
  {
    var at := IndexOf(s, '@');
    && at > 0
    && NoSpace(s)
    && '@' !in s[at + 1..]
    && HasInnerDot(s[at + 1..])
  }

  /** The character test accepts exactly the strings the regular expression
      matches. */
  lemma EmailFormatIsPattern(s: string)
    ensures IsEmailFormat(s) <==> MatchesPattern(s)
  {
    if IsEmailFormat(s) {
      FormatImpliesPattern(s);
    }
    if MatchesPattern(s) {
      var i, j :| && 0 < i && i + 1 < j && j + 1 < |s|
                  && s[i] == '@' && s[j] == '.'
                  && AllPlain(s[..i]) && AllPlain(s[i + 1..j]) && AllPlain(s[j + 1..]);
      PatternImpliesFormat(s, i, j);
    }
  }

  lemma PlainSlice(s: string, lo: int, hi: int)
    requires 0 <= lo <= hi <= |s|
    requires forall m :: lo <= m < hi ==> Plain(s[m])
    ensures AllPlain(s[lo..hi])
  {
  }

  lemma PlainOfSlice(s: string, lo: int, hi: int, m: int)
    requires 0 <= lo <= m < hi <= |s|
    requires AllPlain(s[lo..hi])
    ensures Plain(s[m])
  {
    assert s[m] == s[lo..hi][m - lo];
  }

  lemma FormatImpliesPattern(s: string)
    requires IsEmailFormat(s)
    ensures MatchesPattern(s)
  {
    var at := IndexOf(s, '@');
    var d := s[at + 1..];
    var k :| 0 < k < |d| - 1 && d[k] == '.';
    var j := at + 1 + k;
    assert s[j] == '.';
    forall m | 0 <= m < |s| && m != at ensures Plain(s[m]) {
      if m < at {
        assert s[m] == s[..at][m];
      } else {
        assert s[m] == d[m - at - 1];
      }
    }
    PlainSlice(s, 0, at);
    PlainSlice(s, at + 1, j);
    PlainSlice(s, j + 1, |s|);
    assert s[..at] == s[0..at] && s[j + 1..] == s[j + 1..|s|];
  }

  lemma PatternImpliesFormat(s: string, i: int, j: int)
    requires 0 < i && i + 1 < j && j + 1 < |s|
    requires s[i] == '@' && s[j] == '.'
    requires AllPlain(s[..i]) && AllPlain(s[i + 1..j]) && AllPlain(s[j + 1..])
    ensures IsEmailFormat(s)
  {
    assert s[..i] == s[0..i] && s[j + 1..] == s[j + 1..|s|];
    forall m | 0 <= m < |s| && m != i ensures Plain(s[m]) {
      if m < i {
        PlainOfSlice(s, 0, i, m);
      } else if m < j {
        PlainOfSlice(s, i + 1, j, m);
      } else if m > j {
        PlainOfSlice(s, j + 1, |s|, m);
      }
    }
    assert '@' !in s[..i] by {
      forall m | 0 <= m < i ensures s[..i][m] != '@' { assert s[..i][m] == s[m]; }
    }
    var at := IndexOf(s, '@');
    assert at == i;
    assert NoSpace(s);
    var d := s[i + 1..];
    assert '@' !in d by {
      forall m | 0 <= m < |d| ensures d[m] != '@' { assert d[m] == s[i + 1 + m]; }
    }
    assert d[j - i - 1] == '.';
  }
}
