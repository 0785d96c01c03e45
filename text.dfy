/** String helpers with JavaScript's meaning: `trim`, `\s`, `startsWith`,
    `indexOf`, `split` and ASCII `toLowerCase`. Strings are `seq<char>`. */
module Text {

  /** The characters JavaScript's `trim` and the regex class `\s` treat as
      white space (ECMAScript WhiteSpace and LineTerminator). */
  predicate IsSpace(c: char)
  {
    || c == '\t' || c == '\n' || c == '\U{000B}' || c == '\U{000C}' || c == '\r'
    || c == ' ' || c == '\U{00A0}' || c == '\U{1680}'
    || ('\U{2000}' <= c <= '\U{200A}')
    || c == '\U{2028}' || c == '\U{2029}' || c == '\U{202F}' || c == '\U{205F}'
    || c == '\U{3000}' || c == '\U{FEFF}'
  }

  predicate AllSpace(s: string)
  {
    forall i :: 0 <= i < |s| ==> IsSpace(s[i])
  }

  predicate NoSpace(s: string)
  {
    forall i :: 0 <= i < |s| ==> !IsSpace(s[i])
  }

  /** `s.trimStart()`: drops the leading white space. */
  function TrimStart(s: string): (r: string)
    ensures |r| <= |s| && r == s[|s| - |r|..]
    ensures AllSpace(s[..|s| - |r|])
    ensures r == [] || !IsSpace(r[0])
  {
    if |s| > 0 && IsSpace(s[0]) then
      var t := TrimStart(s[1..]);
      TrimStartStep(s, t);
      t
    else s
  }

  /** Dropping one more leading space keeps what `TrimStart` promises. */
  lemma TrimStartStep(s: string, t: string)
    requires |s| > 0 && IsSpace(s[0]) && |t| <= |s| - 1
    requires t == s[1..][|s| - 1 - |t|..] && AllSpace(s[1..][..|s| - 1 - |t|])
    ensures t == s[|s| - |t|..] && AllSpace(s[..|s| - |t|])
  {
    var k := |s| - |t|;
    DropOfDrop(s, 1, k - 1);
    forall i | 0 <= i < k ensures IsSpace(s[..k][i]) {
      if i > 0 {
        assert s[..k][i] == s[1..][..k - 1][i - 1];
      }
    }
  }

  /** `s.trimEnd()`: drops the trailing white space. */
  function TrimEnd(s: string): (r: string)
    ensures |r| <= |s| && r == s[..|r|]
    ensures AllSpace(s[|r|..])
    ensures r == [] || !IsSpace(r[|r| - 1])
  {
    if |s| > 0 && IsSpace(s[|s| - 1]) then
      var t := TrimEnd(s[..|s| - 1]);
      TrimEndStep(s, t);
      t
    else s
  }

  /** Dropping one more trailing space keeps what `TrimEnd` promises. */
  lemma TrimEndStep(s: string, t: string)
    requires |s| > 0 && IsSpace(s[|s| - 1]) && |t| <= |s| - 1
    requires t == s[..|s| - 1][..|t|] && AllSpace(s[..|s| - 1][|t|..])
    ensures t == s[..|t|] && AllSpace(s[|t|..])
  {
    TakeOfTake(s, |s| - 1, |t|);
    forall i | 0 <= i < |s| - |t| ensures IsSpace(s[|t|..][i]) {
      if |t| + i < |s| - 1 {
        assert s[|t|..][i] == s[..|s| - 1][|t|..][i];
      }
    }
  }

  /** The number of white-space characters `trimStart` drops. */
  function LeadingSpace(s: string): (n: nat)
    ensures n <= |s| && AllSpace(s[..n])
    ensures n < |s| ==> !IsSpace(s[n])
  {
    |s| - |TrimStart(s)|
  }

  /** `s.trim()`: the slice of `s` left between its leading and its trailing
      white space; it neither begins nor ends with white space. */
  function Trim(s: string): (r: string)
    ensures LeadingSpace(s) + |r| <= |s|
    ensures r == s[LeadingSpace(s)..LeadingSpace(s) + |r|]
    ensures AllSpace(s[LeadingSpace(s) + |r|..])
    ensures r == [] || (!IsSpace(r[0]) && !IsSpace(r[|r| - 1]))
  {
    var t := TrimStart(s);
    var r := TrimEnd(t);
    TrimParts(s, t, r);
    TrimEnds(s, t, r);
    r
  }

  /** What trimming both ends leaves, in terms of the original string. */
  lemma TrimParts(s: string, t: string, r: string)
    requires t == TrimStart(s) && r == TrimEnd(t)
    ensures LeadingSpace(s) + |r| <= |s|
    ensures r == s[LeadingSpace(s)..LeadingSpace(s) + |r|]
    ensures AllSpace(s[LeadingSpace(s) + |r|..])
  {
    SliceParts(s, t, r, LeadingSpace(s));
  }

  /** What trimming both ends leaves neither begins nor ends with white
      space. */
  lemma TrimEnds(s: string, t: string, r: string)
    requires t == TrimStart(s) && r == TrimEnd(t)
    ensures r == [] || (!IsSpace(r[0]) && !IsSpace(r[|r| - 1]))
  {
    if r != [] {
      assert r[0] == t[0];
    }
  }

  lemma {:induction false} TrimOfAllSpace(s: string)
    ensures Trim(s) == [] <==> AllSpace(s)
  {
    var n, r := LeadingSpace(s), Trim(s);
    if r != [] {
      assert s[n] == r[0];
    } else {
      forall i | 0 <= i < |s| ensures IsSpace(s[i]) {
        assert s[i] == s[..n][i];
      }
    }
  }

  lemma {:induction false} TrimStartSkips(a: string, t: string)
    requires AllSpace(a) && t != [] && !IsSpace(t[0])
    ensures TrimStart(a + t) == t
    decreases |a|
  {
    if a != [] {
      assert (a + t)[1..] == a[1..] + t;
      TrimStartSkips(a[1..], t);
    }
  }

  lemma {:induction false} TrimEndSkips(t: string, b: string)
    requires AllSpace(b) && t != [] && !IsSpace(t[|t| - 1])
    ensures TrimEnd(t + b) == t
    decreases |b|
  {
    if b != [] {
      assert (t + b)[..|t + b| - 1] == t + b[..|b| - 1];
      TrimEndSkips(t, b[..|b| - 1]);
    }
  }

  /** `trim` removes exactly the white space around a text that neither
      begins nor ends with white space. */
  lemma TrimExact(a: string, t: string, b: string)
    requires AllSpace(a) && AllSpace(b)
    requires t != [] && !IsSpace(t[0]) && !IsSpace(t[|t| - 1])
    ensures Trim(a + t + b) == t
  {
    assert a + t + b == a + (t + b);
    TrimStartSkips(a, t + b);
    TrimEndSkips(t, b);
  }

  lemma TrimUnchanged(t: string)
    requires t != [] && !IsSpace(t[0]) && !IsSpace(t[|t| - 1])
    ensures Trim(t) == t
  {
    TrimExact([], t, []);
    assert [] + t + [] == t;
  }

  /** ASCII `toLowerCase`: only 'A'..'Z' change. */
  function LowerChar(c: char): (r: char)
    ensures 'A' <= c <= 'Z' ==> r as int == c as int + 32
    ensures !('A' <= c <= 'Z') ==> r == c
  {
    if 'A' <= c <= 'Z' then (c as int + 32) as char else c
  }

  function Lower(s: string): (r: string)
    ensures |r| == |s|
    ensures forall i :: 0 <= i < |s| ==> r[i] == LowerChar(s[i])
  {
    if s == [] then [] else [LowerChar(s[0])] + Lower(s[1..])
  }

  predicate StartsWith(s: string, prefix: string)
  {
    |prefix| <= |s| && s[..|prefix|] == prefix
  }

  /** `s.indexOf(c)`: the first position of `c`, or -1. */
  function IndexOf(s: string, c: char): (r: int)
    ensures -1 <= r < |s|
    ensures r >= 0 ==> s[r] == c
    ensures forall k :: 0 <= k < |s| && (r < 0 || k < r) ==> s[k] != c
  {
    if s == [] then -1
    else if s[0] == c then 0
    else
      var k := IndexOf(s[1..], c);
      if k < 0 then -1
      else
        k + 1
  }

  /** `s.split(sep)` for a one-character separator: the pieces between the
      occurrences of `sep`, so there is always at least one piece. */
  function Split(s: string, sep: char): (parts: seq<string>)
    ensures |parts| >= 1
    decreases |s|
  {
    var i := IndexOf(s, sep);
    if i < 0 then [s] else [s[..i]] + Split(s[i + 1..], sep)
  }

  /** Splitting at the first separator, found at `i`. */
  lemma SplitAt(s: string, sep: char, i: int)
    requires 0 <= i == IndexOf(s, sep)
    ensures Split(s, sep) == [s[..i]] + Split(s[i + 1..], sep)
  {
  }

  /** No piece of a split holds the separator. */
  lemma {:induction false} SplitPiecesFree(s: string, sep: char)
    ensures forall i :: 0 <= i < |Split(s, sep)| ==> sep !in Split(s, sep)[i]
    decreases |s|
  {
    var i := IndexOf(s, sep);
    if i >= 0 {
      SplitAt(s, sep, i);
      SplitPiecesFree(s[i + 1..], sep);
      assert sep !in s[..i] by {
        assert forall k :: 0 <= k < i ==> s[..i][k] == s[k];
      }
    } else {
      assert Split(s, sep) == [s];
    }
  }

  /** `parts.join(sep)`. */
  function Join(parts: seq<string>, sep: char): string
  {
    if |parts| <= 1 then (if parts == [] then [] else parts[0])
    else parts[0] + [sep] + Join(parts[1..], sep)
  }

  /** Joining a first piece in front of at least one more. */
  lemma JoinCons(p: string, rest: seq<string>, sep: char)
    requires |rest| >= 1
    ensures Join([p] + rest, sep) == p + [sep] + Join(rest, sep)
  {
    assert ([p] + rest)[0] == p;
    assert ([p] + rest)[1..] == rest;
  }

  /** A string is the text before position `i`, the character at `i`, and
      the text after it. */
  lemma Around(s: string, i: int, c: char)
    requires 0 <= i < |s| && s[i] == c
    ensures s == s[..i] + [c] + s[i + 1..]
  {
  }

  /** One step of the round trip: re-joining the pieces of the text after
      the first separator gives that text back, so the whole text too. */
  lemma JoinSplitStep(s: string, sep: char, i: int)
    requires 0 <= i == IndexOf(s, sep)
    requires Join(Split(s[i + 1..], sep), sep) == s[i + 1..]
    ensures Join(Split(s, sep), sep) == s
  {
    SplitAt(s, sep, i);
    JoinCons(s[..i], Split(s[i + 1..], sep), sep);
    Around(s, i, sep);
  }

  /** Splitting and re-joining with the same separator gives the string back. */
  lemma {:induction false} JoinSplit(s: string, sep: char)
    ensures Join(Split(s, sep), sep) == s
    decreases |s|
  {
    var i := IndexOf(s, sep);
    if i >= 0 {
      JoinSplit(s[i + 1..], sep);
      JoinSplitStep(s, sep, i);
    }
  }

  /** Joining pieces free of `sep` and splitting again gives the pieces
      back. */
  lemma {:induction false} SplitJoin(parts: seq<string>, sep: char)
    requires |parts| >= 1
    requires forall i :: 0 <= i < |parts| ==> sep !in parts[i]
    ensures Split(Join(parts, sep), sep) == parts
    decreases |parts|
  {
    if |parts| == 1 {
      SplitWithout(parts[0], sep);
    } else {
      assert parts == [parts[0]] + parts[1..];
      JoinCons(parts[0], parts[1..], sep);
      SplitFirst(parts[0], sep, Join(parts[1..], sep));
      SplitJoin(parts[1..], sep);
    }
  }

  /** A join of non-empty pieces starts with the first piece's first
      character and ends with the last piece's last character. */
  lemma JoinEnds(parts: seq<string>, sep: char)
    requires |parts| >= 1 && parts[0] != [] && parts[|parts| - 1] != []
    ensures var j := Join(parts, sep);
      && j != []
      && j[0] == parts[0][0]
      && j[|j| - 1] == parts[|parts| - 1][|parts[|parts| - 1]| - 1]
  {
    var n := |parts|;
    if n > 1 {
      assert parts == parts[..n - 1] + [parts[n - 1]];
      JoinSnoc(parts[..n - 1], sep, parts[n - 1]);
    }
  }

  /** A string free of `sep` splits into itself alone. */
  lemma SplitWithout(s: string, sep: char)
    requires sep !in s
    ensures Split(s, sep) == [s]
  {
  }

  /** Splitting at the first `sep`: the piece before it, then the pieces of
      the rest. */
  lemma SplitFirst(p: string, sep: char, rest: string)
    requires sep !in p
    ensures Split(p + [sep] + rest, sep) == [p] + Split(rest, sep)
  {
    var s := p + [sep] + rest;
    var i := IndexOf(s, sep);
    assert s[|p|] == sep;
    assert s[..|p|] == p;
    assert s[|p| + 1..] == rest;
  }

  /** A last piece free of `sep` is split off as one more piece. */
  lemma {:induction false} SplitAppend(a: string, sep: char, b: string)
    requires sep !in b
    ensures Split(a + [sep] + b, sep) == Split(a, sep) + [b]
    decreases |a|
  {
    SplitWithout(b, sep);
    if sep !in a {
      SplitFirst(a, sep, b);
      SplitWithout(a, sep);
    } else {
      var i := IndexOf(a, sep);
      var head := a[..i];
      var tail := a[i + 1..];
      assert a == head + [sep] + tail;
      assert a + [sep] + b == head + [sep] + (tail + [sep] + b);
      SplitFirst(head, sep, tail + [sep] + b);
      SplitAppend(tail, sep, b);
      SplitFirst(head, sep, tail);
    }
  }

  /** Concatenation regroups freely. */
  lemma Regroup<T>(a: seq<T>, b: seq<T>, c: seq<T>)
    ensures a + (b + c) == a + b + c
  {
  }

  /** A prefix of a prefix. */
  lemma TakeOfTake<T>(s: seq<T>, n: int, m: int)
    requires 0 <= m <= n <= |s|
    ensures s[..n][..m] == s[..m]
  {
  }

  /** Dropping `n` elements, then `m` more. */
  lemma DropOfDrop<T>(s: seq<T>, n: int, m: int)
    requires 0 <= n && 0 <= m && n + m <= |s|
    ensures s[n..][m..] == s[n + m..]
  {
  }

  lemma Regroup4<T>(a: seq<T>, b: seq<T>, c: seq<T>, d: seq<T>)
    ensures a + (b + c + d) == a + b + c + d
  {
  }

  /** A prefix `r` of the suffix `t` of `s` that starts at `n` is the slice
      of `s` from `n`, and what follows `r` in `t` is the rest of `s`. */
  lemma SliceParts<T>(s: seq<T>, t: seq<T>, r: seq<T>, n: int)
    requires 0 <= n <= |s| && t == s[n..]
    requires |r| <= |t| && r == t[..|r|]
    ensures n + |r| <= |s| && r == s[n..n + |r|] && t[|r|..] == s[n + |r|..]
  {
  }

  /** A prefix is its shorter prefix followed by the slice between them. */
  lemma PrefixSplit<T>(s: seq<T>, i: int, j: int)
    requires 0 <= i <= j <= |s|
    ensures s[..j] == s[..i] + s[i..j]
  {
  }

  /** Appending after a non-empty sequence leaves its head and extends its
      tail. */
  lemma SnocTail<T>(xs: seq<T>, y: T)
    requires |xs| >= 1
    ensures (xs + [y])[0] == xs[0] && (xs + [y])[1..] == xs[1..] + [y]
  {
  }

  /** Joining one more piece. */
  lemma {:induction false} JoinSnoc(parts: seq<string>, sep: char, last: string)
    ensures Join(parts + [last], sep) == if parts == [] then last else Join(parts, sep) + [sep] + last
    decreases |parts|
  {
    if |parts| > 1 {
      SnocTail(parts, last);
      JoinSnoc(parts[1..], sep, last);
      var j := Join(parts[1..], sep);
      calc {
        Join(parts + [last], sep);
        parts[0] + [sep] + Join(parts[1..] + [last], sep);
        parts[0] + [sep] + (j + [sep] + last);
        { Regroup4(parts[0] + [sep], j, [sep], last); }
        (parts[0] + [sep] + j) + [sep] + last;
        Join(parts, sep) + [sep] + last;
      }
    } else if |parts| == 1 {
      SnocTail(parts, last);
    }
  }

  /** The first piece of a split is the longest prefix free of `sep`. */
  lemma SplitHead(s: string, sep: char)
    ensures StartsWith(s, Split(s, sep)[0])
    ensures sep !in Split(s, sep)[0]
    ensures |Split(s, sep)[0]| < |s| ==> s[|Split(s, sep)[0]|] == sep
  {
  }
}
