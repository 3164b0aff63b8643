/** String utilities the plugin takes from Python's `str`: `split(',')` and
    `strip()`, together with their partners (`Join`, the trimmed-infix
    characterisation) that pin down what they compute. */
module Text {

  /** Python 2 `str.isspace` on a byte string: space, tab, line feed,
      vertical tab, form feed and carriage return. */
  predicate IsWhitespace(c: char)
  {
    c == ' ' || c == '\t' || c == '\n' || c == '\U{000B}' || c == '\U{000C}' || c == '\r'
  }

  /** Number of occurrences of `c` in `s`. */
  function CountChar(s: string, c: char): nat
  {
    if s == [] then 0 else (if s[0] == c then 1 else 0) + CountChar(s[1..], c)
  }

  /** `sep.join(parts)`: the inverse of `Split`. */
  function Join(parts: seq<string>, sep: char): string
    requires |parts| >= 1
    decreases |parts|
  {
    if |parts| == 1 then parts[0] else parts[0] + [sep] + Join(parts[1..], sep)
  }

  /** `s.split(sep)`: the separator-free segments of `s`, in order. */
  function Split(s: string, sep: char): (parts: seq<string>)
    ensures |parts| >= 1
    decreases |s|
  {
    if s == [] then [[]]
    else
      var rest := Split(s[1..], sep);
      if s[0] == sep then [[]] + rest else [[s[0]] + rest[0]] + rest[1..]
  }

  /** There is one more segment than there are separators (so the empty
      string splits into a single empty segment), no segment holds the
      separator, and joining the segments gives back the input. */
  lemma {:induction false} SplitProperties(s: string, sep: char)
    ensures |Split(s, sep)| == CountChar(s, sep) + 1
    ensures forall i :: 0 <= i < |Split(s, sep)| ==> sep !in Split(s, sep)[i]
    ensures Join(Split(s, sep), sep) == s
  {
    SplitCount(s, sep);
    SplitSegmentsFree(s, sep);
    SplitJoinsBack(s, sep);
  }

  lemma {:induction false} SplitCount(s: string, sep: char)
    ensures |Split(s, sep)| == CountChar(s, sep) + 1
    decreases |s|
  {
    if s != [] {
      SplitCount(s[1..], sep);
    }
  }

  lemma {:induction false} SplitSegmentsFree(s: string, sep: char)
    ensures forall i :: 0 <= i < |Split(s, sep)| ==> sep !in Split(s, sep)[i]
    decreases |s|
  {
    if s != [] {
      var rest := Split(s[1..], sep);
      SplitSegmentsFree(s[1..], sep);
      if s[0] != sep {
        var parts := Split(s, sep);
        assert parts[0] == [s[0]] + rest[0];
        forall i | 0 <= i < |parts|
          ensures sep !in parts[i]
        {
          if i > 0 { assert parts[i] == rest[i]; }
        }
      }
    }
  }

  lemma {:induction false} SplitJoinsBack(s: string, sep: char)
    ensures Join(Split(s, sep), sep) == s
    decreases |s|
  {
    if s != [] {
      var rest := Split(s[1..], sep);
      SplitJoinsBack(s[1..], sep);
      if s[0] == sep {
        assert s == [sep] + s[1..];
      } else {
        var parts := Split(s, sep);
        assert parts[0] == [s[0]] + rest[0];
        assert parts[1..] == rest[1..];
        assert s == [s[0]] + Join(rest, sep);
      }
    }
  }

  lemma {:induction false} SplitWithoutSeparator(a: string, sep: char)
    requires sep !in a
    ensures Split(a, sep) == [a]
    decreases |a|
  {
    if a != [] {
      SplitWithoutSeparator(a[1..], sep);
      assert [a[0]] + a[1..] == a;
    }
  }

  /** Splitting a string that begins with a separator-free segment yields that
      segment, then the split of what follows the first separator. */
  lemma {:induction false} SplitAfterSegment(a: string, t: string, sep: char)
    requires sep !in a
    ensures Split(a + [sep] + t, sep) == [a] + Split(t, sep)
    decreases |a|
  {
    var s := a + [sep] + t;
    if a == [] {
      assert s[1..] == t;
    } else {
      assert s[1..] == a[1..] + [sep] + t;
      SplitAfterSegment(a[1..], t, sep);
      assert [a[0]] + a[1..] == a;
    }
  }

  /** `Split` undoes `Join` on separator-free segments, so the two are a
      bijection between strings and non-empty lists of such segments. */
  lemma {:induction false} SplitJoin(parts: seq<string>, sep: char)
    requires |parts| >= 1
    requires forall i :: 0 <= i < |parts| ==> sep !in parts[i]
    ensures Split(Join(parts, sep), sep) == parts
    decreases |parts|
  {
    if |parts| == 1 {
      SplitWithoutSeparator(parts[0], sep);
    } else {
      SplitJoin(parts[1..], sep);
      SplitAfterSegment(parts[0], Join(parts[1..], sep), sep);
      assert [parts[0]] + parts[1..] == parts;
    }
  }

  /** Two strings that each consist of a separator-free head, the separator
      and a tail are equal only when heads and tails are equal. */
  lemma SplitAtFirstSeparator(a: string, b: string, c: string, d: string, sep: char)
    requires sep !in a && sep !in c
    requires a + [sep] + b == c + [sep] + d
    ensures a == c && b == d
  {
    SplitAfterSegment(a, b, sep);
    SplitAfterSegment(c, d, sep);
    var x, y := [a] + Split(b, sep), [c] + Split(d, sep);
    assert x == y;
    assert x[0] == a && y[0] == c;
    assert x[1..] == Split(b, sep) && y[1..] == Split(d, sep);
    SplitProperties(b, sep);
    SplitProperties(d, sep);
  }

  /** Length of the whitespace run that `s.lstrip()` removes. */
  function LeadingWhitespace(s: string): (n: nat)
    ensures n <= |s|
    ensures forall i :: 0 <= i < n ==> IsWhitespace(s[i])
    ensures n == |s| || !IsWhitespace(s[n])
    decreases |s|
  {
    if s != [] && IsWhitespace(s[0]) then 1 + LeadingWhitespace(s[1..]) else 0
  }

  /** Where the whitespace run that `s.rstrip()` removes begins. */
  function TrailingWhitespaceStart(s: string): (n: nat)
    ensures n <= |s|
    ensures forall i :: n <= i < |s| ==> IsWhitespace(s[i])
    ensures n == 0 || !IsWhitespace(s[n - 1])
    decreases |s|
  {
    if s != [] && IsWhitespace(s[|s| - 1]) then TrailingWhitespaceStart(s[..|s| - 1]) else |s|
  }

  /** Neither end of `t` is whitespace. */
  predicate Bare(t: string)
  {
    t == [] || (!IsWhitespace(t[0]) && !IsWhitespace(t[|t| - 1]))
  }

  /** `r` occurs in `s` at offset `i` and everything around it is whitespace. */
  predicate TrimmedAt(s: string, i: nat, r: string)
  {
    && i + |r| <= |s|
    && s[i..i + |r|] == r
    && (forall k :: 0 <= k < i ==> IsWhitespace(s[k]))
    && (forall k :: i + |r| <= k < |s| ==> IsWhitespace(s[k]))
  }

  /** `s.strip()`: `s` with the surrounding whitespace removed. */
  function Strip(s: string): (r: string)
    ensures Bare(r)
  {
    var l := s[LeadingWhitespace(s)..];
    l[..TrailingWhitespaceStart(l)]
  }

  /** What `Strip` keeps is an infix of its input with only whitespace
      around it. */
  lemma StripTrims(s: string)
    ensures exists i: nat :: TrimmedAt(s, i, Strip(s))
  {
    var n := LeadingWhitespace(s);
    var l := s[n..];
    var r := Strip(s);
    assert r == s[n..n + |r|];
    assert TrimmedAt(s, n, r);
  }

  /** The trimmed infix without surrounding whitespace is unique, so the
      contract of `Strip` determines its result. */
  lemma StripCharacterized(s: string, i: nat, t: string)
    requires TrimmedAt(s, i, t) && Bare(t)
    ensures t == Strip(s)
  {
    var r := Strip(s);
    StripTrims(s);
    var j: nat :| TrimmedAt(s, j, r);
    if t != [] && r != [] {
      assert s[i] == t[0] && s[j] == r[0];
      assert i == j;
      assert s[i + |t| - 1] == t[|t| - 1] && s[j + |r| - 1] == r[|r| - 1];
    }
  }

  /** Stripping twice is stripping once. */
  lemma StripIdempotent(s: string)
    ensures Strip(Strip(s)) == Strip(s)
  {
    var r := Strip(s);
    assert TrimmedAt(r, 0, r);
    StripCharacterized(r, 0, r);
  }

  /** Characters kept by `Strip` come from its input. */
  lemma StripKeepsAbsence(s: string, c: char)
    requires c !in s
    ensures c !in Strip(s)
  {
    var r := Strip(s);
    StripTrims(s);
    var i: nat :| TrimmedAt(s, i, r);
    assert forall k :: 0 <= k < |r| ==> r[k] == s[i + k];
  }
}
