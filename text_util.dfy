/** Character classes and string helpers that the converter borrows from
    Python's `str` methods (`strip`, `isspace`, `startswith`, `in`,
    `"\n".join`). Strings are sequences of Unicode code points, as Python's
    `str` is. */
module TextUtil {

  /** Python's `str.isspace()` for one code point; also what `\s` matches in
      a Unicode regular expression. */
  predicate IsSpace(c: char)
  {
    || ('\t' <= c <= '\r')                       // U+0009..U+000D
    || ('\U{001C}' <= c <= '\U{001F}')
    || c == ' '
    || c == '\U{0085}' || c == '\U{00A0}' || c == '\U{1680}'
    || ('\U{2000}' <= c <= '\U{200A}')
    || c == '\U{2028}' || c == '\U{2029}' || c == '\U{202F}'
    || c == '\U{205F}' || c == '\U{3000}'
  }

  /** The line boundaries of Python's `str.splitlines()`. */
  predicate IsLineBreak(c: char)
  {
    || c == '\n' || c == '\r' || c == '\U{000B}' || c == '\U{000C}'
    || c == '\U{001C}' || c == '\U{001D}' || c == '\U{001E}'
    || c == '\U{0085}' || c == '\U{2028}' || c == '\U{2029}'
  }

  lemma LineBreakIsSpace(c: char)
    requires IsLineBreak(c)
    ensures IsSpace(c)
  {
  }

  /** True when `s` holds nothing but white space (`not s.strip()`). */
  predicate IsBlank(s: string)
  {
    forall i :: 0 <= i < |s| ==> IsSpace(s[i])
  }

  /** Python's `s.lstrip()`: `s` without its leading white space. */
  function StripLeft(s: string): (r: string)
    ensures |r| <= |s|
  {
    if s != [] && IsSpace(s[0]) then StripLeft(s[1..]) else s
  }

  /** Python's `s.rstrip()`: `s` without its trailing white space. */
  function StripRight(s: string): (r: string)
    ensures |r| <= |s|
  {
    if s != [] && IsSpace(s[|s| - 1]) then StripRight(s[..|s| - 1]) else s
  }

  /** Python's `s.strip()`: `s` without its leading and trailing white space. */
  function Strip(s: string): (r: string)
    ensures |r| <= |s|
  {
    StripRight(StripLeft(s))
  }

  /** `lstrip` removes a blank prefix and stops at the first other character. */
  lemma {:induction false} StripLeftFacts(s: string)
    ensures StripLeft(s) == s[|s| - |StripLeft(s)|..]
    ensures IsBlank(s[..|s| - |StripLeft(s)|])
    ensures StripLeft(s) == [] || !IsSpace(StripLeft(s)[0])
    decreases |s|
  {
    if s != [] && IsSpace(s[0]) {
      StripLeftFacts(s[1..]);
      var k := |s[1..]| - |StripLeft(s[1..])|;
      assert s[..k + 1] == [s[0]] + s[1..][..k];
    }
  }

  /** `rstrip` removes a blank suffix and stops at the last other character. */
  lemma {:induction false} StripRightFacts(s: string)
    ensures StripRight(s) == s[..|StripRight(s)|]
    ensures IsBlank(s[|StripRight(s)|..])
    ensures StripRight(s) == [] || !IsSpace(StripRight(s)[|StripRight(s)| - 1])
    decreases |s|
  {
    if s != [] && IsSpace(s[|s| - 1]) {
      var init := s[..|s| - 1];
      StripRightFacts(init);
      assert s[|StripRight(init)|..] == init[|StripRight(init)|..] + [s[|s| - 1]];
    }
  }

  /** `strip` keeps the middle of `s`: a blank prefix of length `k`, then the
      result, then a blank rest. */
  lemma StripSlice(s: string)
    ensures var k := |s| - |StripLeft(s)|;
      && k + |Strip(s)| <= |s|
      && Strip(s) == s[k..k + |Strip(s)|]
      && IsBlank(s[..k])
      && IsBlank(s[k + |Strip(s)|..])
  {
    var l := StripLeft(s);
    var k := |s| - |l|;
    StripLeftFacts(s);
    StripRightFacts(l);
    var r := Strip(s);
    assert r == l[..|r|];
    assert s[k + |r|..] == l[|r|..];
  }

  /** The result of `strip` is empty exactly when `s` is blank, and otherwise
      neither starts nor ends with white space. */
  lemma StripBounds(s: string)
    ensures Strip(s) == [] <==> IsBlank(s)
    ensures Strip(s) != [] ==> !IsSpace(Strip(s)[0]) && !IsSpace(Strip(s)[|Strip(s)| - 1])
  {
    var l := StripLeft(s);
    var k := |s| - |l|;
    StripLeftFacts(s);
    StripRightFacts(l);
    var r := Strip(s);
    assert r == l[..|r|];
    if r == [] {
      assert s == s[..k] + l;
      assert l == l[|r|..];
    }
    if l != [] {
      assert s[k] == l[0];
    }
  }

  /** Stripping twice is stripping once. */
  lemma StripIdempotent(s: string)
    ensures Strip(Strip(s)) == Strip(s)
  {
    StripBounds(s);
    StripUnpadded(Strip(s));
  }

  /** A string that neither starts nor ends with white space is its own strip. */
  lemma StripUnpadded(s: string)
    requires s == [] || (!IsSpace(s[0]) && !IsSpace(s[|s| - 1]))
    ensures Strip(s) == s
  {
  }

  /** `lstrip` passes over a blank prefix. */
  lemma {:induction false} StripLeftSkips(s: string, e: nat)
    requires e <= |s| && IsBlank(s[..e])
    ensures StripLeft(s) == StripLeft(s[e..])
    decreases e
  {
    if e > 0 {
      assert IsSpace(s[..e][0]);
      assert s[1..][..e - 1] == s[..e][1..];
      StripLeftSkips(s[1..], e - 1);
      assert s[1..][e - 1..] == s[e..];
    }
  }

  /** Stripping adds no character. */
  lemma StripKeepsOut(s: string, c: char)
    requires c !in s
    ensures c !in Strip(s)
  {
    StripSlice(s);
    var r := Strip(s);
    var k := |s| - |StripLeft(s)|;
    forall j | 0 <= j < |r|
      ensures r[j] != c
    {
      assert r[j] == s[k + j];
    }
  }

  predicate StartsWith(s: string, prefix: string)
  {
    |prefix| <= |s| && s[..|prefix|] == prefix
  }

  predicate EndsWith(s: string, suffix: string)
  {
    |suffix| <= |s| && s[|s| - |suffix|..] == suffix
  }

  /** Concatenation is associative; stating it spares the solver the
      element-wise comparison of long concatenations. */
  lemma AppendAssoc<T>(a: seq<T>, b: seq<T>, c: seq<T>)
    ensures a + (b + c) == (a + b) + c
  {
  }

  /** Element `k` of the middle part of a concatenation. */
  lemma IndexInMiddle<T>(pre: seq<T>, mid: seq<T>, post: seq<T>, k: nat)
    requires k < |mid|
    ensures (pre + mid + post)[|pre| + k] == mid[k]
  {
  }

  /** The concatenation of a sequence of strings (`"".join(parts)`). */
  function Concat(parts: seq<string>): (r: string)
    ensures parts == [] ==> r == []
  {
    if parts == [] then [] else Concat(parts[..|parts| - 1]) + parts[|parts| - 1]
  }

  lemma {:induction false} ConcatAppend(a: seq<string>, b: seq<string>)
    ensures Concat(a + b) == Concat(a) + Concat(b)
    decreases |b|
  {
    if b == [] {
      assert a + b == a;
    } else {
      assert (a + b)[..|a + b| - 1] == a + b[..|b| - 1];
      ConcatAppend(a, b[..|b| - 1]);
    }
  }

  lemma ConcatCons(s: string, rest: seq<string>)
    ensures Concat([s] + rest) == s + Concat(rest)
  {
    ConcatAppend([s], rest);
    assert [s][..0] == [];
  }

  /** Python's `"\n".join(lines)`. */
  function JoinLines(lines: seq<string>): (r: string)
    ensures |lines| == 1 ==> r == lines[0]
  {
    if lines == [] then []
    else if |lines| == 1 then lines[0]
    else JoinLines(lines[..|lines| - 1]) + "\n" + lines[|lines| - 1]
  }

  /** The joined document starts with its first two lines, each followed by
      a newline, when there is a third. */
  lemma {:induction false} JoinLinesStart(lines: seq<string>)
    requires |lines| >= 3
    ensures StartsWith(JoinLines(lines), lines[0] + "\n" + lines[1] + "\n")
    decreases |lines|
  {
    var init := lines[..|lines| - 1];
    if |lines| > 3 {
      JoinLinesStart(init);
    } else {
      assert init[..1] == [lines[0]];
      assert JoinLines(init) == lines[0] + "\n" + lines[1];
    }
    assert JoinLines(lines) == JoinLines(init) + ("\n" + lines[|lines| - 1]);
  }

  /** The joined document ends with a newline and its last line. */
  lemma JoinLinesEnd(lines: seq<string>)
    requires |lines| >= 2
    ensures EndsWith(JoinLines(lines), "\n" + lines[|lines| - 1])
  {
    var init := lines[..|lines| - 1];
    assert JoinLines(lines) == JoinLines(init) + ("\n" + lines[|lines| - 1]);
  }

  /** A value that may be absent (Python's `None`). */
  datatype Option<T> = None | Some(value: T)
}
