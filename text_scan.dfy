/** The hand-written recognisers that stand in for the regular expressions
    of `parse_text_format` (app.py:161-203): the cut of the text into
    numbered blocks (`re.split(r"(?m)(?=^\d+\.)", ...)`, app.py:164) and the
    cut of a block into stripped, non-empty lines (`splitlines`, app.py:169). */
module TextScan {
  import opened TextUtil

  /** `\d`, on the ASCII digits. */
  predicate IsDigit(c: char)
  {
    '0' <= c <= '9'
  }

  /** End of the run of digits of `s` that starts at `i`. */
  function DigitEnd(s: string, i: nat): (d: nat)
    requires i <= |s|
    ensures i <= d <= |s|
    ensures forall k :: i <= k < d ==> IsDigit(s[k])
    ensures d < |s| ==> !IsDigit(s[d])
    decreases |s| - i
  {
    if i < |s| && IsDigit(s[i]) then DigitEnd(s, i + 1) else i
  }

  /** `\d+\.` matches at `p`: one or more digits, then a full stop. */
  predicate NumberedAt(s: string, p: nat)
  {
    p <= |s| && p < DigitEnd(s, p) < |s| && s[DigitEnd(s, p)] == '.'
  }

  /** `(?m)(?=^\d+\.)` matches at `p`: `p` starts a line (the text's start or
      just after a `\n`) and the line starts with a number and a full stop. */
  predicate IsCut(s: string, p: nat)
  {
    p < |s| && (p == 0 || s[p - 1] == '\n') && NumberedAt(s, p)
  }

  /** The pieces of `s[start..]`: the current piece began at `start` and no
      cut lies strictly between `start` and `i`. */
  function Pieces(s: string, start: nat, i: nat): (r: seq<string>)
    requires start < i <= |s|
    ensures |r| >= 1
    decreases |s| - i
  {
    if i == |s| then [s[start..]]
    else if IsCut(s, i) then [s[start..i]] + Pieces(s, i, i + 1)
    else Pieces(s, start, i + 1)
  }

  /** `re.split(r"(?m)(?=^\d+\.)", s)`: `s` cut before every numbered line;
      a cut at the very start leaves an empty first piece. */
  function SplitBlocks(s: string): (r: seq<string>)
    ensures |r| >= 1
  {
    if s == [] then [[]]
    else if IsCut(s, 0) then [[]] + Pieces(s, 0, 1)
    else Pieces(s, 0, 1)
  }

  /** The piece ends with a `\n`. */
  predicate EndsLine(piece: string)
  {
    piece != [] && piece[|piece| - 1] == '\n'
  }

  /** No numbered line starts inside `piece` after its first character. */
  predicate NoInnerCut(piece: string)
  {
    forall j :: 0 < j < |piece| && piece[j - 1] == '\n' ==> !NumberedAt(piece, j)
  }

  /** A numbered line of a piece is a numbered line of the text it was cut from. */
  lemma NumberedInSlice(s: string, lo: nat, hi: nat, j: nat)
    requires lo <= hi <= |s| && j <= hi - lo
    requires NumberedAt(s[lo..hi], j)
    ensures NumberedAt(s, lo + j)
  {
    DigitRunsAgree(s, lo, hi, j);
  }

  /** The digit run at `j` of a slice ends where the text's own run ends,
      unless it reaches the slice's end. */
  lemma {:induction false} DigitRunsAgree(s: string, lo: nat, hi: nat, j: nat)
    requires lo <= hi <= |s| && j <= hi - lo
    ensures DigitEnd(s[lo..hi], j) < hi - lo ==> DigitEnd(s, lo + j) == lo + DigitEnd(s[lo..hi], j)
    ensures DigitEnd(s[lo..hi], j) == hi - lo ==> DigitEnd(s, lo + j) >= hi
    decreases hi - lo - j
  {
    var t := s[lo..hi];
    if j < |t| && IsDigit(t[j]) {
      DigitRunsAgree(s, lo, hi, j + 1);
    }
  }

  /** A cut's number and full stop lie before the next cut. */
  lemma NumberInsidePiece(s: string, p: nat, e: nat)
    requires IsCut(s, p) && p < e <= |s|
    requires forall j :: p < j < e ==> !IsCut(s, j)
    requires e < |s| ==> IsCut(s, e)
    ensures NumberedAt(s[p..e], 0)
  {
    var d := DigitEnd(s, p);
    if e < |s| {
      assert s[e - 1] == '\n';
      assert !(p <= e - 1 < d);
    }
    assert d < e;
    DigitRunsAgree(s, p, e, 0);
  }

  /** The pieces from `start` on rebuild `s[start..]`. */
  lemma {:induction false} PiecesConcat(s: string, start: nat, i: nat)
    requires start < i <= |s|
    ensures Concat(Pieces(s, start, i)) == s[start..]
    decreases |s| - i
  {
    if i == |s| {
      ConcatCons(s[start..], []);
    } else if IsCut(s, i) {
      PiecesConcat(s, i, i + 1);
      ConcatCons(s[start..i], Pieces(s, i, i + 1));
      assert s[start..] == s[start..i] + s[i..];
    } else {
      PiecesConcat(s, start, i + 1);
    }
  }

  /** No piece holds a numbered line after its start. */
  lemma {:induction false} PiecesNoInnerCut(s: string, start: nat, i: nat)
    requires start < i <= |s|
    requires forall j :: start < j < i ==> !IsCut(s, j)
    ensures forall k :: 0 <= k < |Pieces(s, start, i)| ==> NoInnerCut(Pieces(s, start, i)[k])
    decreases |s| - i
  {
    if i == |s| {
      NoInnerCutOf(s, start, i);
      assert s[start..i] == s[start..];
    } else if IsCut(s, i) {
      PiecesNoInnerCut(s, i, i + 1);
      NoInnerCutOf(s, start, i);
      var rest := Pieces(s, i, i + 1);
      assert Pieces(s, start, i) == [s[start..i]] + rest;
    } else {
      PiecesNoInnerCut(s, start, i + 1);
    }
  }

  /** A piece that starts at a cut opens with its numbered line. */
  lemma {:induction false} PiecesFirst(s: string, start: nat, i: nat)
    requires start < i <= |s| && IsCut(s, start)
    requires forall j :: start < j < i ==> !IsCut(s, j)
    ensures NumberedAt(Pieces(s, start, i)[0], 0)
    decreases |s| - i
  {
    if i == |s| || IsCut(s, i) {
      NumberInsidePiece(s, start, i);
    } else {
      PiecesFirst(s, start, i + 1);
    }
  }

  /** Consecutive pieces `r[k]`, `r[k + 1]` meet at a cut: the first ends a
      line and the second opens with a numbered line. */
  predicate CutBetween(r: seq<string>, k: nat)
    requires k + 1 < |r|
  {
    EndsLine(r[k]) && NumberedAt(r[k + 1], 0)
  }

  /** Consecutive pieces meet at cuts. */
  lemma {:induction false} PiecesBoundaries(s: string, start: nat, i: nat)
    requires start < i <= |s|
    requires forall j :: start < j < i ==> !IsCut(s, j)
    ensures forall k :: 0 <= k < |Pieces(s, start, i)| - 1 ==> CutBetween(Pieces(s, start, i), k)
    decreases |s| - i
  {
    if i < |s| && IsCut(s, i) {
      var rest := Pieces(s, i, i + 1);
      var r := Pieces(s, start, i);
      PiecesBoundaries(s, i, i + 1);
      PiecesFirst(s, i, i + 1);
      assert r == [s[start..i]] + rest;
      forall k | 0 <= k < |r| - 1
        ensures CutBetween(r, k)
      {
        assert r[k + 1] == rest[k];
        if k >= 1 {
          assert r[k] == rest[k - 1];
          assert CutBetween(rest, k - 1);
        }
      }
    } else if i < |s| {
      PiecesBoundaries(s, start, i + 1);
    }
  }

  /** A piece between consecutive cuts holds no numbered line after its start. */
  lemma NoInnerCutOf(s: string, start: nat, e: nat)
    requires start < e <= |s|
    requires forall j :: start < j < e ==> !IsCut(s, j)
    ensures NoInnerCut(s[start..e])
  {
    var t := s[start..e];
    forall j | 0 < j < |t| && t[j - 1] == '\n'
      ensures !NumberedAt(t, j)
    {
      if NumberedAt(t, j) {
        NumberedInSlice(s, start, e, j);
        assert IsCut(s, start + j);
      }
    }
  }

  /** The cut into blocks loses and adds nothing. */
  lemma SplitBlocksConcat(s: string)
    ensures Concat(SplitBlocks(s)) == s
  {
    if s == [] {
      assert Concat([[]]) == Concat([]) + [];
    } else {
      PiecesConcat(s, 0, 1);
      if IsCut(s, 0) {
        ConcatCons([], Pieces(s, 0, 1));
      }
    }
  }

  /** No block holds a numbered line after its start, and consecutive blocks
      meet at a numbered line, after an empty first block or a `\n`: a
      non-empty first block ends a line too. */
  lemma SplitBlocksCuts(s: string)
    ensures forall k :: 0 <= k < |SplitBlocks(s)| ==> NoInnerCut(SplitBlocks(s)[k])
    ensures forall k :: 1 <= k < |SplitBlocks(s)| - 1 ==> CutBetween(SplitBlocks(s), k)
    ensures |SplitBlocks(s)| >= 2 ==> NumberedAt(SplitBlocks(s)[1], 0)
    ensures |SplitBlocks(s)| >= 2 && SplitBlocks(s)[0] != [] ==> CutBetween(SplitBlocks(s), 0)
  {
    if s != [] {
      var p := Pieces(s, 0, 1);
      PiecesNoInnerCut(s, 0, 1);
      PiecesBoundaries(s, 0, 1);
      if IsCut(s, 0) {
        var r := SplitBlocks(s);
        assert r == [[]] + p;
        PiecesFirst(s, 0, 1);
        forall k | 1 <= k < |r| - 1
          ensures CutBetween(r, k)
        {
          assert r[k] == p[k - 1] && r[k + 1] == p[k];
          assert CutBetween(p, k - 1);
        }
      } else if |p| >= 2 {
        assert CutBetween(p, 0);
      }
    }
  }

  /** The first block is empty exactly when the text opens with a numbered
      line; otherwise it does not open with one. */
  lemma SplitBlocksFirst(s: string)
    ensures SplitBlocks(s)[0] == [] <==> s == [] || IsCut(s, 0)
    ensures SplitBlocks(s)[0] != [] ==> !NumberedAt(SplitBlocks(s)[0], 0)
  {
    if s != [] && !IsCut(s, 0) {
      var p := Pieces(s, 0, 1);
      PiecesConcat(s, 0, 1);
      ConcatHead(p);
      PiecesFirstNonEmpty(s, 0, 1);
      if NumberedAt(p[0], 0) {
        NumberedInSlice(s, 0, |p[0]|, 0);
      }
    }
  }

  /** The first piece reaches at least to `i`. */
  lemma {:induction false} PiecesFirstNonEmpty(s: string, start: nat, i: nat)
    requires start < i <= |s|
    ensures |Pieces(s, start, i)[0]| >= i - start
    decreases |s| - i
  {
    if i < |s| && !IsCut(s, i) {
      PiecesFirstNonEmpty(s, start, i + 1);
    }
  }

  /** The first part of a concatenation is its prefix. */
  lemma ConcatHead(parts: seq<string>)
    requires |parts| >= 1
    ensures |parts[0]| <= |Concat(parts)| && Concat(parts)[..|parts[0]|] == parts[0]
  {
    ConcatCons(parts[0], parts[1..]);
    assert parts == [parts[0]] + parts[1..];
  }

  /** The pieces of `s` between its line breaks (`str.splitlines`, keeping an
      empty last piece and, for `\r\n`, an empty piece between the two
      breaks; the caller drops empty pieces anyway). */
  function SplitLines(s: string): (r: seq<string>)
    ensures |r| >= 1
  {
    if s == [] then [[]]
    else
      var r := SplitLines(s[..|s| - 1]);
      var c := s[|s| - 1];
      if IsLineBreak(c) then r + [[]] else r[..|r| - 1] + [r[|r| - 1] + [c]]
  }

  /** `s` without its line breaks. */
  function WithoutBreaks(s: string): (r: string)
    ensures |r| <= |s|
  {
    if s == [] then []
    else
      var c := s[|s| - 1];
      WithoutBreaks(s[..|s| - 1]) + (if IsLineBreak(c) then [] else [c])
  }

  /** The line cut loses only the line breaks. */
  lemma {:induction false} SplitLinesConcat(s: string)
    ensures Concat(SplitLines(s)) == WithoutBreaks(s)
    decreases |s|
  {
    if s != [] {
      var init := s[..|s| - 1];
      var r := SplitLines(init);
      var c := s[|s| - 1];
      SplitLinesConcat(init);
      if IsLineBreak(c) {
        ConcatAppend(r, [[]]);
        assert Concat([[]]) == Concat([]) + [];
      } else {
        var last := r[|r| - 1];
        var front := r[..|r| - 1];
        assert r == front + [last];
        ConcatAppend(front, [last]);
        ConcatAppend(front, [last + [c]]);
        assert Concat([last]) == Concat([]) + last;
        assert Concat([last + [c]]) == Concat([]) + (last + [c]);
        AppendAssoc(Concat(front), last, [c]);
      }
    }
  }

  /** No piece of the line cut holds a line break. */
  lemma {:induction false} SplitLinesNoBreak(s: string)
    ensures forall k :: 0 <= k < |SplitLines(s)| ==> NoLineBreak(SplitLines(s)[k])
    decreases |s|
  {
    if s != [] {
      var init := s[..|s| - 1];
      var r := SplitLines(init);
      var c := s[|s| - 1];
      SplitLinesNoBreak(init);
      if !IsLineBreak(c) {
        var last := r[|r| - 1];
        var r2 := SplitLines(s);
        assert r2 == r[..|r| - 1] + [last + [c]];
        forall k | 0 <= k < |r2|
          ensures NoLineBreak(r2[k])
        {
          if k < |r2| - 1 {
            assert r2[k] == r[k];
          } else {
            assert NoLineBreak(last);
          }
        }
      }
    }
  }

  /** A text without line breaks is one piece. */
  lemma {:induction false} SplitLinesUnbroken(s: string)
    requires NoLineBreak(s)
    ensures SplitLines(s) == [s]
    decreases |s|
  {
    if s != [] {
      var init, c := s[..|s| - 1], s[|s| - 1];
      assert !IsLineBreak(c);
      assert NoLineBreak(init) by {
        forall j | 0 <= j < |init|
          ensures !IsLineBreak(init[j])
        {
          assert init[j] == s[j];
        }
      }
      SplitLinesUnbroken(init);
      var r := SplitLines(init);
      assert SplitLines(s) == r[..|r| - 1] + [r[|r| - 1] + [c]];
      assert r[..|r| - 1] == [] && r[|r| - 1] == init;
      assert init + [c] == s;
    }
  }

  /** One more character: a break opens a new piece, any other character
      extends the last one. */
  lemma SplitLinesSnoc(t: string, d: char)
    ensures SplitLines(t + [d]) ==
      if IsLineBreak(d) then SplitLines(t) + [[]]
      else SplitLines(t)[..|SplitLines(t)| - 1] + [SplitLines(t)[|SplitLines(t)| - 1] + [d]]
  {
    assert (t + [d])[..|t + [d]| - 1] == t;
  }

  /** Extending the last piece of `x + y` extends the last piece of `y`. */
  lemma ExtendLast(x: seq<string>, y: seq<string>, d: char)
    requires |y| >= 1
    ensures var xy := x + y;
      xy[..|xy| - 1] + [xy[|xy| - 1] + [d]] == x + (y[..|y| - 1] + [y[|y| - 1] + [d]])
  {
    var xy := x + y;
    assert xy[..|xy| - 1] == x + y[..|y| - 1];
  }

  /** Every line break cuts: the pieces of `a`, a break, then `b` are the
      pieces of `a` followed by those of `b`. With `SplitLinesUnbroken`
      this fixes every cut. */
  lemma {:induction false} SplitLinesAtBreak(a: string, c: char, b: string)
    requires IsLineBreak(c)
    ensures SplitLines(a + [c] + b) == SplitLines(a) + SplitLines(b)
    decreases |b|
  {
    var x := SplitLines(a);
    if b == [] {
      SplitLinesSnoc(a, c);
      assert a + [c] + b == a + [c];
    } else {
      var b', d := b[..|b| - 1], b[|b| - 1];
      var t := a + [c] + b';
      assert a + [c] + b == t + [d] && b == b' + [d];
      SplitLinesAtBreak(a, c, b');
      SplitLinesSnoc(t, d);
      SplitLinesSnoc(b', d);
      var y := SplitLines(b');
      var xy := x + y;
      if IsLineBreak(d) {
        assert xy + [[]] == x + (y + [[]]);
      } else {
        ExtendLast(x, y, d);
      }
    }
  }

  /** `[ln.strip() for ln in block.splitlines() if ln.strip()]`, over pieces. */
  function KeptLines(pieces: seq<string>): (r: seq<string>)
    ensures |r| <= |pieces|
    ensures forall k :: 0 <= k < |r| ==> r[k] != []
  {
    if pieces == [] then []
    else
      var line := Strip(pieces[|pieces| - 1]);
      KeptLines(pieces[..|pieces| - 1]) + (if line == [] then [] else [line])
  }

  /** No line break in `s`. */
  predicate NoLineBreak(s: string)
  {
    forall j :: 0 <= j < |s| ==> !IsLineBreak(s[j])
  }

  /** A line as `parse_text_format` keeps it: non-empty, stripped, unbroken. */
  predicate IsLine(l: string)
  {
    l != [] && Strip(l) == l && NoLineBreak(l)
  }

  /** The stripped, non-empty lines of a block. */
  function BlockLines(block: string): seq<string>
  {
    KeptLines(SplitLines(block))
  }

  /** Stripping a piece without line breaks leaves a piece without them. */
  lemma StripNoBreak(s: string)
    requires NoLineBreak(s)
    ensures NoLineBreak(Strip(s))
  {
    StripSlice(s);
    var k := |s| - |StripLeft(s)|;
    var r := Strip(s);
    forall j | 0 <= j < |r|
      ensures !IsLineBreak(r[j])
    {
      assert r[j] == s[k + j];
    }
  }

  /** Every kept piece is a line in the sense of `IsLine`. */
  lemma {:induction false} KeptLinesAreLines(pieces: seq<string>)
    requires forall m :: 0 <= m < |pieces| ==> NoLineBreak(pieces[m])
    ensures forall k :: 0 <= k < |KeptLines(pieces)| ==> IsLine(KeptLines(pieces)[k])
    decreases |pieces|
  {
    if pieces != [] {
      var init := pieces[..|pieces| - 1];
      var last := pieces[|pieces| - 1];
      KeptLinesAreLines(init);
      StripIdempotent(last);
      StripNoBreak(last);
    }
  }

  /** The lines of a block are non-empty, stripped and free of line breaks,
      so a `.` of a pattern matched against one matches any of its characters. */
  lemma BlockLinesAreLines(block: string)
    ensures forall k :: 0 <= k < |BlockLines(block)| ==> IsLine(BlockLines(block)[k])
  {
    SplitLinesNoBreak(block);
    KeptLinesAreLines(SplitLines(block));
  }

  /** A piece that is not blank keeps a line. */
  lemma {:induction false} KeptLinesNonEmpty(pieces: seq<string>, m: nat)
    requires m < |pieces| && !IsBlank(pieces[m])
    ensures |KeptLines(pieces)| >= 1
    decreases |pieces|
  {
    var n := |pieces| - 1;
    if m == n {
      StripBounds(pieces[n]);
    } else {
      KeptLinesNonEmpty(pieces[..n], m);
    }
  }

  /** A block that is not blank has a first line, so `lines[0]` at app.py:170
      never fails. */
  lemma BlockHasLine(block: string)
    requires !IsBlank(block)
    ensures |BlockLines(block)| >= 1
  {
    var pieces := SplitLines(block);
    SplitLinesConcat(block);
    var i :| 0 <= i < |block| && !IsSpace(block[i]);
    assert !IsLineBreak(block[i]) by {
      if IsLineBreak(block[i]) {
        LineBreakIsSpace(block[i]);
      }
    }
    var c := block[i];
    KeptCharInWithoutBreaks(block, i);
    var m := PieceHolding(pieces, c);
    assert !IsBlank(pieces[m]);
    KeptLinesNonEmpty(pieces, m);
  }

  /** A character that is not a line break survives their removal. */
  lemma {:induction false} KeptCharInWithoutBreaks(s: string, i: nat)
    requires i < |s| && !IsLineBreak(s[i])
    ensures s[i] in WithoutBreaks(s)
    decreases |s|
  {
    if i < |s| - 1 {
      KeptCharInWithoutBreaks(s[..|s| - 1], i);
    }
  }

  /** A character of a concatenation lies in one of its parts. */
  lemma {:induction false} PieceHolding(parts: seq<string>, c: char) returns (m: nat)
    requires c in Concat(parts)
    ensures m < |parts| && c in parts[m]
    decreases |parts|
  {
    var n := |parts| - 1;
    if c in parts[n] {
      m := n;
    } else {
      m := PieceHolding(parts[..n], c);
    }
  }
}
