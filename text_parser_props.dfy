/** What `parse_text_format` (app.py:161-203) guarantees: blocks fail one at
    a time, every kept question has two answers or more, answers are correct
    exactly when the marker line names their letter, and the regular
    expressions' groups are the stripped text after the number or letter. */
module TextParserProps {
  import opened TextUtil
  import opened TextScan
  import opened QuizModel
  import opened TextParser

  // ---------------------------------------------------------------------
  // The groups of the line patterns

  /** `\s*(.+)` then `.strip()` keeps the stripped rest of the line: the
      white space the pattern skips is white space `strip` drops anyway. */
  lemma TailGroupStrip(s: string, i: nat)
    requires i < |s|
    ensures Strip(TailGroup(s, i)) == Strip(s[i..])
  {
    var e := RunEnd(s, i, IsSpace);
    var t := s[i..];
    if e < |s| {
      var pre := t[..e - i];
      assert IsBlank(pre) by {
        forall k | 0 <= k < |pre|
          ensures IsSpace(pre[k])
        {
          assert pre[k] == s[i + k];
        }
      }
      StripLeftSkips(t, e - i);
      assert t[e - i..] == s[e..];
    } else {
      assert IsBlank(t) by {
        forall k | 0 <= k < |t|
          ensures IsSpace(t[k])
        {
          assert t[k] == s[i + k];
        }
      }
      StripBounds(t);
      StripBounds(s[|s| - 1..]);
    }
  }

  /** A numbered first line loses its number, its full stop and the white
      space around its text; any other first line is kept whole. */
  lemma QuestionTextDropsNumber(line: string)
    ensures NumberedAt(line, 0) && DigitEnd(line, 0) + 1 < |line| ==>
      QuestionText(line) == Strip(line[DigitEnd(line, 0) + 1..])
    ensures !(NumberedAt(line, 0) && DigitEnd(line, 0) + 1 < |line|) ==> QuestionText(line) == line
  {
    if NumberedAt(line, 0) && DigitEnd(line, 0) + 1 < |line| {
      TailGroupStrip(line, DigitEnd(line, 0) + 1);
    }
  }

  /** An answer's text is the stripped rest of its line after the letter and
      any `)` or `.`; a line holding nothing else keeps its last character. */
  lemma AnswerTextAfterStops(line: string)
    requires |line| >= 2 && IsAnswerLetter(line[0])
    ensures var p := RunEnd(line, 1, IsStop);
      MatchAnswerLine(line)
        == Some((line[0], if p < |line| then Strip(line[p..]) else Strip(line[|line| - 1..])))
  {
    var p := RunEnd(line, 1, IsStop);
    if p < |line| {
      TailGroupStrip(line, p);
    }
  }

  /** A letter followed only by a bracket is an answer whose text is that
      bracket. */
  lemma BareLetterAnswer()
    ensures MatchAnswerLine("A)") == Some(('A', ")"))
  {
    AnswerTextAfterStops("A)");
    assert "A)"[1..] == ")";
    assert RunEnd("A)", 2, IsStop) == 2;
    StripUnpadded(")");
  }

  // ---------------------------------------------------------------------
  // Letters and the marker line

  /** The two letter classes are the same set of characters. */
  lemma LetterClassesAgree(c: char)
    ensures IsMarkerLetter(c) <==> IsAnswerLetter(c)
  {
  }

  /** The lower-case Cyrillic keys of the letter mapping lie outside both
      classes, so no matched letter ever looks them up. */
  lemma LowercaseKeysUnreachable(c: char)
    requires IsAnswerLetter(c)
    ensures c != '\U{0430}' && c != '\U{0431}' && c != '\U{0432}' && c != '\U{0433}'
  {
  }

  /** The answer letters the documented format uses: Latin A to D and
      Cyrillic А to Г. */
  const IntendedLetters: set<char> := {'A', 'B', 'C', 'D', '\U{0410}', '\U{0411}', '\U{0412}', '\U{0413}'}

  /** Both classes take in every intended letter, and more: as a code-point
      range they also take the other Latin capitals, so a line `E) …` is
      read as an answer line. */
  lemma LetterClassesWiderThanIntended()
    ensures forall c :: c in IntendedLetters ==> IsAnswerLetter(c) && IsMarkerLetter(c)
    ensures 'E' !in IntendedLetters && IsAnswerLetter('E')
    ensures MatchAnswerLine("E) x").Some?
  {
  }

  /** Within the letter class a Latin capital, its lower case and the
      Cyrillic capital in the same position name the same answer, and
      nothing else names A, B, C or D. */
  lemma LetterKeys(c: char)
    requires IsAnswerLetter(c)
    ensures Key(c) == "A" <==> c == 'A' || c == 'a' || c == '\U{0410}'
    ensures Key(c) == "B" <==> c == 'B' || c == 'b' || c == '\U{0411}'
    ensures Key(c) == "C" <==> c == 'C' || c == 'c' || c == '\U{0412}'
    ensures Key(c) == "D" <==> c == 'D' || c == 'd' || c == '\U{0413}'
  {
    if Key(c) == "A" || Key(c) == "B" || Key(c) == "C" || Key(c) == "D" {
      assert |Key(c)| == 1;
      if c < '\U{0410}' {
        assert Key(c) == Upper(c);
      }
    }
  }

  /** The keys from `m` on are those of the letters of the class from `m`
      on. */
  lemma KeysFromMeaning(line: string, m: nat, x: string)
    requires m <= |line|
    ensures x in KeysFrom(line, m) <==>
      exists j :: m <= j < |line| && IsMarkerLetter(line[j]) && Key(line[j]) == x
  {
    var tail := line[m..];
    if x in KeysFrom(line, m) {
      var c :| c in Letters(tail) && Key(c) == x;
      var i :| 0 <= i < |tail| && tail[i] == c;
      assert line[m + i] == c;
    }
    if j :| m <= j < |line| && IsMarkerLetter(line[j]) && Key(line[j]) == x {
      assert tail[j - m] == line[j];
      assert line[j] in Letters(tail);
    }
  }

  /** The marked set holds the key of every letter after the marker words
      and nothing else. */
  lemma CorrectSetMeaning(line: string, x: string)
    ensures x in CorrectSet(line) <==>
      exists j :: MarkerEnd(line) <= j < |line| && IsMarkerLetter(line[j]) && Key(line[j]) == x
  {
    KeysFromMeaning(line, MarkerEnd(line), x);
  }

  /** The set as written holds the key of every letter of the line. */
  lemma CorrectSetAsWrittenMeaning(line: string, x: string)
    ensures x in CorrectSetAsWritten(line) <==>
      exists j :: 0 <= j < |line| && IsMarkerLetter(line[j]) && Key(line[j]) == x
  {
    KeysFromMeaning(line, 0, x);
  }

  /** The two sets differ only by letters in the marker words: when those
      hold none, as in a lower-case marker line, they are equal. */
  lemma CorrectSetsAgree(line: string)
    requires forall j :: 0 <= j < MarkerEnd(line) ==> !IsMarkerLetter(line[j])
    ensures CorrectSet(line) == CorrectSetAsWritten(line)
  {
    forall x
      ensures x in CorrectSet(line) <==> x in CorrectSetAsWritten(line)
    {
      CorrectSetMeaning(line, x);
      CorrectSetAsWrittenMeaning(line, x);
    }
  }

  /** The keys of the letters of `s`, when `s` holds one letter of the
      class, at `i`. */
  lemma KeysOfOneLetter(s: string, i: nat)
    requires i < |s| && IsMarkerLetter(s[i])
    requires forall j :: 0 <= j < |s| && j != i ==> !IsMarkerLetter(s[j])
    ensures KeysFrom(s, 0) == {Key(s[i])}
  {
    forall x
      ensures x in KeysFrom(s, 0) <==> x == Key(s[i])
    {
      KeysFromMeaning(s, 0, x);
    }
  }

  /** Every letter of the class on a line is marked by the set as written. */
  lemma MarkedAsWritten(line: string, j: nat)
    requires j < |line| && IsMarkerLetter(line[j])
    ensures Key(line[j]) in CorrectSetAsWritten(line)
  {
    CorrectSetAsWrittenMeaning(line, Key(line[j]));
  }

  /** The two example marker lines, in lower case and in capitals, cut into
      the stem, the rest of the first word, the space, the marker word and
      what follows; what follows marks B in both. */
  lemma ExampleLineParts()
    ensures "Правильний відповідь: B" == "Правильн" + "ий" + " " + "відповід" + "ь: B"
    ensures "ПРАВИЛЬНА ВІДПОВІДЬ: B" == "ПРАВИЛЬН" + "А" + " " + "ВІДПОВІД" + "Ь: B"
    ensures KeysFrom("ь: B", 0) == {"B"} && KeysFrom("Ь: B", 0) == {"B"}
  {
    KeysOfOneLetter("ь: B", 3);
    KeysOfOneLetter("Ь: B", 3);
  }

  /** The marker line of the documented example is recognised and marks
      exactly B. */
  lemma DocumentedMarker()
    ensures IsMarker("Правильний відповідь: B")
    ensures CorrectSet("Правильний відповідь: B") == {"B"}
  {
    ExampleLineParts();
    MarkerLineOf("Правильн", "ий", "відповід", "відповід", "ь: B");
  }

  /** The stem in capitals holds `А` and `В`, which lie in the letter class
      and stand for A and C. */
  lemma CapitalStemLetters()
    ensures var stem := "ПРАВИЛЬН";
      IsMarkerLetter(stem[2]) && Key(stem[2]) == "A" &&
      IsMarkerLetter(stem[3]) && Key(stem[3]) == "C"
  {
  }

  /** The documented line in capitals: the set as written takes its letters
      from the whole line, so it marks A and C, which the line never names. */
  lemma CapitalMarkerMarksMore()
    ensures "A" in CorrectSetAsWritten("ПРАВИЛЬНА ВІДПОВІДЬ: B")
    ensures "C" in CorrectSetAsWritten("ПРАВИЛЬНА ВІДПОВІДЬ: B")
  {
    ExampleLineParts();
    CapitalStemLetters();
    var line := "ПРАВИЛЬН" + "А" + " " + "ВІДПОВІД" + "Ь: B";
    assert line[2] == "ПРАВИЛЬН"[2] && line[3] == "ПРАВИЛЬН"[3];
    MarkedAsWritten(line, 2);
    MarkedAsWritten(line, 3);
  }

  /** The line in capitals is recognised as a marker, and taking the letters
      after the marker words it marks exactly B, as the lower-case one does. */
  lemma CapitalMarkerCorrected()
    ensures IsMarker("ПРАВИЛЬНА ВІДПОВІДЬ: B")
    ensures CorrectSet("ПРАВИЛЬНА ВІДПОВІДЬ: B") == {"B"}
  {
    ExampleLineParts();
    MarkerLineOf("ПРАВИЛЬН", "А", "ВІДПОВІД", "відповід", "Ь: B");
  }

  /** A line opening with the stem, word characters up to `j`, one space and
      then `word` is a marker line, and its marker words end after `word`. */
  lemma MarkerEndOf(line: string, j: nat, word: string)
    requires word == "ответ" || word == "відповід"
    requires |Stem| <= j && j + 1 + |word| <= |line|
    requires CiAt(line, 0, Stem)
    requires forall k :: |Stem| <= k < j ==> IsWordChar(line[k])
    requires !IsWordChar(line[j]) && IsSpace(line[j]) && !IsSpace(line[j + 1])
    requires CiAt(line, j + 1, word)
    ensures IsMarker(line)
    ensures MarkerEnd(line) == j + 1 + |word|
  {
    RunEndAt(line, |Stem|, j, IsWordChar);
    RunEndAt(line, j, j + 1, IsSpace);
    if word == "відповід" {
      assert Fold(line[j + 1]) == word[0] != "ответ"[0];
    }
  }

  /** A line made of the stem in any case, a run of word characters, one
      space, a marker word in any case and the rest is a marker line; the
      answers it marks are the keys of the letters of the rest. */
  lemma MarkerLineOf(stem: string, run: string, word: string, w: string, rest: string)
    requires w == "ответ" || w == "відповід"
    requires |stem| == |Stem| && CiAt(stem, 0, Stem)
    requires forall k :: 0 <= k < |run| ==> IsWordChar(run[k])
    requires |word| == |w| && CiAt(word, 0, w)
    ensures IsMarker(stem + run + " " + word + rest)
    ensures CorrectSet(stem + run + " " + word + rest) == KeysFrom(rest, 0)
  {
    var line := stem + run + " " + word + rest;
    var j := |stem| + |run|;
    forall k | 0 <= k < |Stem|
      ensures Fold(line[k]) == Stem[k]
    {
      assert line[k] == stem[k];
    }
    forall k | |Stem| <= k < j
      ensures IsWordChar(line[k])
    {
      assert line[k] == run[k - |Stem|];
    }
    assert line[j] == ' ';
    forall k | 0 <= k < |w|
      ensures Fold(line[j + 1 + k]) == w[k]
    {
      assert line[j + 1 + k] == word[k];
    }
    assert Fold(word[0]) == w[0];
    MarkerEndOf(line, j, w);
    assert line[j + 1 + |w|..] == rest == rest[0..];
  }

  /** The run from `i` ends at `e` when every character before `e` is in the
      class and the one at `e` is not. */
  lemma {:induction false} RunEndAt(s: string, i: nat, e: nat, inRun: char -> bool)
    requires i <= e < |s|
    requires forall k :: i <= k < e ==> inRun(s[k])
    requires !inRun(s[e])
    ensures RunEnd(s, i, inRun) == e
    decreases e - i
  {
    if i < e {
      RunEndAt(s, i + 1, e, inRun);
    }
  }

  // ---------------------------------------------------------------------
  // One block

  /** A block without a marker line is dropped with exactly the "not found"
      error, and only such a block gets that error. */
  lemma NoMarkerOutcome(scope: LetterScope, idx: nat, lines: seq<string>)
    requires |lines| >= 1
    ensures FindMarker(lines).None? <==>
      LinesOutcome(scope, idx, lines) == Outcome(None, [BlockError(idx, NoMarkerMessage)])
  {
    if FindMarker(lines).Some? && LinesOutcome(scope, idx, lines).question.None? {
      var o := LinesOutcome(scope, idx, lines);
      assert o.errors[|o.errors| - 1] == BlockError(idx, TooFewMessage);
      assert TooFewMessage[0] != NoMarkerMessage[0];
    }
  }

  /** A single answer line mentioning `true` makes a true/false question:
      "true" is correct exactly when the marker line mentions `true` too, and
      the classifier files the result as true/false. */
  lemma TrueFalseShortcut(scope: LetterScope, idx: nat, lines: seq<string>, c: nat)
    requires |lines| >= 1 && FindMarker(lines) == Some(c)
    requires IsTrueFalseLine(AnswerLinesBefore(lines, c))
    ensures LinesOutcome(scope, idx, lines)
      == Outcome(Some(Question(QuestionText(lines[0]), TrueFalseAnswers(ContainsCi(lines[c], "true")))), [])
    ensures DetectQuestionType(TrueFalseAnswers(ContainsCi(lines[c], "true"))) == TrueFalse
  {
    var answers := TrueFalseAnswers(ContainsCi(lines[c], "true"));
    assert '-' !in answers[0].text;
  }

  /** Outside the shortcut the answer loop decides the block: a line that is
      not an answer is reported, and the question is kept exactly when two
      answers or more were read before it. */
  lemma ChoiceOutcome(scope: LetterScope, idx: nat, lines: seq<string>, c: nat)
    requires |lines| >= 1 && FindMarker(lines) == Some(c)
    requires !IsTrueFalseLine(AnswerLinesBefore(lines, c))
    ensures var r := ParseAnswerLines(AnswerLinesBefore(lines, c), MarkedKeys(scope, lines[c]));
      var o := LinesOutcome(scope, idx, lines);
      && o.errors == MalformedErrors(idx, r.1) + (if |r.0| < 2 then [BlockError(idx, TooFewMessage)] else [])
      && (o.question.Some? <==> |r.0| >= 2)
      && (o.question.Some? ==> o.question.value == Question(QuestionText(lines[0]), r.0))
  {
    var r := ParseAnswerLines(AnswerLinesBefore(lines, c), MarkedKeys(scope, lines[c]));
    if |r.0| >= 2 {
      assert MalformedErrors(idx, r.1) + [] == MalformedErrors(idx, r.1);
    }
  }

  /** Each kept answer comes from the answer line at its position, carries
      that line's text, and is correct exactly when some letter of the marker
      line has the same key as the answer's letter. */
  lemma AnswerCorrectness(scope: LetterScope, idx: nat, lines: seq<string>, c: nat, i: nat)
    requires |lines| >= 1 && FindMarker(lines) == Some(c)
    requires !IsTrueFalseLine(AnswerLinesBefore(lines, c))
    requires LinesOutcome(scope, idx, lines).question.Some?
    requires i < |LinesOutcome(scope, idx, lines).question.value.answers|
    ensures var line := AnswerLinesBefore(lines, c)[i];
      var a := LinesOutcome(scope, idx, lines).question.value.answers[i];
      && MatchAnswerLine(line).Some?
      && a.text == MatchAnswerLine(line).value.1
      && (a.correct <==> exists j :: ScopeStart(scope, lines[c]) <= j < |lines[c]| && IsMarkerLetter(lines[c][j]) && Key(lines[c][j]) == Key(line[0]))
  {
    var ans := AnswerLinesBefore(lines, c);
    ChoiceOutcome(scope, idx, lines, c);
    ParseAnswerLinesMeaning(ans, MarkedKeys(scope, lines[c]));
    KeysFromMeaning(lines[c], ScopeStart(scope, lines[c]), Key(ans[i][0]));
  }

  /** What any block adds: errors that all name it, at most two of them, at
      least one when it adds no question, and a question only with two
      answers or more. */
  predicate Shaped(o: Outcome, idx: nat)
  {
    && (forall k :: 0 <= k < |o.errors| ==> o.errors[k].block == idx)
    && |o.errors| <= 2
    && (o.question.None? ==> |o.errors| >= 1)
    && (o.question.Some? ==> |o.question.value.answers| >= 2)
  }

  /** Every block's outcome has that shape, and a kept question's text comes
      from the block's first line. */
  lemma OutcomeShape(scope: LetterScope, idx: nat, lines: seq<string>)
    requires |lines| >= 1
    ensures Shaped(LinesOutcome(scope, idx, lines), idx)
    ensures LinesOutcome(scope, idx, lines).question.Some? ==>
      LinesOutcome(scope, idx, lines).question.value.text == QuestionText(lines[0])
  {
    match FindMarker(lines)
    case None =>
    case Some(c) =>
      if !IsTrueFalseLine(AnswerLinesBefore(lines, c)) {
        ChoiceOutcome(scope, idx, lines, c);
      }
  }

  // ---------------------------------------------------------------------
  // The whole text

  /** One block is kept exactly when it is not blank. */
  lemma NonBlankOne(b: string)
    ensures NonBlank([b]) == if IsBlank(b) then [] else [b]
  {
  }

  /** The filter keeps the order of the blocks: the blocks kept from two
      runs one after the other are those kept from each, in turn. */
  lemma {:induction false} NonBlankAppend(a: seq<string>, b: seq<string>)
    ensures NonBlank(a + b) == NonBlank(a) + NonBlank(b)
    decreases |b|
  {
    if b == [] {
      assert a + b == a;
    } else {
      var n := |b| - 1;
      assert (a + b)[..|a + b| - 1] == a + b[..n];
      assert (a + b)[|a + b| - 1] == b[n];
      NonBlankAppend(a, b[..n]);
      AppendAssoc(NonBlank(a), NonBlank(b[..n]), if IsBlank(b[n]) then [] else [b[n]]);
    }
  }

  /** Collecting two runs of outcomes is collecting each. */
  lemma {:induction false} CollectAppend(x: seq<Outcome>, y: seq<Outcome>)
    ensures Collect(x + y) == (Collect(x).0 + Collect(y).0, Collect(x).1 + Collect(y).1)
    decreases |y|
  {
    if y == [] {
      assert x + y == x;
      assert Collect(x).0 + [] == Collect(x).0 && Collect(x).1 + [] == Collect(x).1;
    } else {
      var n := |y| - 1;
      assert (x + y)[..|x + y| - 1] == x + y[..n];
      assert (x + y)[|x + y| - 1] == y[n];
      CollectAppend(x, y[..n]);
      AppendAssoc(Collect(x).0, Collect(y[..n]).0, OptionSeq(y[n].question));
      AppendAssoc(Collect(x).1, Collect(y[..n]).1, y[n].errors);
    }
  }

  /** The outcomes of two runs of blocks one after the other are the
      outcomes of each, the second numbered on from the first. */
  lemma OutcomesAppend(scope: LetterScope, a: seq<string>, b: seq<string>, first: nat)
    requires forall k :: 0 <= k < |a| ==> !IsBlank(a[k])
    requires forall k :: 0 <= k < |b| ==> !IsBlank(b[k])
    ensures forall k :: 0 <= k < |a + b| ==> !IsBlank((a + b)[k])
    ensures Outcomes(scope, a + b, first) == Outcomes(scope, a, first) + Outcomes(scope, b, first + |a|)
  {
    forall k | 0 <= k < |a + b|
      ensures !IsBlank((a + b)[k])
      ensures Outcomes(scope, a + b, first)[k] == (Outcomes(scope, a, first) + Outcomes(scope, b, first + |a|))[k]
    {
      var o := Outcomes(scope, a, first) + Outcomes(scope, b, first + |a|);
      if k >= |a| {
        assert (a + b)[k] == b[k - |a|];
        assert o[k] == Outcomes(scope, b, first + |a|)[k - |a|];
      } else {
        assert (a + b)[k] == a[k];
        assert o[k] == Outcomes(scope, a, first)[k];
      }
    }
  }

  /** Parsing two runs of blocks one after the other is parsing each, the
      second numbered on from the first. */
  lemma ParseBlocksAppend(scope: LetterScope, a: seq<string>, b: seq<string>, first: nat)
    requires forall k :: 0 <= k < |a| ==> !IsBlank(a[k])
    requires forall k :: 0 <= k < |b| ==> !IsBlank(b[k])
    ensures forall k :: 0 <= k < |a + b| ==> !IsBlank((a + b)[k])
    ensures ParseBlocks(scope, a + b, first)
      == (ParseBlocks(scope, a, first).0 + ParseBlocks(scope, b, first + |a|).0,
          ParseBlocks(scope, a, first).1 + ParseBlocks(scope, b, first + |a|).1)
  {
    OutcomesAppend(scope, a, b, first);
    CollectAppend(Outcomes(scope, a, first), Outcomes(scope, b, first + |a|));
  }

  /** An outcome between two runs adds its own part between theirs. */
  lemma CollectMiddle(x: seq<Outcome>, o: Outcome, z: seq<Outcome>)
    ensures Collect(x + [o] + z)
      == (Collect(x).0 + OptionSeq(o.question) + Collect(z).0, Collect(x).1 + o.errors + Collect(z).1)
  {
    CollectAppend(x + [o], z);
    CollectAppend(x, [o]);
    assert [o][..0] == [];
  }

  /** The outcomes of blocks around a middle one are the outcomes of each
      side, the later side numbered on after the middle block. */
  lemma OutcomesAround(scope: LetterScope, a: seq<string>, b: string, c: seq<string>)
    requires forall k :: 0 <= k < |a| ==> !IsBlank(a[k])
    requires !IsBlank(b)
    requires forall k :: 0 <= k < |c| ==> !IsBlank(c[k])
    ensures forall k :: 0 <= k < |a + [b] + c| ==> !IsBlank((a + [b] + c)[k])
    ensures Outcomes(scope, a + [b] + c, 0) == Outcomes(scope, a, 0) + [BlockOutcome(scope, |a| + 1, b)] + Outcomes(scope, c, |a| + 1)
  {
    OutcomesAppend(scope, a, [b], 0);
    OutcomesAppend(scope, a + [b], c, 0);
    assert Outcomes(scope, [b], |a|) == [BlockOutcome(scope, |a| + 1, b)];
  }

  /** Fault isolation: a block's outcome neither depends on nor changes the
      outcomes of the blocks around it, which keep their numbers. */
  lemma BlockIsolated(scope: LetterScope, a: seq<string>, b: string, c: seq<string>)
    requires forall k :: 0 <= k < |a| ==> !IsBlank(a[k])
    requires !IsBlank(b)
    requires forall k :: 0 <= k < |c| ==> !IsBlank(c[k])
    ensures forall k :: 0 <= k < |a + [b] + c| ==> !IsBlank((a + [b] + c)[k])
    ensures ParseBlocks(scope, a + [b] + c, 0)
      == (ParseBlocks(scope, a, 0).0 + OptionSeq(BlockOutcome(scope, |a| + 1, b).question) + ParseBlocks(scope, c, |a| + 1).0,
          ParseBlocks(scope, a, 0).1 + BlockOutcome(scope, |a| + 1, b).errors + ParseBlocks(scope, c, |a| + 1).1)
  {
    OutcomesAround(scope, a, b, c);
    CollectMiddle(Outcomes(scope, a, 0), BlockOutcome(scope, |a| + 1, b), Outcomes(scope, c, |a| + 1));
  }

  /** A block without a marker line costs exactly its "not found" error; the
      blocks after it are still parsed. */
  lemma NoMarkerBlockIsolated(scope: LetterScope, a: seq<string>, b: string, c: seq<string>)
    requires forall k :: 0 <= k < |a| ==> !IsBlank(a[k])
    requires !IsBlank(b) && FindMarker(BlockLines(b)).None?
    requires forall k :: 0 <= k < |c| ==> !IsBlank(c[k])
    ensures forall k :: 0 <= k < |a + [b] + c| ==> !IsBlank((a + [b] + c)[k])
    ensures ParseBlocks(scope, a + [b] + c, 0)
      == (ParseBlocks(scope, a, 0).0 + ParseBlocks(scope, c, |a| + 1).0,
          ParseBlocks(scope, a, 0).1 + [BlockError(|a| + 1, NoMarkerMessage)] + ParseBlocks(scope, c, |a| + 1).1)
  {
    BlockIsolated(scope, a, b, c);
    BlockHasLine(b);
    assert ParseBlocks(scope, a, 0).0 + [] == ParseBlocks(scope, a, 0).0;
  }

  /** The collected questions and errors of well-shaped outcomes: questions
      with two answers or more, errors naming the run's blocks in order. */
  lemma {:induction false} CollectBounds(os: seq<Outcome>, first: nat)
    requires forall k :: 0 <= k < |os| ==> Shaped(os[k], first + k + 1)
    ensures forall k :: 0 <= k < |Collect(os).0| ==> |Collect(os).0[k].answers| >= 2
    ensures forall k :: 0 <= k < |Collect(os).1| ==> first < Collect(os).1[k].block <= first + |os|
    ensures forall k, m :: 0 <= k < m < |Collect(os).1| ==> Collect(os).1[k].block <= Collect(os).1[m].block
    decreases |os|
  {
    if os != [] {
      var n := |os| - 1;
      CollectBounds(os[..n], first);
      var before := Collect(os[..n]);
      var o := os[n];
      var r := Collect(os);
      assert r == (before.0 + OptionSeq(o.question), before.1 + o.errors);
      assert Shaped(o, first + n + 1);
      AnswersAppend(before.0, OptionSeq(o.question));
      ErrorsAppend(before.1, o.errors, first, n);
    }
  }

  /** Questions with two answers or more, one run after another. */
  lemma AnswersAppend(a: seq<Question>, b: seq<Question>)
    requires forall k :: 0 <= k < |a| ==> |a[k].answers| >= 2
    requires forall k :: 0 <= k < |b| ==> |b[k].answers| >= 2
    ensures forall k :: 0 <= k < |a + b| ==> |(a + b)[k].answers| >= 2
  {
    forall k | 0 <= k < |a + b|
      ensures |(a + b)[k].answers| >= 2
    {
      if k >= |a| {
        assert (a + b)[k] == b[k - |a|];
      }
    }
  }

  /** Errors naming the first `n` blocks in order, followed by errors naming
      block n + 1, name the first n + 1 blocks in order. */
  lemma ErrorsAppend(a: seq<BlockError>, b: seq<BlockError>, first: nat, n: nat)
    requires forall k :: 0 <= k < |a| ==> first < a[k].block <= first + n
    requires forall k, m :: 0 <= k < m < |a| ==> a[k].block <= a[m].block
    requires forall k :: 0 <= k < |b| ==> b[k].block == first + n + 1
    ensures forall k :: 0 <= k < |a + b| ==> first < (a + b)[k].block <= first + n + 1
    ensures forall k, m :: 0 <= k < m < |a + b| ==> (a + b)[k].block <= (a + b)[m].block
  {
    var r := a + b;
    forall k | 0 <= k < |r|
      ensures first < r[k].block <= first + n + 1
    {
      if k >= |a| {
        assert r[k] == b[k - |a|];
      }
    }
    forall k, m | 0 <= k < m < |r|
      ensures r[k].block <= r[m].block
    {
      if m < |a| {
        assert r[k] == a[k] && r[m] == a[m];
      } else if k < |a| {
        assert r[k] == a[k] && r[m] == b[m - |a|];
      } else {
        assert r[k] == b[k - |a|] && r[m] == b[m - |a|];
      }
    }
  }

  /** Every kept question has two answers or more; there are no more
      questions than blocks; the errors name blocks of the run, in order. */
  lemma ParseBlocksBounds(scope: LetterScope, blocks: seq<string>, first: nat)
    requires forall k :: 0 <= k < |blocks| ==> !IsBlank(blocks[k])
    ensures |ParseBlocks(scope, blocks, first).0| <= |blocks|
    ensures forall k :: 0 <= k < |ParseBlocks(scope, blocks, first).0| ==> |ParseBlocks(scope, blocks, first).0[k].answers| >= 2
    ensures forall k :: 0 <= k < |ParseBlocks(scope, blocks, first).1| ==>
      first < ParseBlocks(scope, blocks, first).1[k].block <= first + |blocks|
    ensures forall k, m :: 0 <= k < m < |ParseBlocks(scope, blocks, first).1| ==>
      ParseBlocks(scope, blocks, first).1[k].block <= ParseBlocks(scope, blocks, first).1[m].block
  {
    OutcomesShaped(scope, blocks, first);
    CollectBounds(Outcomes(scope, blocks, first), first);
  }

  /** Every outcome of a run of blocks has the shape of its block's number. */
  lemma OutcomesShaped(scope: LetterScope, blocks: seq<string>, first: nat)
    requires forall k :: 0 <= k < |blocks| ==> !IsBlank(blocks[k])
    ensures forall k :: 0 <= k < |blocks| ==> Shaped(Outcomes(scope, blocks, first)[k], first + k + 1)
  {
    forall k | 0 <= k < |blocks|
      ensures Shaped(Outcomes(scope, blocks, first)[k], first + k + 1)
    {
      ShapedAt(scope, blocks, first, k);
    }
  }

  /** The outcome of block k of a run has the shape of its number. */
  lemma ShapedAt(scope: LetterScope, blocks: seq<string>, first: nat, k: nat)
    requires forall k :: 0 <= k < |blocks| ==> !IsBlank(blocks[k])
    requires k < |blocks|
    ensures Shaped(Outcomes(scope, blocks, first)[k], first + k + 1)
  {
    BlockShaped(Outcomes(scope, blocks, first)[k], scope, first + k + 1, blocks[k]);
  }

  /** A block's outcome `o` has the shape of its number. */
  lemma BlockShaped(o: Outcome, scope: LetterScope, idx: nat, block: string)
    requires !IsBlank(block) && o == BlockOutcome(scope, idx, block)
    ensures Shaped(o, idx)
  {
    BlockHasLine(block);
    OutcomeShape(scope, idx, BlockLines(block));
  }

  // ---------------------------------------------------------------------
  // The two readings of the marker line

  /** The letters after the marker words are among those of the whole line:
      the set as written marks every answer the corrected set marks. */
  lemma CorrectSetWithinAsWritten(line: string)
    ensures CorrectSet(line) <= CorrectSetAsWritten(line)
  {
    forall x | x in CorrectSet(line)
      ensures x in CorrectSetAsWritten(line)
    {
      CorrectSetMeaning(line, x);
      CorrectSetAsWrittenMeaning(line, x);
    }
  }

  /** The marker line of `lines`, if there is one, holds no letter of the
      class in its marker words. */
  predicate PlainMarkerWords(lines: seq<string>)
  {
    match FindMarker(lines)
    case None => true
    case Some(c) => forall j :: 0 <= j < MarkerEnd(lines[c]) ==> !IsMarkerLetter(lines[c][j])
  }

  /** Lines whose marker words hold no letter of the class have the same
      outcome under both readings. */
  lemma LinesOutcomeScopesAgree(idx: nat, lines: seq<string>)
    requires |lines| >= 1 && PlainMarkerWords(lines)
    ensures LinesOutcome(WholeLine, idx, lines) == LinesOutcome(AfterMarkerWords, idx, lines)
  {
    if FindMarker(lines).Some? {
      CorrectSetsAgree(lines[FindMarker(lines).value]);
    }
  }

  /** Blocks whose marker words hold no letter of the class parse the same
      under both readings. */
  lemma ParseBlocksScopesAgree(blocks: seq<string>, first: nat)
    requires forall k :: 0 <= k < |blocks| ==> !IsBlank(blocks[k])
    requires forall k :: 0 <= k < |blocks| ==> PlainMarkerWords(BlockLines(blocks[k]))
    ensures ParseBlocks(WholeLine, blocks, first) == ParseBlocks(AfterMarkerWords, blocks, first)
  {
    forall k | 0 <= k < |blocks|
      ensures BlockOutcome(WholeLine, first + k + 1, blocks[k]) == BlockOutcome(AfterMarkerWords, first + k + 1, blocks[k])
    {
      BlockOutcomeScopesAgree(first + k + 1, blocks[k]);
    }
    OutcomesSame(WholeLine, AfterMarkerWords, blocks, first);
  }

  /** Runs of blocks whose every block has the same outcome under two
      readings have the same outcomes. */
  lemma OutcomesSame(s1: LetterScope, s2: LetterScope, blocks: seq<string>, first: nat)
    requires forall k :: 0 <= k < |blocks| ==> !IsBlank(blocks[k])
    requires forall k :: 0 <= k < |blocks| ==> BlockOutcome(s1, first + k + 1, blocks[k]) == BlockOutcome(s2, first + k + 1, blocks[k])
    ensures Outcomes(s1, blocks, first) == Outcomes(s2, blocks, first)
  {
  }

  /** A block whose marker words hold no letter of the class has the same
      outcome under both readings. */
  lemma BlockOutcomeScopesAgree(idx: nat, block: string)
    requires !IsBlank(block) && PlainMarkerWords(BlockLines(block))
    ensures BlockOutcome(WholeLine, idx, block) == BlockOutcome(AfterMarkerWords, idx, block)
  {
    BlockHasLine(block);
    LinesOutcomeScopesAgree(idx, BlockLines(block));
  }

  /** A text whose marker words hold no letter of the class anywhere, as in
      the documented format, parses the same under both readings. */
  lemma ParseTextScopesAgree(text: string)
    requires forall k :: 0 <= k < |Blocks(text)| ==> PlainMarkerWords(BlockLines(Blocks(text)[k]))
    ensures ParseText(text) == ParseTextCorrected(text)
  {
    ParseBlocksScopesAgree(Blocks(text), 0);
  }

  /** The lines before the marker line of the example block: none of them
      is a marker line. */
  lemma ExampleBlockNoEarlyMarker()
    ensures !IsMarker("1. Q") && !IsMarker("A. x") && !IsMarker("B. y")
  {
    assert !CiAt("1. Q", 0, Stem) && !CiAt("A. x", 0, Stem) && !CiAt("B. y", 0, Stem);
  }

  /** The example block's first line gives the question text `Q`. */
  lemma ExampleBlockQuestionText()
    ensures QuestionText("1. Q") == "Q"
  {
  }

  /** The example block's answer lines, keyed by A and B. */
  lemma ExampleBlockAnswerA()
    ensures MatchAnswerLine("A. x") == Some(('A', "x")) && Key('A') == "A"
  {
  }

  lemma ExampleBlockAnswerB()
    ensures MatchAnswerLine("B. y") == Some(('B', "y")) && Key('B') == "B"
  {
  }

  /** The marker line of the example block is its fourth line. */
  lemma ExampleBlockMarker(m: string)
    requires IsMarker(m)
    ensures FindMarker(["1. Q", "A. x", "B. y", m]) == Some(3)
  {
    var lines := ["1. Q", "A. x", "B. y", m];
    ExampleBlockNoEarlyMarker();
    assert lines[0] == "1. Q" && lines[1] == "A. x" && lines[2] == "B. y" && lines[3] == m;
    assert forall k :: 0 <= k < 3 ==> !IsMarker(lines[k]);
  }

  /** The answer loop reads both answer lines of the example block. */
  lemma ExampleBlockRead(keys: set<string>)
    ensures ParseAnswerLines(["A. x", "B. y"], keys) == ([Answer("x", "A" in keys), Answer("y", "B" in keys)], None)
  {
    var ans := ["A. x", "B. y"];
    ExampleBlockAnswerA();
    ExampleBlockAnswerB();
    ParseAnswerLinesMeaning(ans, keys);
    var r := ParseAnswerLines(ans, keys);
    assert forall k :: 0 <= k < |ans| ==> MatchAnswerLine(ans[k]).Some?;
    assert |r.0| == 2 && r.0[0] == Answer("x", "A" in keys) && r.0[1] == Answer("y", "B" in keys);
    assert r.0 == [Answer("x", "A" in keys), Answer("y", "B" in keys)];
    assert r == (r.0, r.1);
  }

  /** A block of the documented shape, with the answers `x` and `y` and the
      marker line `m`: each answer is correct as its letter is marked. */
  lemma ExampleBlockOutcome(scope: LetterScope, m: string)
    requires IsMarker(m)
    ensures LinesOutcome(scope, 1, ["1. Q", "A. x", "B. y", m]) ==
      Outcome(Some(Question("Q", [Answer("x", "A" in MarkedKeys(scope, m)), Answer("y", "B" in MarkedKeys(scope, m))])), [])
  {
    var lines := ["1. Q", "A. x", "B. y", m];
    ExampleBlockMarker(m);
    ExampleBlockQuestionText();
    ExampleBlockRead(MarkedKeys(scope, m));
    assert lines[0] == "1. Q" && lines[3] == m;
    assert AnswerLinesBefore(lines, 3) == ["A. x", "B. y"];
  }

  /** As written, the block with its marker line in capitals marks both
      answers correct, though the line names only B. */
  lemma CapitalBlockAsWritten()
    ensures LinesOutcome(WholeLine, 1, ["1. Q", "A. x", "B. y", "ПРАВИЛЬНА ВІДПОВІДЬ: B"])
      == Outcome(Some(Question("Q", [Answer("x", true), Answer("y", true)])), [])
  {
    var m := "ПРАВИЛЬНА ВІДПОВІДЬ: B";
    CapitalMarkerMarksMore();
    CapitalMarkerCorrected();
    CorrectSetWithinAsWritten(m);
    ExampleBlockOutcome(WholeLine, m);
  }

  /** Reading the letters after the marker words, the same block marks B
      alone. */
  lemma CapitalBlockCorrected()
    ensures LinesOutcome(AfterMarkerWords, 1, ["1. Q", "A. x", "B. y", "ПРАВИЛЬНА ВІДПОВІДЬ: B"])
      == Outcome(Some(Question("Q", [Answer("x", false), Answer("y", true)])), [])
  {
    CapitalMarkerCorrected();
    ExampleBlockOutcome(AfterMarkerWords, "ПРАВИЛЬНА ВІДПОВІДЬ: B");
  }

  /** The two readings give the block different types: multiple choice as
      written, true/false (two answers, one correct) when corrected. */
  lemma ExampleBlockTypes()
    ensures DetectQuestionType([Answer("x", true), Answer("y", true)]) == Multiple
    ensures DetectQuestionType([Answer("x", false), Answer("y", true)]) == TrueFalse
  {
    var asWritten, corrected := [Answer("x", true), Answer("y", true)], [Answer("x", false), Answer("y", true)];
    assert '-' !in asWritten[0].text && '-' !in corrected[0].text;
    assert !corrected[0].correct && corrected[1].correct;
    assert AllCorrect(asWritten) && !AllCorrect(corrected) && !NoneCorrect(corrected);
  }
}
