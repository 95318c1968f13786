/** `parse_text_format` (app.py:161-203): numbered questions, lettered
    answers and a "correct answer" line, cut into blocks, each block turned
    into a question or into error reports. */
module TextParser {
  import opened TextUtil
  import opened TextScan
  import opened QuizModel

  /** The three error texts the parser reports. */
  const NoMarkerMessage := "Не знайдено рядок із правильними відповідями"
  const TooFewMessage := "Менше двох варіантів відповіді"

  const MalformedPrefix := "Невірний формат відповіді: '"

  /** The report for an answer line that does not match: the fixed text
      and the line itself, in single quotes. */
  function MalformedMessage(line: string): (m: string)
    ensures StartsWith(m, MalformedPrefix) && m[|m| - 1] == '\''
    ensures |m| == |MalformedPrefix| + |line| + 1 && m[|MalformedPrefix|..|m| - 1] == line
  {
    MalformedPrefix + line + "'"
  }

  // ---------------------------------------------------------------------
  // Character classes

  /** `\w`: letters, digits and `_` of the Latin and Cyrillic scripts. */
  predicate IsWordChar(c: char)
  {
    || ('a' <= c <= 'z') || ('A' <= c <= 'Z') || ('0' <= c <= '9') || c == '_'
    || c == '\U{00AA}' || c == '\U{00B2}' || c == '\U{00B3}' || c == '\U{00B5}'
    || c == '\U{00B9}' || c == '\U{00BA}' || ('\U{00BC}' <= c <= '\U{00BE}')
    || ('\U{00C0}' <= c <= '\U{02C1}' && c != '\U{00D7}' && c != '\U{00F7}')
    || ('\U{0400}' <= c <= '\U{0481}') || ('\U{048A}' <= c <= '\U{052F}')
  }

  /** The character a pattern letter must equal under `re.IGNORECASE`: the
      lower case of Latin and Cyrillic capitals, and of the old Cyrillic
      letter variants U+1C80..U+1C86. */
  function Fold(c: char): char
  {
    if 'A' <= c <= 'Z' then (c as int + 0x20) as char
    else if '\U{0410}' <= c <= '\U{042F}' then (c as int + 0x20) as char
    else if '\U{0400}' <= c <= '\U{040F}' then (c as int + 0x50) as char
    else if c == '\U{1C80}' then '\U{0432}'
    else if c == '\U{1C81}' then '\U{0434}'
    else if c == '\U{1C82}' then '\U{043E}'
    else if c == '\U{1C83}' then '\U{0441}'
    else if c == '\U{1C84}' || c == '\U{1C85}' then '\U{0442}'
    else if c == '\U{1C86}' then '\U{044A}'
    else c
  }

  /** The lower-case word `w` occurs at `i` of `s`, ignoring case. */
  predicate CiAt(s: string, i: nat, w: string)
  {
    i + |w| <= |s| && forall k :: 0 <= k < |w| ==> Fold(s[i + k]) == w[k]
  }

  /** `re.search("(?i)" + w, s)` finds a match. */
  predicate ContainsCi(s: string, w: string)
  {
    exists i :: 0 <= i <= |s| - |w| && CiAt(s, i, w)
  }

  /** End of the longest run of characters in the class `inRun` from `i`. */
  function RunEnd(s: string, i: nat, inRun: char -> bool): (e: nat)
    requires i <= |s|
    ensures i <= e <= |s|
    ensures forall k :: i <= k < e ==> inRun(s[k])
    ensures e < |s| ==> !inRun(s[e])
    decreases |s| - i
  {
    if i < |s| && inRun(s[i]) then RunEnd(s, i + 1, inRun) else i
  }

  predicate IsStop(c: char)
  {
    c == ')' || c == '.'
  }

  /** `[A-ГA-D]` at app.py:181. The range runs from the Latin `A` (U+0041)
      to the Cyrillic `Г` (U+0413), so it takes in the Latin and Cyrillic
      answer letters and every code point between them. */
  predicate IsMarkerLetter(c: char)
  {
    ('A' <= c <= '\U{0413}') || ('A' <= c <= 'D')
  }

  /** `[A-Г]` at app.py:190, the same code-point range. */
  predicate IsAnswerLetter(c: char)
  {
    'A' <= c <= '\U{0413}'
  }

  /** `str.upper` on one character, for the ASCII and Latin-1 letters. */
  function Upper(c: char): (r: string)
    ensures |r| >= 1
  {
    if 'a' <= c <= 'z' then [(c as int - 0x20) as char]
    else if c == '\U{00B5}' then ['\U{039C}']
    else if c == '\U{00DF}' then "SS"
    else if '\U{00E0}' <= c <= '\U{00FE}' && c != '\U{00F7}' then [(c as int - 0x20) as char]
    else if c == '\U{00FF}' then ['\U{0178}']
    else [c]
  }

  /** `mapping.get(l, l.upper())`: the Cyrillic letters а/А, б/Б, в/В, г/Г
      name the answers A, B, C, D; any other letter names itself in upper case. */
  function Key(c: char): (r: string)
    ensures |r| >= 1
  {
    if c == '\U{0430}' || c == '\U{0410}' then "A"
    else if c == '\U{0431}' || c == '\U{0411}' then "B"
    else if c == '\U{0432}' || c == '\U{0412}' then "C"
    else if c == '\U{0433}' || c == '\U{0413}' then "D"
    else Upper(c)
  }

  // ---------------------------------------------------------------------
  // The patterns matched against one line

  /** The group `(.+)` after `\s*` from position `i` of a line that has a
      character at or after `i`: the rest after the white space, or, when
      only white space is left, the last character (the match backtracks). */
  function TailGroup(s: string, i: nat): (g: string)
    requires i <= |s| && |s| >= 1
    ensures |g| >= 1
  {
    var e := RunEnd(s, i, IsSpace);
    if e < |s| then s[e..] else s[|s| - 1..]
  }

  /** `re.match(r"^\d+\.\s*(.+)", line)` and its group, stripped; a line
      without the number keeps its whole text (app.py:170-171). */
  function QuestionText(line: string): string
  {
    if NumberedAt(line, 0) && DigitEnd(line, 0) + 1 < |line|
    then Strip(TailGroup(line, DigitEnd(line, 0) + 1))
    else line
  }

  const Stem := "правильн"

  /** `правильн\w*\s+(?:ответ|відповід)` continues at `j`, the end of the
      `\w*` run: at least one white space, then either word. */
  predicate MarkerTail(line: string, j: nat)
    requires j <= |line|
  {
    j < RunEnd(line, j, IsSpace)
    && (CiAt(line, RunEnd(line, j, IsSpace), "ответ") || CiAt(line, RunEnd(line, j, IsSpace), "відповід"))
  }

  /** `corr_pattern.match(line)` (app.py:166). The `\w*` and `\s+` runs are
      taken whole: a shorter `\w*` would leave a word character where `\s+`
      needs white space, a shorter `\s+` white space where a word starts. */
  predicate IsMarker(line: string)
  {
    CiAt(line, 0, Stem) && MarkerTail(line, RunEnd(line, |Stem|, IsWordChar))
  }

  /** `next(i for i, ln in enumerate(lines) if corr_pattern.match(ln))`,
      searching from `i`. */
  function FindMarkerFrom(lines: seq<string>, i: nat): (r: Option<nat>)
    requires i <= |lines|
    ensures r.Some? ==> (i <= r.value < |lines| && IsMarker(lines[r.value])
                         && forall k :: i <= k < r.value ==> !IsMarker(lines[k]))
    ensures r.None? ==> forall k :: i <= k < |lines| ==> !IsMarker(lines[k])
    decreases |lines| - i
  {
    if i == |lines| then None
    else if IsMarker(lines[i]) then Some(i)
    else FindMarkerFrom(lines, i + 1)
  }

  /** The index of the first line holding the correct answers, if any. */
  function FindMarker(lines: seq<string>): (r: Option<nat>)
    ensures r.Some? ==> (r.value < |lines| && IsMarker(lines[r.value])
                         && forall k :: 0 <= k < r.value ==> !IsMarker(lines[k]))
    ensures r.None? ==> forall k :: 0 <= k < |lines| ==> !IsMarker(lines[k])
  {
    FindMarkerFrom(lines, 0)
  }

  /** `re.findall(r"[A-ГA-D]", line)`: the letters of the line, in order. */
  function Letters(line: string): (r: seq<char>)
    ensures |r| <= |line|
    ensures forall c :: c in r <==> c in line && IsMarkerLetter(c)
  {
    if line == [] then []
    else
      var c := line[|line| - 1];
      Letters(line[..|line| - 1]) + (if IsMarkerLetter(c) then [c] else [])
  }

  /** Where the marker words of a marker line end: after `ответ` or
      `відповід` (the optional colon adds no letter); 0 for any other line. */
  function MarkerEnd(line: string): (e: nat)
    ensures e <= |line|
  {
    if !IsMarker(line) then 0
    else
      var w := RunEnd(line, RunEnd(line, |Stem|, IsWordChar), IsSpace);
      if CiAt(line, w, "ответ") then w + |"ответ"| else w + |"відповід"|
  }

  /** `{mapping.get(l, l.upper()) for l in letters}` for the letters of the
      line from `m` on. */
  function KeysFrom(line: string, m: nat): set<string>
    requires m <= |line|
  {
    set c | c in Letters(line[m..]) :: Key(c)
  }

  /** Which letters of the marker line mark answers: every letter of the
      class on the line, as app.py:181 reads them, or only the letters after
      the marker words. */
  datatype LetterScope = WholeLine | AfterMarkerWords

  /** Where the marking letters of `line` start. */
  function ScopeStart(scope: LetterScope, line: string): (m: nat)
    ensures m <= |line|
    ensures scope == WholeLine ==> m == 0
  {
    if scope == WholeLine then 0 else MarkerEnd(line)
  }

  /** The answers the marker line marks correct, reading its letters in
      `scope`. */
  function MarkedKeys(scope: LetterScope, line: string): set<string>
  {
    KeysFrom(line, ScopeStart(scope, line))
  }

  /** The set app.py:181-182 builds: the letters are taken from the whole
      line, the marker words included. */
  function CorrectSetAsWritten(line: string): set<string>
  {
    MarkedKeys(WholeLine, line)
  }

  /** The keys of the letters after the marker words only. */
  function CorrectSet(line: string): set<string>
  {
    MarkedKeys(AfterMarkerWords, line)
  }

  /** `re.match(r"^([A-Г])[\)\.]*\s*(.+)", line)`: the letter and the
      stripped answer text, or nothing when the line is not an answer. */
  function MatchAnswerLine(line: string): (r: Option<(char, string)>)
    ensures r.Some? <==> |line| >= 2 && IsAnswerLetter(line[0])
    ensures r.Some? ==> r.value.0 == line[0]
  {
    if |line| >= 2 && IsAnswerLetter(line[0])
    then Some((line[0], Strip(TailGroup(line, RunEnd(line, 1, IsStop)))))
    else None
  }

  // ---------------------------------------------------------------------
  // The outcome of one block

  /** What a block adds: at most one question and the errors it reports. */
  datatype Outcome = Outcome(question: Option<Question>, errors: seq<BlockError>)

  /** The answer loop of app.py:188-196 over `lines`: the answers read before
      the first line that is not an answer, and that line if there is one. */
  function ParseAnswerLines(lines: seq<string>, correct: set<string>): (r: (seq<Answer>, Option<string>))
    ensures |r.0| <= |lines|
  {
    if lines == [] then ([], None)
    else match MatchAnswerLine(lines[0])
      case None => ([], Some(lines[0]))
      case Some((key, text)) =>
        var rest := ParseAnswerLines(lines[1..], correct);
        ([Answer(text, Key(key) in correct)] + rest.0, rest.1)
  }

  /** The report for the line that stopped the answer loop, if one did. */
  function MalformedErrors(idx: nat, bad: Option<string>): (r: seq<BlockError>)
    ensures |r| == if bad.Some? then 1 else 0
  {
    if bad.Some? then [BlockError(idx, MalformedMessage(bad.value))] else []
  }

  /** `lines[1:corr_idx]`, empty when the marker is the first line. */
  function AnswerLinesBefore(lines: seq<string>, c: nat): (r: seq<string>)
    requires c < |lines|
    ensures |r| == if c == 0 then 0 else c - 1
  {
    if c == 0 then [] else lines[1..c]
  }

  /** The true/false shortcut of app.py:184: one answer line mentioning
      `true` in any case. */
  predicate IsTrueFalseLine(answerLines: seq<string>)
  {
    |answerLines| == 1 && ContainsCi(answerLines[0], "true")
  }

  function TrueFalseAnswers(isTrue: bool): (r: seq<Answer>)
    ensures |r| == 2 && r[0].text == "true" && r[1].text == "false"
    ensures r[0].correct == isTrue && r[1].correct == !isTrue
  {
    [Answer("true", isTrue), Answer("false", !isTrue)]
  }

  /** The loop body of app.py:170-201 for the block numbered `idx` whose
      lines are `lines`, the marker letters read in `scope`. */
  function LinesOutcome(scope: LetterScope, idx: nat, lines: seq<string>): Outcome
    requires |lines| >= 1
  {
    var text := QuestionText(lines[0]);
    match FindMarker(lines)
    case None => Outcome(None, [BlockError(idx, NoMarkerMessage)])
    case Some(c) =>
      var answerLines := AnswerLinesBefore(lines, c);
      var correctLine := lines[c];
      if IsTrueFalseLine(answerLines) then
        Outcome(Some(Question(text, TrueFalseAnswers(ContainsCi(correctLine, "true")))), [])
      else
        var (answers, bad) := ParseAnswerLines(answerLines, MarkedKeys(scope, correctLine));
        var malformed := MalformedErrors(idx, bad);
        if |answers| < 2 then Outcome(None, malformed + [BlockError(idx, TooFewMessage)])
        else Outcome(Some(Question(text, answers)), malformed)
  }

  function BlockOutcome(scope: LetterScope, idx: nat, block: string): Outcome
    requires !IsBlank(block)
  {
    BlockHasLine(block);
    LinesOutcome(scope, idx, BlockLines(block))
  }

  // ---------------------------------------------------------------------
  // The whole text

  /** `[blk for blk in blocks if blk.strip()]`. */
  function NonBlank(blocks: seq<string>): (r: seq<string>)
    ensures |r| <= |blocks|
    ensures forall k :: 0 <= k < |r| ==> !IsBlank(r[k])
    ensures forall b :: b in r <==> b in blocks && !IsBlank(b)
  {
    if blocks == [] then []
    else
      var b := blocks[|blocks| - 1];
      NonBlank(blocks[..|blocks| - 1]) + (if IsBlank(b) then [] else [b])
  }

  /** The blocks of a text (app.py:164-165). */
  function Blocks(text: string): (r: seq<string>)
    ensures forall k :: 0 <= k < |r| ==> !IsBlank(r[k])
  {
    NonBlank(SplitBlocks(Strip(text)))
  }

  function OptionSeq<T>(o: Option<T>): (r: seq<T>)
    ensures |r| <= 1
  {
    if o.Some? then [o.value] else []
  }

  /** The outcome of each block, the block at position `k` numbered
      `first + k + 1`. */
  function Outcomes(scope: LetterScope, blocks: seq<string>, first: nat): (r: seq<Outcome>)
    requires forall k :: 0 <= k < |blocks| ==> !IsBlank(blocks[k])
    ensures |r| == |blocks|
  {
    seq(|blocks|, k requires 0 <= k < |blocks| => BlockOutcome(scope, first + k + 1, blocks[k]))
  }

  /** The questions and the errors of a run of outcomes, in order. */
  function Collect(outcomes: seq<Outcome>): (r: (seq<Question>, seq<BlockError>))
    ensures |r.0| <= |outcomes|
  {
    if outcomes == [] then ([], [])
    else
      var n := |outcomes| - 1;
      var before := Collect(outcomes[..n]);
      (before.0 + OptionSeq(outcomes[n].question), before.1 + outcomes[n].errors)
  }

  /** The questions and errors of `blocks`, numbered from `first + 1`. */
  function ParseBlocks(scope: LetterScope, blocks: seq<string>, first: nat): (seq<Question>, seq<BlockError>)
    requires forall k :: 0 <= k < |blocks| ==> !IsBlank(blocks[k])
  {
    Collect(Outcomes(scope, blocks, first))
  }

  /** One more block adds its outcome at the end. */
  lemma ParseBlocksSnoc(scope: LetterScope, blocks: seq<string>, i: nat)
    requires i < |blocks| && forall k :: 0 <= k < |blocks| ==> !IsBlank(blocks[k])
    ensures ParseBlocks(scope, blocks[..i + 1], 0)
      == (ParseBlocks(scope, blocks[..i], 0).0 + OptionSeq(BlockOutcome(scope, i + 1, blocks[i]).question),
          ParseBlocks(scope, blocks[..i], 0).1 + BlockOutcome(scope, i + 1, blocks[i]).errors)
  {
    var os := Outcomes(scope, blocks[..i + 1], 0);
    assert os[..i] == Outcomes(scope, blocks[..i], 0);
    assert os[i] == BlockOutcome(scope, i + 1, blocks[i]);
  }

  /** What `parse_text_format(text)` returns. */
  function ParseText(text: string): (seq<Question>, seq<BlockError>)
  {
    ParseBlocks(WholeLine, Blocks(text), 0)
  }

  /** The same parse, the marker letters read after the marker words only. */
  function ParseTextCorrected(text: string): (seq<Question>, seq<BlockError>)
  {
    ParseBlocks(AfterMarkerWords, Blocks(text), 0)
  }

  // ---------------------------------------------------------------------
  // The parser as the source runs it

  /** The answer loop reads the lines in order up to the first that is not an
      answer, and stops only there: each answer carries its line's text and is
      correct exactly when its letter's key is among the marked ones. */
  lemma {:induction false} ParseAnswerLinesMeaning(lines: seq<string>, correct: set<string>)
    ensures ParseAnswerLines(lines, correct).1.None? <==> |ParseAnswerLines(lines, correct).0| == |lines|
    ensures ParseAnswerLines(lines, correct).1.Some? ==>
      var n := |ParseAnswerLines(lines, correct).0|;
      ParseAnswerLines(lines, correct).1.value == lines[n] && MatchAnswerLine(lines[n]).None?
    ensures forall i :: 0 <= i < |ParseAnswerLines(lines, correct).0| ==>
      MatchAnswerLine(lines[i]).Some?
      && ParseAnswerLines(lines, correct).0[i] == Answer(MatchAnswerLine(lines[i]).value.1, Key(lines[i][0]) in correct)
    decreases |lines|
  {
    if lines != [] && MatchAnswerLine(lines[0]).Some? {
      var tail := lines[1..];
      ParseAnswerLinesMeaning(tail, correct);
      var r := ParseAnswerLines(lines, correct);
      var rt := ParseAnswerLines(tail, correct);
      var m := MatchAnswerLine(lines[0]).value;
      var first := Answer(m.1, Key(lines[0][0]) in correct);
      assert r == ([first] + rt.0, rt.1);
      forall i | 0 <= i < |r.0|
        ensures MatchAnswerLine(lines[i]).Some?
        ensures r.0[i] == Answer(MatchAnswerLine(lines[i]).value.1, Key(lines[i][0]) in correct)
      {
        if i == 0 {
          assert r.0[0] == first;
        } else {
          assert r.0[i] == rt.0[i - 1] && lines[i] == tail[i - 1];
        }
      }
      if r.1.Some? {
        assert lines[|r.0|] == tail[|rt.0|];
      }
    }
  }

  /** Reading the answer lines from `j` on, one line at a time. */
  lemma ParseAnswerLinesAt(lines: seq<string>, correct: set<string>, j: nat)
    requires j < |lines|
    ensures MatchAnswerLine(lines[j]).None? ==> ParseAnswerLines(lines[j..], correct) == ([], Some(lines[j]))
    ensures MatchAnswerLine(lines[j]).Some? ==>
      var m := MatchAnswerLine(lines[j]).value;
      var rest := ParseAnswerLines(lines[j + 1..], correct);
      ParseAnswerLines(lines[j..], correct) == ([Answer(m.1, Key(m.0) in correct)] + rest.0, rest.1)
  {
    assert lines[j..][0] == lines[j];
    assert lines[j..][1..] == lines[j + 1..];
  }

  /** The answer loop of app.py:188-196: reads `answerLines` until the first
      line that is not an answer, which it reports on `errors`. */
  method ReadAnswers(idx: nat, answerLines: seq<string>, correct: set<string>, errors: seq<BlockError>)
    returns (answers: seq<Answer>, errors': seq<BlockError>)
    ensures answers == ParseAnswerLines(answerLines, correct).0
    ensures errors' == errors + MalformedErrors(idx, ParseAnswerLines(answerLines, correct).1)
  {
    answers := [];
    var j := 0;
    assert answerLines[0..] == answerLines;
    while j < |answerLines|
      invariant 0 <= j <= |answerLines|
      invariant ParseAnswerLines(answerLines, correct).0 == answers + ParseAnswerLines(answerLines[j..], correct).0
      invariant ParseAnswerLines(answerLines, correct).1 == ParseAnswerLines(answerLines[j..], correct).1
    {
      ParseAnswerLinesAt(answerLines, correct, j);
      var m := MatchAnswerLine(answerLines[j]);
      if m.None? {
        errors' := errors + [BlockError(idx, MalformedMessage(answerLines[j]))];
        return;
      }
      var (key, answerText) := m.value;
      AppendAssoc(answers, [Answer(answerText, Key(key) in correct)], ParseAnswerLines(answerLines[j + 1..], correct).0);
      answers := answers + [Answer(answerText, Key(key) in correct)];
      j := j + 1;
    }
    assert answerLines[j..] == [];
    errors' := errors;
  }

  /** The loop body for one block: appends its question, if any, to
      `questions` and its errors to `errors`. */
  method ParseBlock(idx: nat, block: string, questions: seq<Question>, errors: seq<BlockError>)
    returns (questions': seq<Question>, errors': seq<BlockError>)
    requires !IsBlank(block)
    ensures questions' == questions + OptionSeq(BlockOutcome(WholeLine, idx, block).question)
    ensures errors' == errors + BlockOutcome(WholeLine, idx, block).errors
  {
    BlockHasLine(block);
    var lines := BlockLines(block);
    var text := QuestionText(lines[0]);
    var found := FindMarker(lines);
    if found.None? {
      return questions, errors + [BlockError(idx, NoMarkerMessage)];
    }
    var c := found.value;
    var answerLines := AnswerLinesBefore(lines, c);
    var correctLine := lines[c];
    var answers: seq<Answer>;
    errors' := errors;
    if IsTrueFalseLine(answerLines) {
      var isTrue := ContainsCi(correctLine, "true");
      answers := [Answer("true", isTrue), Answer("false", !isTrue)];
    } else {
      var correct := CorrectSetAsWritten(correctLine);
      answers, errors' := ReadAnswers(idx, answerLines, correct, errors);
      if |answers| < 2 {
        AppendAssoc(errors, MalformedErrors(idx, ParseAnswerLines(answerLines, correct).1), [BlockError(idx, TooFewMessage)]);
        return questions, errors' + [BlockError(idx, TooFewMessage)];
      }
    }
    questions' := questions + [Question(text, answers)];
  }

  /** `parse_text_format(text)`: every block in turn, each adding its
      question or its errors. */
  method ParseTextFormat(text: string) returns (questions: seq<Question>, errors: seq<BlockError>)
    ensures (questions, errors) == ParseText(text)
  {
    var blocks := Blocks(text);
    questions, errors := [], [];
    for i := 0 to |blocks|
      invariant (questions, errors) == ParseBlocks(WholeLine, blocks[..i], 0)
    {
      ParseBlocksSnoc(WholeLine, blocks, i);
      questions, errors := ParseBlock(i + 1, blocks[i], questions, errors);
    }
    assert blocks[..|blocks|] == blocks;
  }
}
