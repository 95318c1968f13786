/** The Moodle XML serializer: `wrap_cdata` (app.py:77-79) and
    `generate_moodle_xml_string` (app.py:94-147).

    The serializer appends one line at a time to a list and joins the list
    with newlines. Each line it appends is an f-string template with holes;
    here a line is a `Line` value naming the template and holding what fills
    its holes, and `Render` gives its exact text. The number rendering of the
    penalty (`{penalty:.6f}` on a Python float) is a parameter `fmt`. */
module MoodleXml {
  import opened TextUtil
  import opened QuizModel

  const XmlDeclaration := "<?xml version=\"1.0\" encoding=\"UTF-8\"?>"
  const QuizOpen := "<quiz>"
  const QuizClose := "</quiz>"

  /** The longest question text shown unabridged in a question's name. */
  const PreviewLength := 30

  /** The line templates of the document. */
  datatype Line =
    | Declaration
    | QuizStart
    | QuizEnd
    | QuestionStart(kind: string)
    | QuestionEnd
    | NameStart
    | NameEnd
    | QuestionTextStart
    | QuestionTextEnd
    | HtmlText(html: string)
    | ShuffleAnswers
    | SingleFlag(single: bool)
    | AnswerNumbering
    | PenaltyValue(penalty: real)
    | AnswerStart(fraction: nat)
    | CdataText(body: string)
    | AnswerEnd
    | SubquestionStart
    | SubquestionText(pair: string)
    | SubquestionAnswer(pair: string)
    | SubquestionEnd

  /** `wrap_cdata`: the text inside a `<p>` element inside a CDATA section. */
  function WrapCdata(text: string): (r: string)
    ensures StartsWith(r, "<![CDATA[<p>") && EndsWith(r, "</p>]]>")
    ensures |r| == |text| + 19 && r[12..|r| - 7] == text
  {
    "<![CDATA[<p>" + text + "</p>]]>"
  }

  /** The decimal digits of `n`, as `str(n)` or an f-string writes them. */
  function Decimal(n: nat): (r: string)
    ensures |r| >= 1
    ensures forall i :: 0 <= i < |r| ==> '0' <= r[i] <= '9'
  {
    var d := [('0' as int + n % 10) as char];
    if n < 10 then d else Decimal(n / 10) + d
  }

  /** Index of the first `-` of `s`. */
  function DashIndex(s: string): (i: nat)
    requires '-' in s
    ensures i < |s| && s[i] == '-'
    ensures forall k :: 0 <= k < i ==> s[k] != '-'
  {
    DashFrom(s, 0)
  }

  function DashFrom(s: string, lo: nat): (i: nat)
    requires lo <= |s| && exists k :: lo <= k < |s| && s[k] == '-'
    ensures lo <= i < |s| && s[i] == '-'
    ensures forall k :: lo <= k < i ==> s[k] != '-'
    decreases |s| - lo
  {
    if s[lo] == '-' then lo else DashFrom(s, lo + 1)
  }

  /** `map(str.strip, pair.split('-', 1))`: the trimmed halves of a matching
      pair on either side of its first `-`. */
  function SplitPair(pair: string): (halves: (string, string))
    requires '-' in pair
    ensures '-' !in halves.0
  {
    var i := DashIndex(pair);
    StripKeepsOut(pair[..i], '-');
    (Strip(pair[..i]), Strip(pair[i + 1..]))
  }

  /** A pair written as `left-right`, with no `-` in `left`, splits into the
      trimmed `left` and the trimmed `right`, whatever `right` holds. */
  lemma SplitPairOf(left: string, right: string)
    requires '-' !in left
    ensures '-' in left + "-" + right
    ensures SplitPair(left + "-" + right) == (Strip(left), Strip(right))
  {
    var pair := left + "-" + right;
    assert pair[|left|] == '-';
    var i := DashIndex(pair);
    assert i == |left|;
    assert pair[..i] == left;
    assert pair[i + 1..] == right;
  }

  /** A subquestion line can be rendered only when its pair holds a `-`. */
  predicate Renderable(line: Line)
  {
    (line.SubquestionText? || line.SubquestionAnswer?) ==> '-' in line.pair
  }

  predicate AllRenderable(lines: seq<Line>)
  {
    forall line :: line in lines ==> Renderable(line)
  }

  /** The exact text of a line; `fmt` renders the penalty. A subquestion's
      halves are cut from its pair here, as the f-strings of app.py:140-142 do. */
  function Render(line: Line, fmt: real -> string): string
    requires Renderable(line)
  {
    match line
    case Declaration => XmlDeclaration
    case QuizStart => QuizOpen
    case QuizEnd => QuizClose
    case QuestionStart(kind) => "  <question type=\"" + kind + "\">"
    case QuestionEnd => "  </question>"
    case NameStart => "    <name>"
    case NameEnd => "    </name>"
    case QuestionTextStart => "    <questiontext format=\"html\">"
    case QuestionTextEnd => "    </questiontext>"
    case HtmlText(html) => "      <text>" + WrapCdata(html) + "</text>"
    case ShuffleAnswers => "    <shuffleanswers>true</shuffleanswers>"
    case SingleFlag(single) => "    <single>" + (if single then "true" else "false") + "</single>"
    case AnswerNumbering => "    <answernumbering>abc</answernumbering>"
    case PenaltyValue(p) => "    <penalty>" + fmt(p) + "</penalty>"
    case AnswerStart(fraction) => "    <answer fraction=\"" + Decimal(fraction) + "\" format=\"html\">"
    case CdataText(body) => "      <text><![CDATA[" + body + "]]></text>"
    case AnswerEnd => "    </answer>"
    case SubquestionStart => "    <subquestion format=\"html\">"
    case SubquestionText(pair) => "      <text><![CDATA[" + SplitPair(pair).0 + "]]></text>"
    case SubquestionAnswer(pair) => "      <answer><![CDATA[" + SplitPair(pair).1 + "]]></answer>"
    case SubquestionEnd => "    </subquestion>"
  }

  /** Every line renders to its own text, one line after another. */
  function RenderAll(lines: seq<Line>, fmt: real -> string): (r: seq<string>)
    requires AllRenderable(lines)
    ensures |r| == |lines|
    ensures forall k :: 0 <= k < |lines| ==> r[k] == Render(lines[k], fmt)
  {
    seq(|lines|, k requires 0 <= k < |lines| => Render(lines[k], fmt))
  }

  /** The question's name: its first 30 characters, followed by `...` exactly
      when the text is longer than that. */
  function Preview(text: string): (r: string)
    ensures |text| <= PreviewLength ==> r == text
    ensures |text| > PreviewLength ==>
      |r| == PreviewLength + 3 && StartsWith(r, text[..PreviewLength]) && r[PreviewLength..] == "..."
  {
    if |text| > PreviewLength then text[..PreviewLength] + "..." else text
  }

  /** The `type` attribute of a question node; `unknown` has none. */
  function KindName(t: QuestionType): string
    requires t != Unknown
  {
    match t
    case Single => "multichoice"
    case Multiple => "multichoice"
    case TrueFalse => "truefalse"
    case Matching => "matching"
  }

  /** The `<name>` and `<questiontext>` elements shared by every node type. */
  function NameLines(text: string): seq<Line>
  {
    [NameStart, HtmlText(Preview(text)), NameEnd, QuestionTextStart, HtmlText(text), QuestionTextEnd]
  }

  /** Moodle's fraction of the credit: 100 for a correct answer, else 0. */
  function Fraction(correct: bool): (f: nat)
    ensures f == 100 <==> correct
    ensures f == 0 <==> !correct
  {
    if correct then 100 else 0
  }

  /** The three lines of one `<answer>` element. */
  function AnswerLines(correct: bool, body: string): seq<Line>
  {
    [AnswerStart(Fraction(correct)), CdataText(body), AnswerEnd]
  }

  /** The `<answer>` elements of a multichoice node, one per answer, in order. */
  function ChoiceAnswers(answers: seq<Answer>): (r: seq<Line>)
    ensures |r| == 3 * |answers|
  {
    if answers == [] then []
    else
      var a := answers[|answers| - 1];
      ChoiceAnswers(answers[..|answers| - 1]) + AnswerLines(a.correct, a.text)
  }

  /** The penalty `1/k` for `k` correct answers, and 0 when no answer is correct. */
  function Penalty(answers: seq<Answer>): (p: real)
    ensures CountCorrect(answers) == 0 ==> p == 0.0
    ensures CountCorrect(answers) > 0 ==> p * (CountCorrect(answers) as real) == 1.0
  {
    var k := CountCorrect(answers);
    if k == 0 then 0.0 else 1.0 / (k as real)
  }

  /** The part of a multichoice node after its names: flags, penalty, answers. */
  function MultichoiceBody(answers: seq<Answer>, single: bool): seq<Line>
  {
    [ShuffleAnswers, SingleFlag(single), AnswerNumbering, PenaltyValue(Penalty(answers))]
    + ChoiceAnswers(answers)
  }

  /** The two fixed answers of a true/false node; the first answer's flag
      decides which of them earns the credit. */
  function TrueFalseBody(answers: seq<Answer>): seq<Line>
    requires |answers| >= 1
  {
    var correctTrue := answers[0].correct;
    AnswerLines(correctTrue, "true") + AnswerLines(!correctTrue, "false")
  }

  /** The four lines of one `<subquestion>` element. */
  function SubquestionLines(pair: string): seq<Line>
  {
    [SubquestionStart, SubquestionText(pair), SubquestionAnswer(pair), SubquestionEnd]
  }

  /** The `<subquestion>` elements of a matching node, one per answer, in order. */
  function Subquestions(answers: seq<Answer>): (r: seq<Line>)
    ensures |r| == 4 * |answers|
  {
    if answers == [] then []
    else
      var a := answers[|answers| - 1];
      Subquestions(answers[..|answers| - 1]) + SubquestionLines(a.text)
  }

  /** What follows the names in a node of type `t`. */
  function NodeBody(answers: seq<Answer>, t: QuestionType): seq<Line>
    requires t == DetectQuestionType(answers) && t != Unknown
  {
    match t
    case Single => MultichoiceBody(answers, true)
    case Multiple => MultichoiceBody(answers, false)
    case TrueFalse => TrueFalseBody(answers)
    case Matching => [ShuffleAnswers] + Subquestions(answers)
  }

  /** The lines the serializer emits for one question: none for `unknown`. */
  function NodeLines(q: Question): seq<Line>
  {
    var t := DetectQuestionType(q.answers);
    if t == Unknown then []
    else [QuestionStart(KindName(t))] + NameLines(q.text) + NodeBody(q.answers, t) + [QuestionEnd]
  }

  /** The nodes of all questions, in input order. */
  function NodesLines(qs: seq<Question>): seq<Line>
  {
    if qs == [] then []
    else NodesLines(qs[..|qs| - 1]) + NodeLines(qs[|qs| - 1])
  }

  /** The whole document as a list of lines. */
  function XmlLines(qs: seq<Question>): seq<Line>
  {
    [Declaration, QuizStart] + NodesLines(qs) + [QuizEnd]
  }

  /** Every pair of a matching node holds a `-`, so every line of the
      document can be rendered: the unpacking at app.py:139 never fails. */
  lemma XmlLinesRenderable(qs: seq<Question>)
    ensures AllRenderable(XmlLines(qs))
  {
    NodesLinesRenderable(qs);
  }

  lemma {:induction false} NodesLinesRenderable(qs: seq<Question>)
    ensures AllRenderable(NodesLines(qs))
  {
    if qs != [] {
      NodesLinesRenderable(qs[..|qs| - 1]);
      NodeLinesRenderable(qs[|qs| - 1]);
    }
  }

  lemma NodeLinesRenderable(q: Question)
    ensures AllRenderable(NodeLines(q))
  {
    var t := DetectQuestionType(q.answers);
    if t == Matching {
      SubquestionsRenderable(q.answers);
    } else if t == Single || t == Multiple {
      ChoiceAnswersRenderable(q.answers);
    }
  }

  lemma {:induction false} SubquestionsRenderable(answers: seq<Answer>)
    requires AllDashed(answers)
    ensures AllRenderable(Subquestions(answers))
  {
    if answers != [] {
      SubquestionsRenderable(answers[..|answers| - 1]);
    }
  }

  lemma {:induction false} ChoiceAnswersRenderable(answers: seq<Answer>)
    ensures AllRenderable(ChoiceAnswers(answers))
  {
    if answers != [] {
      ChoiceAnswersRenderable(answers[..|answers| - 1]);
    }
  }

  /** The text `generate_moodle_xml_string` returns for `qs`. */
  function Document(qs: seq<Question>, fmt: real -> string): string
  {
    XmlLinesRenderable(qs);
    JoinLines(RenderAll(XmlLines(qs), fmt))
  }

  /** The answer loop of a multichoice node (app.py:124-128). */
  method AppendChoiceAnswers(lines: seq<Line>, answers: seq<Answer>) returns (out: seq<Line>)
    ensures out == lines + ChoiceAnswers(answers)
  {
    out := lines;
    for j := 0 to |answers|
      invariant out == lines + ChoiceAnswers(answers[..j])
    {
      assert answers[..j + 1][..j] == answers[..j];
      var text, corr := answers[j].text, answers[j].correct;
      var frac := if corr then 100 else 0;
      out := out + [AnswerStart(frac)];
      out := out + [CdataText(text)];
      out := out + [AnswerEnd];
    }
    assert answers[..|answers|] == answers;
  }

  /** The two fixed answers of a true/false node (app.py:130-135). */
  method AppendTrueFalseAnswers(lines: seq<Line>, answers: seq<Answer>) returns (out: seq<Line>)
    requires |answers| >= 1
    ensures out == lines + TrueFalseBody(answers)
  {
    out := lines;
    var correctTrue := answers[0].correct;
    var values := ["true", "false"];
    for k := 0 to 2
      invariant out == lines + (if k == 0 then [] else AnswerLines(correctTrue, "true"))
                             + (if k < 2 then [] else AnswerLines(!correctTrue, "false"))
    {
      var val := values[k];
      var frac := if (val == "true" && correctTrue) || (val == "false" && !correctTrue) then 100 else 0;
      out := out + [AnswerStart(frac)];
      out := out + [CdataText(val)];
      out := out + [AnswerEnd];
    }
  }

  /** The subquestion loop of a matching node (app.py:138-143). Each line
      carries the whole pair; `Render` cuts it into its halves. */
  method AppendSubquestions(lines: seq<Line>, answers: seq<Answer>) returns (out: seq<Line>)
    ensures out == lines + Subquestions(answers)
  {
    out := lines;
    for j := 0 to |answers|
      invariant out == lines + Subquestions(answers[..j])
    {
      assert answers[..j + 1][..j] == answers[..j];
      var pair := answers[j].text;
      out := out + [SubquestionStart];
      out := out + [SubquestionText(pair)];
      out := out + [SubquestionAnswer(pair)];
      out := out + [SubquestionEnd];
    }
    assert answers[..|answers|] == answers;
  }

  /** The type-specific part of a node (app.py:113-143). */
  method AppendBody(lines: seq<Line>, answers: seq<Answer>, qType: QuestionType) returns (out: seq<Line>)
    requires qType == DetectQuestionType(answers) && qType != Unknown
    ensures out == lines + NodeBody(answers, qType)
  {
    out := lines;
    if qType == Single || qType == Multiple {
      var totalCorrect := CountCorrect(answers);
      var penalty := if totalCorrect != 0 then 1.0 / (totalCorrect as real) else 0.0;
      out := out + [ShuffleAnswers];
      out := out + [SingleFlag(qType == Single)];
      out := out + [AnswerNumbering];
      out := out + [PenaltyValue(penalty)];
      out := AppendChoiceAnswers(out, answers);
    } else if qType == TrueFalse {
      out := AppendTrueFalseAnswers(out, answers);
    } else {
      out := out + [ShuffleAnswers];
      out := AppendSubquestions(out, answers);
    }
  }

  /** The opening tag, name and question text of a node (app.py:101-111). */
  method AppendHead(lines: seq<Line>, kind: string, text: string) returns (out: seq<Line>)
    ensures out == lines + [QuestionStart(kind)] + NameLines(text)
  {
    out := lines + [QuestionStart(kind)];
    var preview := Preview(text);
    out := out + [NameStart, HtmlText(preview), NameEnd];
    out := out + [QuestionTextStart, HtmlText(text), QuestionTextEnd];
  }

  /** One pass of the serializer's loop (app.py:98-145): the node of one
      question appended to the lines, or nothing for an `unknown` question. */
  method AppendQuestion(lines: seq<Line>, q: Question) returns (out: seq<Line>)
    ensures out == lines + NodeLines(q)
  {
    var qType := DetectQuestionType(q.answers);
    var kind;
    if qType == Single || qType == Multiple {
      kind := "multichoice";
    } else if qType == TrueFalse {
      kind := "truefalse";
    } else if qType == Matching {
      kind := "matching";
    } else {
      return lines;
    }
    out := AppendHead(lines, kind, q.text);
    out := AppendBody(out, q.answers, qType);
    out := out + [QuestionEnd];
  }

  /** The document opens with the declaration and `<quiz>` on lines of their
      own and closes with `</quiz>` on a line of its own. */
  lemma DocumentFrame(qs: seq<Question>, fmt: real -> string)
    ensures StartsWith(Document(qs, fmt), XmlDeclaration + "\n" + QuizOpen + "\n")
    ensures EndsWith(Document(qs, fmt), "\n" + QuizClose)
  {
    var lines := XmlLines(qs);
    XmlLinesRenderable(qs);
    var text := RenderAll(lines, fmt);
    assert lines[0] == Declaration && lines[1] == QuizStart && lines[|lines| - 1] == QuizEnd;
    assert text[0] == XmlDeclaration && text[1] == QuizOpen && text[|text| - 1] == QuizClose;
    JoinLinesStart(text);
    JoinLinesEnd(text);
  }

  /** `generate_moodle_xml_string`: the declaration and `<quiz>`, the node of
      each question in input order, `</quiz>`, joined with newlines. */
  lemma NodesLinesSnoc(qs: seq<Question>, i: nat)
    requires i < |qs|
    ensures NodesLines(qs[..i + 1]) == NodesLines(qs[..i]) + NodeLines(qs[i])
  {
    assert qs[..i + 1][..i] == qs[..i];
  }


  method GenerateMoodleXmlString(questions: seq<Question>, fmt: real -> string)
    returns (xml: string)
    ensures xml == Document(questions, fmt)
  {
    var lines := [Declaration, QuizStart];
    for i := 0 to |questions|
      invariant lines == [Declaration, QuizStart] + NodesLines(questions[..i])
    {
      NodesLinesSnoc(questions, i);
      AppendAssoc([Declaration, QuizStart], NodesLines(questions[..i]), NodeLines(questions[i]));
      lines := AppendQuestion(lines, questions[i]);
    }
    assert questions[..|questions|] == questions;
    lines := lines + [QuizEnd];
    XmlLinesRenderable(questions);
    xml := JoinLines(RenderAll(lines, fmt));
  }
}
