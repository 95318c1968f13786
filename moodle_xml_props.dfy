/** What the document written by `generate_moodle_xml_string`
    (app.py:94-147) holds: which questions get a node, in which order and
    with which type, and what each kind of node contains. */
module MoodleXmlProps {
  import opened TextUtil
  import opened QuizModel
  import opened MoodleXml

  /** The questions that get a node: those whose type is not `unknown`,
      in input order. */
  function Emitted(qs: seq<Question>): (r: seq<Question>)
    ensures |r| <= |qs|
    ensures forall q :: q in r ==> q in qs && DetectQuestionType(q.answers) != Unknown
    ensures forall q :: q in qs && DetectQuestionType(q.answers) != Unknown ==> q in r
  {
    if qs == [] then []
    else
      var q := qs[|qs| - 1];
      Emitted(qs[..|qs| - 1]) + (if DetectQuestionType(q.answers) == Unknown then [] else [q])
  }

  /** The `type` attributes of the question nodes among `lines`, in order. */
  function Starts(lines: seq<Line>): seq<string>
  {
    if lines == [] then []
    else
      var l := lines[|lines| - 1];
      Starts(lines[..|lines| - 1]) + (if l.QuestionStart? then [l.kind] else [])
  }

  /** The type names of questions none of which is `unknown`. */
  function KindNames(qs: seq<Question>): (r: seq<string>)
    requires forall q :: q in qs ==> DetectQuestionType(q.answers) != Unknown
    ensures |r| == |qs|
    ensures forall i :: 0 <= i < |qs| ==> r[i] == KindName(DetectQuestionType(qs[i].answers))
  {
    seq(|qs|, i requires 0 <= i < |qs| => KindName(DetectQuestionType(qs[i].answers)))
  }

  lemma {:induction false} NodesLinesAppend(a: seq<Question>, b: seq<Question>)
    ensures NodesLines(a + b) == NodesLines(a) + NodesLines(b)
    decreases |b|
  {
    if b == [] {
      assert a + b == a;
    } else {
      var init := b[..|b| - 1];
      assert (a + b)[..|a + b| - 1] == a + init;
      NodesLinesAppend(a, init);
      AppendAssoc(NodesLines(a), NodesLines(init), NodeLines(b[|b| - 1]));
    }
  }

  /** A question whose type is `unknown` leaves no trace: the document of a
      list is the document of its emitted questions alone (the `continue` at
      app.py:106-107). */
  lemma {:induction false} UnknownSkipped(qs: seq<Question>)
    ensures NodesLines(Emitted(qs)) == NodesLines(qs)
    ensures XmlLines(Emitted(qs)) == XmlLines(qs)
  {
    if qs != [] {
      var init := qs[..|qs| - 1];
      var q := qs[|qs| - 1];
      UnknownSkipped(init);
      var tail := if DetectQuestionType(q.answers) == Unknown then [] else [q];
      NodesLinesAppend(Emitted(init), tail);
      if tail == [] {
        assert Emitted(init) + tail == Emitted(init);
      } else {
        assert NodesLines(tail) == NodesLines([]) + NodeLines(q);
      }
    }
  }

  lemma {:induction false} StartsAppend(a: seq<Line>, b: seq<Line>)
    ensures Starts(a + b) == Starts(a) + Starts(b)
    decreases |b|
  {
    if b == [] {
      assert a + b == a;
    } else {
      var init := b[..|b| - 1];
      assert (a + b)[..|a + b| - 1] == a + init;
      StartsAppend(a, init);
    }
  }

  lemma {:induction false} NoStarts(lines: seq<Line>)
    requires forall l :: l in lines ==> !l.QuestionStart?
    ensures Starts(lines) == []
  {
    if lines != [] {
      NoStarts(lines[..|lines| - 1]);
    }
  }

  lemma {:induction false} ChoiceAnswersNoStart(answers: seq<Answer>)
    ensures forall l :: l in ChoiceAnswers(answers) ==> !l.QuestionStart?
  {
    if answers != [] {
      ChoiceAnswersNoStart(answers[..|answers| - 1]);
    }
  }

  lemma {:induction false} SubquestionsNoStart(answers: seq<Answer>)
    ensures forall l :: l in Subquestions(answers) ==> !l.QuestionStart?
  {
    if answers != [] {
      SubquestionsNoStart(answers[..|answers| - 1]);
    }
  }

  /** A node opens exactly one question element, with the node's type. */
  lemma NodeStarts(q: Question)
    ensures DetectQuestionType(q.answers) == Unknown ==> Starts(NodeLines(q)) == []
    ensures DetectQuestionType(q.answers) != Unknown ==>
      Starts(NodeLines(q)) == [KindName(DetectQuestionType(q.answers))]
  {
    var t := DetectQuestionType(q.answers);
    if t != Unknown {
      var body := NodeBody(q.answers, t);
      ChoiceAnswersNoStart(q.answers);
      SubquestionsNoStart(q.answers);
      var inner := NameLines(q.text) + body + [QuestionEnd];
      NoStarts(inner);
      AppendAssoc([QuestionStart(KindName(t))], NameLines(q.text) + body, [QuestionEnd]);
      AppendAssoc([QuestionStart(KindName(t))], NameLines(q.text), body);
      StartsAppend([QuestionStart(KindName(t))], inner);
      assert Starts([QuestionStart(KindName(t))]) == [KindName(t)];
    }
  }

  /** The document opens one question element per emitted question, in input
      order, each with the type the classifier gives that question. */
  lemma {:induction false} QuestionElementsInOrder(qs: seq<Question>)
    ensures Starts(NodesLines(qs)) == KindNames(Emitted(qs))
  {
    if qs != [] {
      var init := qs[..|qs| - 1];
      var q := qs[|qs| - 1];
      QuestionElementsInOrder(init);
      StartsAppend(NodesLines(init), NodeLines(q));
      NodeStarts(q);
    }
  }

  /** The same, for the whole document: its declaration and `<quiz>` lines
      open no question. */
  lemma DocumentQuestionElements(qs: seq<Question>)
    ensures Starts(XmlLines(qs)) == KindNames(Emitted(qs))
    ensures |Starts(XmlLines(qs))| == |Emitted(qs)|
  {
    var head, nodes, tail := [Declaration, QuizStart], NodesLines(qs), [QuizEnd];
    assert Starts(head + nodes) == Starts(nodes) by {
      StartsAppend(head, nodes);
      NoStarts(head);
    }
    assert Starts(head + nodes + tail) == Starts(head + nodes) by {
      StartsAppend(head + nodes, tail);
      NoStarts(tail);
    }
    QuestionElementsInOrder(qs);
  }

  /** Answer `i` of a multichoice node is the `i`-th `<answer>` element. */
  lemma {:induction false} ChoiceAnswersAt(answers: seq<Answer>, i: nat)
    requires i < |answers|
    ensures ChoiceAnswers(answers)[3 * i..3 * i + 3] == AnswerLines(answers[i].correct, answers[i].text)
    decreases |answers|
  {
    var n := |answers| - 1;
    var init := answers[..n];
    if i < n {
      ChoiceAnswersAt(init, i);
      assert ChoiceAnswers(answers)[3 * i..3 * i + 3] == ChoiceAnswers(init)[3 * i..3 * i + 3];
    }
  }

  /** Answer `i` of a matching node is the `i`-th `<subquestion>` element. */
  lemma {:induction false} SubquestionsAt(answers: seq<Answer>, i: nat)
    requires i < |answers|
    ensures Subquestions(answers)[4 * i..4 * i + 4] == SubquestionLines(answers[i].text)
    decreases |answers|
  {
    var n := |answers| - 1;
    var init := answers[..n];
    if i < n {
      SubquestionsAt(init, i);
      assert Subquestions(answers)[4 * i..4 * i + 4] == Subquestions(init)[4 * i..4 * i + 4];
    }
  }

  /** Every node opens with its type, carries the abridged text as its name
      and the whole text as its question text, and closes the element. */
  lemma NodeHeader(q: Question)
    requires DetectQuestionType(q.answers) != Unknown
    ensures |NodeLines(q)| >= 8
    ensures NodeLines(q)[0] == QuestionStart(KindName(DetectQuestionType(q.answers)))
    ensures NodeLines(q)[2] == HtmlText(Preview(q.text))
    ensures NodeLines(q)[5] == HtmlText(q.text)
    ensures NodeLines(q)[|NodeLines(q)| - 1] == QuestionEnd
  {
  }

  /** The layout of a `multichoice` node, line by line. */
  lemma MultichoiceLayout(q: Question)
    requires DetectQuestionType(q.answers) in {Single, Multiple}
    ensures NodeLines(q) ==
      [QuestionStart("multichoice")] + NameLines(q.text)
      + [ShuffleAnswers, SingleFlag(CountCorrect(q.answers) == 1), AnswerNumbering, PenaltyValue(Penalty(q.answers))]
      + ChoiceAnswers(q.answers) + [QuestionEnd]
  {
    ChoiceHasCorrectAnswer(q.answers);
    var t := DetectQuestionType(q.answers);
    var pre := [QuestionStart("multichoice")] + NameLines(q.text);
    var flags := [ShuffleAnswers, SingleFlag(t == Single), AnswerNumbering, PenaltyValue(Penalty(q.answers))];
    AppendAssoc(pre, flags, ChoiceAnswers(q.answers));
  }

  /** A single- or multiple-answer question becomes a `multichoice` node
      with three lines per answer; `single` is true exactly for one correct
      answer and the penalty is `Penalty`, the reciprocal of the number of
      correct answers. */
  lemma MultichoiceNode(q: Question)
    requires DetectQuestionType(q.answers) in {Single, Multiple}
    ensures |NodeLines(q)| == 12 + 3 * |q.answers|
    ensures NodeLines(q)[0] == QuestionStart("multichoice")
    ensures NodeLines(q)[8] == SingleFlag(CountCorrect(q.answers) == 1)
    ensures NodeLines(q)[10] == PenaltyValue(Penalty(q.answers))
  {
    MultichoiceLayout(q);
  }

  /** Answer `i` of a multichoice question is the `i`-th `<answer>` element,
      with its text, worth 100 exactly when it is correct. */
  lemma MultichoiceAnswer(q: Question, i: nat)
    requires DetectQuestionType(q.answers) in {Single, Multiple}
    requires i < |q.answers|
    ensures |NodeLines(q)| == 12 + 3 * |q.answers|
    ensures NodeLines(q)[11 + 3 * i] == AnswerStart(if q.answers[i].correct then 100 else 0)
    ensures NodeLines(q)[12 + 3 * i] == CdataText(q.answers[i].text)
    ensures NodeLines(q)[13 + 3 * i] == AnswerEnd
  {
    var pre := [QuestionStart("multichoice")] + NameLines(q.text)
      + [ShuffleAnswers, SingleFlag(CountCorrect(q.answers) == 1), AnswerNumbering, PenaltyValue(Penalty(q.answers))];
    var answers := ChoiceAnswers(q.answers);
    assert |NodeLines(q)| == 12 + 3 * |q.answers|
      && NodeLines(q)[11 + 3 * i] == answers[3 * i]
      && NodeLines(q)[12 + 3 * i] == answers[3 * i + 1]
      && NodeLines(q)[13 + 3 * i] == answers[3 * i + 2]
    by {
      MultichoiceLayout(q);
      IndexInMiddle(pre, answers, [QuestionEnd], 3 * i);
      IndexInMiddle(pre, answers, [QuestionEnd], 3 * i + 1);
      IndexInMiddle(pre, answers, [QuestionEnd], 3 * i + 2);
    }
    ChoiceAnswersAt(q.answers, i);
    var own := answers[3 * i..3 * i + 3];
    assert answers[3 * i] == own[0] && answers[3 * i + 1] == own[1] && answers[3 * i + 2] == own[2];
  }

  /** A true/false node always offers `true` then `false`, and exactly one of
      them is worth 100: `true` when the first answer is correct. */
  lemma TrueFalseNode(q: Question)
    requires DetectQuestionType(q.answers) == TrueFalse
    ensures |NodeLines(q)| == 14
    ensures NodeLines(q)[0] == QuestionStart("truefalse")
    ensures NodeLines(q)[8] == CdataText("true") && NodeLines(q)[11] == CdataText("false")
    ensures NodeLines(q)[7].AnswerStart? && NodeLines(q)[10].AnswerStart?
    ensures NodeLines(q)[7].fraction + NodeLines(q)[10].fraction == 100
    ensures NodeLines(q)[7].fraction == 100 <==> q.answers[0].correct
  {
  }

  /** Only the text and the first answer's flag of a true/false question
      matter: the answers' texts and the second flag are ignored. */
  lemma TrueFalseIgnoresRest(a: Question, b: Question)
    requires DetectQuestionType(a.answers) == TrueFalse
    requires DetectQuestionType(b.answers) == TrueFalse
    requires a.text == b.text && a.answers[0].correct == b.answers[0].correct
    ensures NodeLines(a) == NodeLines(b)
  {
  }

  /** A matching question becomes a `matching` node whose answer `i` is the
      `i`-th `<subquestion>` element, built from the whole pair. */
  lemma MatchingNode(q: Question, i: nat)
    requires DetectQuestionType(q.answers) == Matching
    requires i < |q.answers|
    ensures |NodeLines(q)| == 9 + 4 * |q.answers|
    ensures NodeLines(q)[0] == QuestionStart("matching")
    ensures NodeLines(q)[7] == ShuffleAnswers
    ensures NodeLines(q)[8 + 4 * i] == SubquestionStart
    ensures NodeLines(q)[9 + 4 * i] == SubquestionText(q.answers[i].text)
    ensures NodeLines(q)[10 + 4 * i] == SubquestionAnswer(q.answers[i].text)
  {
    SubquestionsAt(q.answers, i);
    var head := [QuestionStart("matching")] + NameLines(q.text) + [ShuffleAnswers];
    AppendAssoc([QuestionStart("matching")] + NameLines(q.text), [ShuffleAnswers], Subquestions(q.answers));
    assert NodeLines(q) == head + Subquestions(q.answers) + [QuestionEnd];
    assert NodeLines(q)[9 + 4 * i] == Subquestions(q.answers)[4 * i + 1];
    assert NodeLines(q)[10 + 4 * i] == Subquestions(q.answers)[4 * i + 2];
  }

  /** A pair `left-right` (no `-` in `left`) renders as the trimmed `left`
      in the subquestion's text ... */
  lemma SubquestionTextRendering(left: string, right: string, fmt: real -> string)
    requires '-' !in left
    ensures Renderable(SubquestionText(left + "-" + right))
    ensures Render(SubquestionText(left + "-" + right), fmt) ==
      "      <text><![CDATA[" + Strip(left) + "]]></text>"
  {
    SplitPairOf(left, right);
  }

  /** ... and the trimmed `right` as its answer; a further `-` stays in the
      answer. */
  lemma SubquestionAnswerRendering(left: string, right: string, fmt: real -> string)
    requires '-' !in left
    ensures Renderable(SubquestionAnswer(left + "-" + right))
    ensures Render(SubquestionAnswer(left + "-" + right), fmt) ==
      "      <answer><![CDATA[" + Strip(right) + "]]></answer>"
  {
    SplitPairOf(left, right);
  }
}
