/** The question value shared by every parser and by the serializer, and the
    classifier `detect_question_type` (app.py:81-92) that infers a question's
    Moodle type from its answers. */
module QuizModel {

  /** One answer: its display text and whether it is correct. For a matching
      question the text is a `"left - right"` pair. */
  datatype Answer = Answer(text: string, correct: bool)

  /** A question: its prompt and its ordered answers. */
  datatype Question = Question(text: string, answers: seq<Answer>)

  /** The five outcomes of the classifier. */
  datatype QuestionType = Matching | TrueFalse | Single | Multiple | Unknown

  /** A parser's error: the 1-based index of the offending block and the message. */
  datatype BlockError = BlockError(block: nat, message: string)

  /** True when every text contains a `-` (vacuously so for no answers). */
  predicate AllDashed(answers: seq<Answer>)
  {
    forall i :: 0 <= i < |answers| ==> '-' in answers[i].text
  }

  predicate NoneCorrect(answers: seq<Answer>)
  {
    forall i :: 0 <= i < |answers| ==> !answers[i].correct
  }

  predicate AllCorrect(answers: seq<Answer>)
  {
    forall i :: 0 <= i < |answers| ==> answers[i].correct
  }

  /** Exactly one answer, at index `i`, is correct. */
  predicate OnlyCorrectAt(answers: seq<Answer>, i: nat)
  {
    && i < |answers|
    && answers[i].correct
    && forall j :: 0 <= j < |answers| && j != i ==> !answers[j].correct
  }

  /** The number of correct answers (`sum(1 for _, c in answers if c)`). */
  function CountCorrect(answers: seq<Answer>): (k: nat)
    ensures k <= |answers|
    ensures k == 0 <==> NoneCorrect(answers)
    ensures k == |answers| <==> AllCorrect(answers)
  {
    if answers == [] then 0
    else
      var init := answers[..|answers| - 1];
      assert forall i :: 0 <= i < |init| ==> init[i] == answers[i];
      CountCorrect(init) + (if answers[|answers| - 1].correct then 1 else 0)
  }

  lemma {:induction false} CountCorrectAppend(a: seq<Answer>, b: seq<Answer>)
    ensures CountCorrect(a + b) == CountCorrect(a) + CountCorrect(b)
    decreases |b|
  {
    if b != [] {
      assert (a + b)[..|a + b| - 1] == a + b[..|b| - 1];
      assert (a + b)[|a + b| - 1] == b[|b| - 1];
      CountCorrectAppend(a, b[..|b| - 1]);
    } else {
      assert a + b == a;
    }
  }

  /** Exactly one correct answer means one index holds the only correct answer. */
  lemma {:induction false} CountCorrectIsOne(answers: seq<Answer>)
    ensures CountCorrect(answers) == 1 <==> exists i :: OnlyCorrectAt(answers, i)
    decreases |answers|
  {
    if answers != [] {
      var n := |answers| - 1;
      var init := answers[..n];
      CountCorrectIsOne(init);
      if CountCorrect(answers) == 1 {
        if answers[n].correct {
          assert NoneCorrect(init);
          assert OnlyCorrectAt(answers, n);
        } else {
          var i :| OnlyCorrectAt(init, i);
          assert OnlyCorrectAt(answers, i);
        }
      } else {
        if i :| OnlyCorrectAt(answers, i) {
          if i != n {
            assert OnlyCorrectAt(init, i);
          }
        }
      }
    }
  }

  /** `detect_question_type`: the checks run in the fixed order matching,
      true/false, single, multiple; anything else is unknown. */
  function DetectQuestionType(answers: seq<Answer>): (t: QuestionType)
  {
    if AllDashed(answers) then Matching
    else
      var correct := CountCorrect(answers);
      if |answers| == 2 && correct <= 1 then TrueFalse
      else if correct == 1 then Single
      else if correct > 1 then Multiple
      else Unknown
  }

  /** The classifier's precedence, each type characterised in both directions
      by the answer list alone. */
  lemma ClassifierOrder(answers: seq<Answer>)
    ensures DetectQuestionType(answers) == Matching <==> AllDashed(answers)
    ensures DetectQuestionType(answers) == TrueFalse <==>
      !AllDashed(answers) && |answers| == 2 && !AllCorrect(answers)
    ensures DetectQuestionType(answers) == Single <==>
      !AllDashed(answers) && |answers| != 2 && exists i :: OnlyCorrectAt(answers, i)
    ensures DetectQuestionType(answers) == Multiple <==>
      !AllDashed(answers) && CountCorrect(answers) > 1
    ensures DetectQuestionType(answers) == Unknown <==>
      !AllDashed(answers) && |answers| != 2 && NoneCorrect(answers)
  {
    CountCorrectIsOne(answers);
  }

  /** A matching-shaped list wins over every other shape: a true/false-shaped
      pair whose texts both contain `-` is still matching. */
  lemma MatchingPrecedence(a: string, b: string, ca: bool, cb: bool)
    requires '-' in a && '-' in b
    ensures DetectQuestionType([Answer(a, ca), Answer(b, cb)]) == Matching
  {
  }

  /** An empty answer list is (vacuously) matching. */
  lemma EmptyIsMatching()
    ensures DetectQuestionType([]) == Matching
  {
  }

  /** The classes that reach a multichoice node always have a correct answer. */
  lemma ChoiceHasCorrectAnswer(answers: seq<Answer>)
    requires DetectQuestionType(answers) in {Single, Multiple}
    ensures CountCorrect(answers) >= 1
    ensures DetectQuestionType(answers) == Single <==> CountCorrect(answers) == 1
  {
  }

  /** True/false means exactly two answers. */
  lemma TrueFalseHasTwoAnswers(answers: seq<Answer>)
    requires DetectQuestionType(answers) == TrueFalse
    ensures |answers| == 2
    ensures CountCorrect(answers) <= 1
  {
  }
}
