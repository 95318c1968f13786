/** What the GPT mode does with the model's reply before it reaches the
    serializer or the text parser (app.py:291-302): a reply that already is
    Moodle XML is given a declaration, its questions are counted, and an
    over-long one is cut down to its first ten `<question>` elements. The
    request to the model itself is not part of this module: the reply comes
    in as a parameter. */
module GptReply {
  import opened TextUtil

  const XmlMark := "<?xml"
  const Declaration := XmlMark + " version=\"1.0\" encoding=\"UTF-8\"?>\n"
  const QuestionTag := "<question"
  const QuestionClose := "</question>"

  /** The number of questions the GPT mode asks for. */
  const Wanted := 10

  /** `pat` occurs in `s` at index `i`. */
  predicate At(s: string, pat: string, i: nat)
  {
    i + |pat| <= |s| && s[i..i + |pat|] == pat
  }

  /** The first index at or after `from` where `pat` occurs, as a regular
      expression search for a literal finds it. */
  function Find(s: string, pat: string, from: nat): (r: Option<nat>)
    ensures r.Some? ==> from <= r.value && At(s, pat, r.value)
    ensures forall j :: from <= j && (r.None? || j < r.value) ==> !At(s, pat, j)
    decreases |s| - from
  {
    if from + |pat| > |s| then None
    else if At(s, pat, from) then Some(from)
    else Find(s, pat, from + 1)
  }

  // ---------------------------------------------------------------------
  // Counting questions

  /** Where `re.findall(r'<question', s)` matches from `from` on: left to
      right, resuming after each match. */
  function TagPositions(s: string, from: nat): (r: seq<nat>)
    ensures forall k :: 0 <= k < |r| ==> from <= r[k]
    decreases |s| - from
  {
    if from + |QuestionTag| > |s| then []
    else if At(s, QuestionTag, from) then [from] + TagPositions(s, from + |QuestionTag|)
    else TagPositions(s, from + 1)
  }

  /** The question count of app.py:293 as written. */
  function CountTag(s: string): nat
  {
    |TagPositions(s, 0)|
  }

  /** A character that may end an element name in a start tag. */
  predicate IsTagEnd(c: char)
  {
    c == ' ' || c == '\t' || c == '\n' || c == '\r' || c == '>' || c == '/'
  }

  /** A `<question …>` start tag begins at `i`: the name is `question` and
      not a longer name such as `questiontext`. */
  predicate StartTagAt(s: string, i: nat)
  {
    At(s, QuestionTag, i) && i + |QuestionTag| < |s| && IsTagEnd(s[i + |QuestionTag|])
  }

  /** Where a `<question …>` start tag begins, from `from` on. */
  function StartTagPositions(s: string, from: nat): (r: seq<nat>)
    ensures forall k :: 0 <= k < |r| ==> from <= r[k]
    decreases |s| - from
  {
    if from + |QuestionTag| > |s| then []
    else if StartTagAt(s, from) then [from] + StartTagPositions(s, from + |QuestionTag|)
    else StartTagPositions(s, from + 1)
  }

  /** The number of `<question>` elements in `s`: the count app.py:293 is
      meant to take. */
  function CountQuestions(s: string): nat
  {
    |StartTagPositions(s, 0)|
  }

  /** `<question` cannot begin inside another occurrence of itself, since
      its only `<` is its first character. */
  lemma NoTagInside(s: string, a: nat, j: nat)
    requires At(s, QuestionTag, a) && a < j < a + |QuestionTag|
    ensures !At(s, QuestionTag, j)
  {
    assert s[j] == s[a..a + |QuestionTag|][j - a] == QuestionTag[j - a];
    assert s[j] != '<';
    if j + |QuestionTag| <= |s| {
      assert s[j..j + |QuestionTag|][0] == s[j];
    }
  }

  /** Resuming after each match loses nothing: the positions the as-written
      count finds are exactly the occurrences of `<question`. */
  lemma {:induction false} TagPositionsExact(s: string, from: nat, j: nat)
    ensures j in TagPositions(s, from) <==> from <= j && At(s, QuestionTag, j)
    decreases |s| - from
  {
    if from + |QuestionTag| > |s| {
    } else if At(s, QuestionTag, from) {
      TagPositionsExact(s, from + |QuestionTag|, j);
      if from < j < from + |QuestionTag| {
        NoTagInside(s, from, j);
      }
    } else {
      TagPositionsExact(s, from + 1, j);
    }
  }

  /** The corrected count finds exactly the `<question …>` start tags. */
  lemma {:induction false} StartTagPositionsExact(s: string, from: nat, j: nat)
    ensures j in StartTagPositions(s, from) <==> from <= j && StartTagAt(s, j)
    decreases |s| - from
  {
    if from + |QuestionTag| > |s| {
    } else if StartTagAt(s, from) {
      StartTagPositionsExact(s, from + |QuestionTag|, j);
      if from < j < from + |QuestionTag| {
        NoTagInside(s, from, j);
      }
    } else {
      StartTagPositionsExact(s, from + 1, j);
    }
  }

  /** Every `<questiontext` adds one to the count as written and nothing to
      the number of questions: a reply whose ten questions each hold their
      text is counted as twenty. */
  lemma QuestionTextCounted(s: string, j: nat)
    requires At(s, "<questiontext", j)
    ensures j in TagPositions(s, 0)
    ensures j !in StartTagPositions(s, 0)
  {
    assert s[j..j + |QuestionTag|] == s[j..j + 13][..|QuestionTag|];
    TagPositionsExact(s, 0, j);
    StartTagPositionsExact(s, 0, j);
    assert s[j + |QuestionTag|] == s[j..j + 13][9] == 't';
  }

  /** One question element with its text: the count as written says two. */
  lemma OneQuestionCountedTwice()
    ensures CountTag("<question><questiontext>") == 2
    ensures CountQuestions("<question><questiontext>") == 1
  {
    var s := QuestionTag + ">" + QuestionTag + "text>";
    assert s == "<question><questiontext>";
    assert s[..9] == QuestionTag && s[10..19] == QuestionTag;
    assert s[9] == '>' && s[19] == 't';
    assert At(s, QuestionTag, 0) && StartTagAt(s, 0);
    assert At(s, QuestionTag, 10) && !StartTagAt(s, 10);
    forall j | 10 < j < 19
      ensures !At(s, QuestionTag, j)
    {
      NoTagInside(s, 10, j);
    }
    assert TagPositions(s, 10) == [10];
    assert TagPositions(s, 0) == [0] + TagPositions(s, 9);
    assert StartTagPositions(s, 16) == [];
    assert StartTagPositions(s, 15) == [];
    assert StartTagPositions(s, 14) == [];
    assert StartTagPositions(s, 13) == [];
    assert StartTagPositions(s, 12) == [];
    assert StartTagPositions(s, 11) == [];
    assert StartTagPositions(s, 10) == [];
    assert StartTagPositions(s, 0) == [0] + StartTagPositions(s, 9);
  }

  // ---------------------------------------------------------------------
  // Truncating

  /** The next match of `<question[\s\S]*?</question>` from `from` on: the
      first `<question` and the first `</question>` after it, given as the
      two indices. When no `</question>` follows the first `<question`, none
      follows a later one either, so there is no match. */
  function NextSpan(s: string, from: nat): (r: Option<(nat, nat)>)
    ensures r.Some? ==> from <= r.value.0 && r.value.0 + |QuestionTag| <= r.value.1
    ensures r.Some? ==> At(s, QuestionTag, r.value.0) && At(s, QuestionClose, r.value.1)
    ensures r.Some? ==> forall j :: from <= j < r.value.0 ==> !At(s, QuestionTag, j)
    ensures r.Some? ==> forall j :: r.value.0 + |QuestionTag| <= j < r.value.1 ==> !At(s, QuestionClose, j)
  {
    match Find(s, QuestionTag, from)
    case None => None
    case Some(a) =>
      match Find(s, QuestionClose, a + |QuestionTag|)
      case None => None
      case Some(e) => Some((a, e))
  }

  /** When the search finds no match, there is none to find: no
      `<question` at or after `from` is followed by a `</question>`. */
  lemma NoSpanNoMatch(s: string, from: nat, a: nat, e: nat)
    requires NextSpan(s, from).None? && from <= a && a + |QuestionTag| <= e
    ensures !(At(s, QuestionTag, a) && At(s, QuestionClose, e))
  {
    if At(s, QuestionTag, a) {
      var first := Find(s, QuestionTag, from).value;
      assert first <= a;
    }
  }

  /** A step of a left-to-right search for `<question…</question>`:
      `next(i)` is a match at or after `i`, as the index where its
      `<question` starts and the index of its closing tag, and the match
      ends within `bound`. */
  ghost predicate Advances(next: nat -> Option<(nat, nat)>, bound: nat)
  {
    forall i: nat :: next(i).Some? ==>
      i <= next(i).value.0 && next(i).value.0 + |QuestionTag| <= next(i).value.1 && next(i).value.1 + |QuestionClose| <= bound
  }

  /** The search `re.findall` runs: from `from`, take the next match and
      resume right after its closing tag, until no match is left. */
  function FindAll(next: nat -> Option<(nat, nat)>, bound: nat, from: nat): (r: seq<(nat, nat)>)
    requires Advances(next, bound)
    ensures forall k :: 0 <= k < |r| ==>
      from <= r[k].0 && r[k].0 + |QuestionTag| <= r[k].1 && r[k].1 + |QuestionClose| <= bound
    decreases bound - from
  {
    match next(from)
    case None => []
    case Some(sp) => [sp] + FindAll(next, bound, sp.1 + |QuestionClose|)
  }

  /** Where the search for match `k` starts: at `from` for the first, after
      match `k - 1` for the others, and after the last match for `k ==
      |FindAll(next, bound, from)|`. */
  function Resume(next: nat -> Option<(nat, nat)>, bound: nat, from: nat, k: nat): (r: nat)
    requires Advances(next, bound) && k <= |FindAll(next, bound, from)|
    ensures from <= r
  {
    if k == 0 then from else FindAll(next, bound, from)[k - 1].1 + |QuestionClose|
  }

  /** Match `k` is the step's match from where its search resumes. */
  lemma {:induction false} FindAllIsNext(next: nat -> Option<(nat, nat)>, bound: nat, from: nat, k: nat)
    requires Advances(next, bound) && k < |FindAll(next, bound, from)|
    ensures next(Resume(next, bound, from, k)) == Some(FindAll(next, bound, from)[k])
    decreases k
  {
    var sp := next(from).value;
    var after := sp.1 + |QuestionClose|;
    var rest := FindAll(next, bound, after);
    assert FindAll(next, bound, from) == [sp] + rest;
    if k > 0 {
      FindAllIsNext(next, bound, after, k - 1);
      assert FindAll(next, bound, from)[k] == rest[k - 1];
      assert Resume(next, bound, from, k) == Resume(next, bound, after, k - 1) by {
        if k > 1 {
          assert FindAll(next, bound, from)[k - 1] == rest[k - 2];
        }
      }
    }
  }

  /** After the last match the step finds nothing. */
  lemma {:induction false} FindAllEnd(next: nat -> Option<(nat, nat)>, bound: nat, from: nat)
    requires Advances(next, bound)
    ensures next(Resume(next, bound, from, |FindAll(next, bound, from)|)).None?
    decreases bound - from
  {
    if next(from).Some? {
      var sp := next(from).value;
      var after := sp.1 + |QuestionClose|;
      var rest := FindAll(next, bound, after);
      assert FindAll(next, bound, from) == [sp] + rest;
      FindAllEnd(next, bound, after);
      assert Resume(next, bound, from, |FindAll(next, bound, from)|) == Resume(next, bound, after, |rest|) by {
        if |rest| > 0 {
          assert FindAll(next, bound, from)[|rest|] == rest[|rest| - 1];
        }
      }
    }
  }

  /** The matches of `re.findall(r'(<question[\s\S]*?</question>)', s)` from
      `from` on, each as the index of its `<question` and of the
      `</question>` that ends it. What each match is, and that none is
      missed, is stated by the lemmas below. */
  function Spans(s: string, from: nat): (r: seq<(nat, nat)>)
    ensures forall k :: 0 <= k < |r| ==>
      from <= r[k].0 && r[k].0 + |QuestionTag| <= r[k].1 && r[k].1 + |QuestionClose| <= |s|
  {
    NextSpanAdvances(s);
    FindAll(SpanStep(s), |s|, from)
  }

  /** `NextSpan` on `s` as a step function. */
  function SpanStep(s: string): nat -> Option<(nat, nat)>
  {
    (i: nat) => NextSpan(s, i)
  }

  /** The search for `<question…</question>` is a step of a left-to-right
      search. */
  lemma NextSpanAdvances(s: string)
    ensures Advances(SpanStep(s), |s|)
  {
    forall i: nat | SpanStep(s)(i).Some?
      ensures var sp := SpanStep(s)(i).value;
        i <= sp.0 && sp.0 + |QuestionTag| <= sp.1 && sp.1 + |QuestionClose| <= |s|
    {
      assert SpanStep(s)(i) == NextSpan(s, i);
    }
  }

  /** Where the search for match `k` of `Spans(s, from)` starts. */
  function SearchStart(s: string, from: nat, k: nat): (r: nat)
    requires k <= |Spans(s, from)|
    ensures from <= r
  {
    NextSpanAdvances(s);
    Resume(SpanStep(s), |s|, from, k)
  }

  /** Match `k` is the next match from where its search starts. */
  lemma SpanIsNext(s: string, from: nat, k: nat)
    requires k < |Spans(s, from)|
    ensures NextSpan(s, SearchStart(s, from, k)) == Some(Spans(s, from)[k])
  {
    NextSpanAdvances(s);
    FindAllIsNext(SpanStep(s), |s|, from, k);
  }

  /** Match `k` runs from a `<question` to a `</question>` and starts no
      earlier than its search. */
  lemma SpanAt(s: string, from: nat, k: nat)
    requires k < |Spans(s, from)|
    ensures At(s, QuestionTag, Spans(s, from)[k].0) && At(s, QuestionClose, Spans(s, from)[k].1)
    ensures SearchStart(s, from, k) <= Spans(s, from)[k].0
  {
    SpanIsNext(s, from, k);
  }

  /** Match `k` holds no `</question>` between its `<question` and its end:
      the lazy `[\s\S]*?` stops at the first one. */
  lemma SpanShortest(s: string, from: nat, k: nat, j: nat)
    requires k < |Spans(s, from)|
    requires Spans(s, from)[k].0 + |QuestionTag| <= j < Spans(s, from)[k].1
    ensures !At(s, QuestionClose, j)
  {
    SpanIsNext(s, from, k);
  }

  /** Each match is the leftmost one: no `<question` lies between the point
      where its search starts and its own `<question`. */
  lemma SpansLeftmost(s: string, from: nat, k: nat, j: nat)
    requires k < |Spans(s, from)|
    requires SearchStart(s, from, k) <= j < Spans(s, from)[k].0
    ensures !At(s, QuestionTag, j)
  {
    SpanIsNext(s, from, k);
  }

  /** No match is missed: after the last match, no `<question` is followed
      by a `</question>`. */
  lemma SpansComplete(s: string, from: nat, a: nat, e: nat)
    requires SearchStart(s, from, |Spans(s, from)|) <= a && a + |QuestionTag| <= e
    ensures !(At(s, QuestionTag, a) && At(s, QuestionClose, e))
  {
    NextSpanAdvances(s);
    FindAllEnd(SpanStep(s), |s|, from);
    NoSpanNoMatch(s, SearchStart(s, from, |Spans(s, from)|), a, e);
  }

  /** The list `re.findall(r'(<question[\s\S]*?</question>)', s)` returns. */
  function Fragments(s: string): (r: seq<string>)
    ensures |r| == |Spans(s, 0)|
  {
    var spans := Spans(s, 0);
    seq(|spans|, k requires 0 <= k < |spans| => s[spans[k].0..spans[k].1 + |QuestionClose|])
  }

  /** The stretch from an opening `<question` to a later `</question>`. */
  lemma SpanShape(s: string, a: nat, e: nat)
    requires At(s, QuestionTag, a) && At(s, QuestionClose, e) && a + |QuestionTag| <= e
    ensures StartsWith(s[a..e + |QuestionClose|], QuestionTag)
    ensures EndsWith(s[a..e + |QuestionClose|], QuestionClose)
  {
    assert s[a..e + |QuestionClose|][..|QuestionTag|] == s[a..a + |QuestionTag|];
    assert s[a..e + |QuestionClose|][e - a..] == s[e..e + |QuestionClose|];
  }

  /** Each fragment opens with `<question` and closes with `</question>`,
      the two apart. */
  lemma FragmentsShape(s: string, k: nat)
    requires k < |Fragments(s)|
    ensures StartsWith(Fragments(s)[k], QuestionTag)
    ensures EndsWith(Fragments(s)[k], QuestionClose)
    ensures |QuestionTag| <= |Fragments(s)[k]| - |QuestionClose|
  {
    var spans := Spans(s, 0);
    var a, e := spans[k].0, spans[k].1;
    SpanAt(s, 0, k);
    SpanShape(s, a, e);
    assert Fragments(s)[k] == s[a..e + |QuestionClose|];
  }

  /** An occurrence inside a slice is an occurrence in the whole. */
  lemma AtInSlice(s: string, pat: string, a: nat, b: nat, j: nat)
    requires a <= b <= |s| && a + j + |pat| <= b
    ensures At(s[a..b], pat, j) <==> At(s, pat, a + j)
  {
    var t := s[a..b];
    assert forall i :: j <= i < j + |pat| ==> t[i] == s[a + i];
    assert t[j..j + |pat|] == s[a + j..a + j + |pat|];
  }

  /** A fragment stops at the first `</question>` after its opening tag. */
  lemma FragmentsShortest(s: string, k: nat, j: nat)
    requires k < |Fragments(s)|
    requires |QuestionTag| <= j < |Fragments(s)[k]| - |QuestionClose|
    ensures !At(Fragments(s)[k], QuestionClose, j)
  {
    var spans := Spans(s, 0);
    var a, b := spans[k].0, spans[k].1 + |QuestionClose|;
    assert Fragments(s)[k] == s[a..b];
    assert j + |QuestionClose| < b - a;
    SpanShortest(s, 0, k, a + j);
    AtInSlice(s, QuestionClose, a, b, j);
  }

  /** The first `n` items of `parts` (Python's `parts[:n]`). */
  function Take<T>(parts: seq<T>, n: nat): (r: seq<T>)
    ensures |r| <= n && |r| <= |parts| && r == parts[..|r|]
    ensures |parts| >= n ==> |r| == n
    ensures |parts| < n ==> r == parts
  {
    if |parts| <= n then parts else parts[..n]
  }

  /** The reply prefixed with the declaration unless it has one (app.py:296). */
  function Declared(text: string): string
  {
    if StartsWith(text, XmlMark) then text else Declaration + text
  }

  /** The quiz rebuilt from the first ten fragments (app.py:298-299). */
  function Truncated(xml: string): string
  {
    Declaration + "<quiz>" + Concat(Take(Fragments(xml), Wanted)) + "</quiz>"
  }

  /** What the GPT mode makes of a reply. */
  datatype Reply =
    | Xml(xml: string, count: nat, truncated: bool)  // saved as the quiz (app.py:292-304)
    | Plain(text: string)                             // handed to parse_text_format (app.py:305-)

  /** The reply is taken for XML (app.py:292). */
  predicate LooksLikeXml(text: string)
  {
    StartsWith(text, XmlMark) || StartsWith(StripLeft(text), "<quiz")
  }

  /** The branch at app.py:292-302 for the stripped reply `text` whose
      questions were counted as `count`. */
  function Finish(text: string, count: nat): (r: Reply)
    ensures r.Plain? <==> !LooksLikeXml(text)
    ensures r.Xml? ==> StartsWith(r.xml, XmlMark) && r.count == count
    ensures r.Xml? ==> (r.truncated <==> count > Wanted)
    ensures r.Xml? && !r.truncated ==> r.xml == Declared(text)
    ensures r.Xml? && r.truncated ==> StartsWith(r.xml, Declaration + "<quiz>") && EndsWith(r.xml, "</quiz>")
    ensures r.Xml? && r.truncated ==> r.xml == Truncated(Declared(text))
  {
    if !LooksLikeXml(text) then Plain(text)
    else
      var xml := Declared(text);
      if count > Wanted then
        var head, body := Declaration + "<quiz>", Concat(Take(Fragments(xml), Wanted));
        assert Truncated(xml) == head + (body + "</quiz>");
        assert Truncated(xml)[..|XmlMark|] == head[..|XmlMark|] == Declaration[..|XmlMark|] == XmlMark;
        Xml(Truncated(xml), count, true)
      else
        assert StartsWith(xml, XmlMark) by {
          if !StartsWith(text, XmlMark) {
            assert xml[..|XmlMark|] == Declaration[..|XmlMark|];
          }
        }
        Xml(xml, count, false)
  }

  /** The reply as app.py:291-302 handles it, counting `<question` as written. */
  function PostProcessAsWritten(content: string): Reply
  {
    Finish(Strip(content), CountTag(Strip(content)))
  }

  /** The reply handled with the number of question elements as its count. */
  function PostProcess(content: string): Reply
  {
    Finish(Strip(content), CountQuestions(Strip(content)))
  }
}
