# Moodle XML quiz generator: the verified core

The application turns quiz questions into a Moodle XML document. The
questions come from one of three sources: numbered free text, a spreadsheet
column, or a reply from a language model. This project models the part of
`app.py` that does the work and proves what that part promises:

- `QuizModel` (`quiz_model.dfy`): a question is its text and its ordered
  answers, each with a correctness flag. `detect_question_type` sorts the
  answer list into `matching`, `truefalse`, `single`, `multiple` or
  `unknown`, checking in that order.
- `MoodleXml` (`moodle_xml.dfy`): `wrap_cdata` and
  `generate_moodle_xml_string`. The serializer's loops are methods. Each
  method is proved to append exactly the lines of a specification function
  (`NodeLines`, `Document`). `MoodleXmlProps` (`moodle_xml_props.dfy`)
  proves what the document holds: its envelope, one question element per
  question that is not `unknown` and in input order, and the layout of each
  node type.
- `TextUtil`, `TextScan`, `TextParser` (`text_util.dfy`, `text_scan.dfy`,
  `text_parser.dfy`): `parse_text_format`. This covers Python's `strip` and
  `splitlines`, the regular-expression split into numbered blocks, the
  marker line, the letter mapping, the true/false shortcut and the three
  error messages. `ParseTextFormat`, `ParseBlock` and `ReadAnswers` are the
  source's loops, proved against the function `ParseText`. `ParseText`
  reads the marker letters as the code does, from the whole marker line.
  `ParseTextCorrected` reads them after the marker words only (see
  Findings).
  `TextParserProps` (`text_parser_props.dfy`) proves several properties.
  Errors are isolated: one block's outcome depends only on that block.
  There is a question or an error for every block. Every question has at
  least two answers. Errors are reported in block order.
- `ExcelParser` (`excel_parser.dfy`): the pure half of `parse_from_excel`.
  Cells are grouped into maximal runs of non-empty cells. Runs shorter
  than three become errors and the others become questions.
- `GptReply` (`gpt_reply.dfy`): what the GPT mode does with a reply that is
  already XML. It adds the declaration, counts the questions and cuts a
  reply with too many questions down to its first ten
  `<question…</question>` fragments.

Strings are sequences of Unicode code points, as Python's `str` is.
Regular expressions are modelled as functions with the same result: the
block split, the question and answer line patterns, the marker pattern,
the letter classes, the `<question` count and the lazy fragment search.

### What the code accepts

The program's own instructions (app.py:55-67) show answer lines keyed by
the Latin `A.` to `D.` and the marker line `Правильний відповідь: B`. The
mapping at app.py:163 adds the Cyrillic `а`–`г` and `А`–`Г`. The code
accepts more than that:

- **Letter classes.** The classes at app.py:181 (`[A-ГA-D]`) and
  app.py:190 (`[A-Г]`) run from the Latin `A` (U+0041) to the Cyrillic
  `Г` (U+0413). They are one code-point range, not two four-letter
  alphabets.
  - `IsMarkerLetter` and `IsAnswerLetter` model that range.
  - `TextParserProps.LetterClassesWiderThanIntended` shows that the range
    holds the eight letters of the mapping (`IntendedLetters`) and also
    other letters, such as `E`.
  - The lower-case Cyrillic keys of the mapping are never looked up
    (`LowercaseKeysUnreachable`).
- **Marker letters.** app.py:181 takes the letters from the whole marker
  line, the marker words included. A marker line in capitals holds `А`
  and `В` in its words and so marks A and C (see Findings).
  - The parser of this model does the same: `ParseText`, `ParseBlock` and
    `ParseTextFormat` use `CorrectSetAsWritten`.
  - `ParseTextCorrected` takes only the letters after the marker words
    (`CorrectSet`).
  - `ParseTextScopesAgree` shows that the two parsers agree when no marker
    line holds a letter of the class in its marker words. The documented
    line `Правильний відповідь: B` is such a line.
- **Answer lines.** The code accepts any run of `)` and `.` after the
  letter, then any white space, then at least one character (app.py:190).
- **GPT replies.** The code strips only white space from a reply
  (app.py:291). It counts the substring `<question` (app.py:293), which is
  also the start of `<questiontext` (see Findings).

## Model

| member | source | states |
|---|---|---|
| QuizModel.CountCorrect | app.py:85 | the number of correct answers is at most the number of answers; it is 0 exactly when none is correct and the full count exactly when all are |
| QuizModel.CountCorrectIsOne | app.py:88 | exactly one correct answer iff some index holds the only correct answer |
| QuizModel.ClassifierOrder | app.py:81-92 | each of the five types, both directions: matching iff every text holds `-`; truefalse iff not matching, two answers and at most one correct; single iff neither and exactly one correct; multiple iff neither and more than one correct; unknown iff none of these |
| QuizModel.MatchingPrecedence | app.py:83-87 | two dashed answers are matching whatever their flags, ahead of the true/false check |
| QuizModel.EmptyIsMatching | app.py:83-84 | an empty answer list is matching (the `all` over nothing) |
| QuizModel.ChoiceHasCorrectAnswer | app.py:88-91 | single and multiple questions have at least one correct answer, and single iff exactly one |
| QuizModel.TrueFalseHasTwoAnswers | app.py:86-87 | a true/false question has exactly two answers with at most one correct |
| MoodleXml.WrapCdata | app.py:77-79 | the result opens with `<![CDATA[<p>`, closes with `</p>]]>` and holds exactly the text between them |
| MoodleXml.SplitPair | app.py:139 | the left half of a matching pair holds no `-`: the split is at the first dash |
| MoodleXml.SplitPairOf | app.py:139 | `left-right` with no dash in `left` splits into the stripped `left` and the stripped `right` |
| MoodleXml.Preview | app.py:108 | texts of at most 30 characters are kept whole; longer ones become their first 30 characters followed by `...` |
| MoodleXml.Fraction | app.py:125 | the fraction is 100 iff the answer is correct and 0 iff it is not |
| MoodleXml.Penalty | app.py:118-119 | with k > 0 correct answers the penalty times k is 1; with none it is 0 |
| MoodleXml.ChoiceAnswers | app.py:124-128 | three lines per answer |
| MoodleXml.Subquestions | app.py:138-143 | four lines per answer |
| MoodleXml.XmlLinesRenderable | app.py:136-143 | every subquestion line of the document comes from a pair holding `-`, so the unpacking at app.py:139 never fails |
| MoodleXml.AppendChoiceAnswers | app.py:124-128 | the loop appends exactly the answer elements of every answer, in order |
| MoodleXml.AppendTrueFalseAnswers | app.py:130-135 | appends the `true` and `false` answers whose fractions follow the first answer's flag |
| MoodleXml.AppendSubquestions | app.py:138-143 | the loop appends one subquestion element per pair, in order |
| MoodleXml.AppendBody | app.py:117-143 | appends the type-specific part of the node |
| MoodleXml.AppendHead | app.py:99-115 | appends the opening tag, the name preview and the question text |
| MoodleXml.AppendQuestion | app.py:97-145 | one pass of the loop appends the question's node, or nothing for `unknown` |
| MoodleXml.DocumentFrame | app.py:94-147 | the document starts with the declaration line and the `<quiz>` line and ends with `</quiz>` |
| MoodleXml.GenerateMoodleXmlString | app.py:94-147 | the method returns the document of the questions: the declaration, `<quiz>`, the nodes in order and `</quiz>`, joined by newlines |
| MoodleXmlProps.Emitted | app.py:97-106 | the questions that get a node are exactly those that are not `unknown` |
| MoodleXmlProps.UnknownSkipped | app.py:105-106 | dropping the `unknown` questions leaves the document unchanged |
| MoodleXmlProps.NodeStarts | app.py:99-106 | a node opens exactly one question element, with its type, and an `unknown` question none |
| MoodleXmlProps.QuestionElementsInOrder | app.py:97-106 | the question elements' types are those of the emitted questions, in input order |
| MoodleXmlProps.DocumentQuestionElements | app.py:94-147 | the document holds exactly one question element per non-`unknown` question, in input order |
| MoodleXmlProps.ChoiceAnswersAt | app.py:124-128 | answer i is the i-th answer element |
| MoodleXmlProps.SubquestionsAt | app.py:138-143 | pair i is the i-th subquestion element |
| MoodleXmlProps.NodeHeader | app.py:99-115 | every node opens with its type, names the question by its preview, carries the full text and closes the element |
| MoodleXmlProps.MultichoiceLayout | app.py:117-128 | a multichoice node holds the shuffle flag, the single flag, the numbering, the penalty and the answers, in that order |
| MoodleXmlProps.MultichoiceNode | app.py:117-123 | single and multiple become `multichoice`; the single flag is true iff exactly one answer is correct; the penalty line carries `1/k` |
| MoodleXmlProps.MultichoiceAnswer | app.py:124-128 | answer i is emitted with fraction 100 iff it is correct, and with its own text |
| MoodleXmlProps.TrueFalseNode | app.py:129-135 | a true/false node offers `true` then `false`; their fractions sum to 100, and `true` gets 100 iff the first answer is correct |
| MoodleXmlProps.TrueFalseIgnoresRest | app.py:129-135 | two true/false questions with the same text and the same first flag get the same node |
| MoodleXmlProps.MatchingNode | app.py:136-143 | a matching node has the shuffle flag and subquestion i built from pair i |
| MoodleXmlProps.SubquestionTextRendering | app.py:139-141 | pair `left-right` renders the stripped `left` as the subquestion text |
| MoodleXmlProps.SubquestionAnswerRendering | app.py:139-142 | and the stripped `right` as its answer; further dashes stay in the answer |
| TextUtil.StripBounds | app.py:165 | `strip` gives the empty string iff the text is blank, and otherwise neither end is white space |
| TextUtil.StripIdempotent | app.py:170 | stripping twice is stripping once |
| TextScan.SplitBlocksConcat | app.py:164 | the blocks put back together are the text: the split loses and adds nothing |
| TextScan.SplitBlocksCuts | app.py:164 | each block after the first begins with a numbered line right after a line end, and so does the second block when the first is not empty; no block holds such a line inside it |
| TextScan.SplitBlocksFirst | app.py:164 | the first block is empty iff the text is empty or starts with a numbered line, and a non-empty first block is not numbered |
| TextScan.SplitLinesConcat | app.py:170 | the pieces of a block put back together are the block without its line breaks. `SplitLines` keeps empty pieces that `splitlines` drops: `[""]` for the empty text, the piece after a final break and the piece inside `\r\n`. It agrees with app.py:170 once `KeptLines` has dropped the empty pieces |
| TextScan.SplitLinesUnbroken | app.py:170 | a text without line breaks is one piece, itself (`[""]` for the empty text, which `KeptLines` drops) |
| TextScan.SplitLinesAtBreak | app.py:170 | every line break cuts: the pieces of `a`, a break, then `b` are the pieces of `a` followed by those of `b`. A final break or `\r\n` leaves an empty piece, which `KeptLines` drops as app.py:170 does |
| TextScan.BlockLinesAreLines | app.py:170 | every kept line is non-empty, stripped and free of line breaks |
| TextScan.BlockHasLine | app.py:165-171 | a non-blank block has a first line, so `lines[0]` exists |
| TextParser.MalformedMessage | app.py:192 | the message is the fixed text, then the offending line quoted whole, then a closing quote |
| TextParser.FindMarker | app.py:174 | the marker index is the first line that matches the marker pattern, and none is found iff no line matches |
| TextParser.Letters | app.py:181 | a character is among the marker letters iff it is in the line and in the letter class |
| TextParser.MatchAnswerLine | app.py:190-194 | a line matches iff it has two characters or more and starts with a letter of the class; the key is that letter |
| TextParser.TrueFalseAnswers | app.py:186-187 | `true` then `false`, exactly one of them correct, `true` iff the marker line says true |
| TextParser.NonBlank | app.py:165 | the blank blocks are dropped and every other block is kept |
| TextParserProps.NonBlankOne | app.py:165 | a single block is kept iff it is not blank |
| TextParserProps.NonBlankAppend | app.py:165 | the filter keeps the order: the blocks kept from two runs are those kept from the first, then those kept from the second |
| TextParser.Blocks | app.py:164-165 | no block that reaches the parser is blank |
| TextParser.ParseAnswerLinesMeaning | app.py:189-196 | no error iff every line is read; the failing line is the first one that does not match; answer i has the text of line i and is correct iff its key is in the correct set |
| TextParser.ReadAnswers | app.py:189-196 | the loop's answers and its error list are those of `ParseAnswerLines` |
| TextParser.ParseBlock | app.py:170-201 | one pass adds the block's question, if any, and its errors, with the marker letters taken from the whole marker line as at app.py:181 |
| TextParser.ParseTextFormat | app.py:161-203 | the method returns `ParseText`: the outcomes of the non-blank blocks, numbered from 1, with the marker letters read from the whole marker line |
| TextParserProps.TailGroupStrip | app.py:171-172 | the stripped group `\s*(.+)` is the stripped rest of the line |
| TextParserProps.QuestionTextDropsNumber | app.py:171-172 | a numbered first line loses its number; any other line is the question text as it is |
| TextParserProps.AnswerTextAfterStops | app.py:190-194 | the answer text is the stripped rest after the letter and its `)`/`.` run |
| TextParserProps.BareLetterAnswer | app.py:190 | `A)` alone matches, with `)` as its text, because `(.+)` takes the stop back |
| TextParserProps.LetterClassesAgree | app.py:181-190 | the marker class and the answer class are the same set of characters |
| TextParserProps.LowercaseKeysUnreachable | app.py:163 | no matched letter is a lower-case Cyrillic key of the mapping |
| TextParserProps.LetterClassesWiderThanIntended | app.py:181-190 | both classes hold the eight intended letters and more, such as `E`, so `E) x` is an answer line |
| TextParserProps.LetterKeys | app.py:182-195 | within the class, a letter names answer A, B, C or D iff it is that Latin capital, its lower case or the Cyrillic capital in the same place |
| TextParserProps.KeysFromMeaning | app.py:181-182 | a key is in the set built from position `m` on iff some letter of the class at or after `m` has that key |
| TextParserProps.CorrectSetMeaning | app.py:181-182 | a key is marked correct iff some letter of the class after the marker words has that key |
| TextParserProps.CorrectSetAsWrittenMeaning | app.py:181-182 | the set as written holds the key of every letter of the class anywhere on the line, and nothing else |
| TextParserProps.CorrectSetsAgree | app.py:181-182 | when the marker words hold no letter of the class, the set as written and the corrected set are equal |
| TextParserProps.MarkedAsWritten | app.py:181-182 | every letter of the class on the line has its key in the set as written |
| TextParserProps.DocumentedMarker | app.py:166-182 | the documented marker line `Правильний відповідь: B` is recognised and marks exactly B |
| TextParserProps.CapitalMarkerMarksMore | app.py:181-182 | the same line in capitals puts A and C in the set as written |
| TextParserProps.CapitalMarkerCorrected | app.py:166-182 | the line in capitals is recognised and the corrected set marks exactly B |
| TextParserProps.MarkerEndOf | app.py:166 | the stem, word characters, one white space and either marker word make a marker line, and its marker words end right after that word |
| TextParserProps.MarkerLineOf | app.py:166-182 | stem, word run, space and marker word, in any case, then `rest`: a marker line whose corrected set is the keys of the letters of `rest` |
| TextParserProps.NoMarkerOutcome | app.py:174-177 | a block has no marker iff its outcome is the no-marker error and no question |
| TextParserProps.TrueFalseShortcut | app.py:185-187 | a single answer line mentioning `true` gives the true/false pair, correct as the marker line says, and the classifier calls it truefalse |
| TextParserProps.ChoiceOutcome | app.py:188-199 | otherwise the errors are the malformed-line error, if any, then the too-few error when fewer than two answers were read; a question is made iff at least two were |
| TextParserProps.AnswerCorrectness | app.py:181-196 | answer i carries the text of its line. It is correct iff some letter of the class on the marker line has the same key as its own letter. As written, the letter may be anywhere on the line; in the corrected reading it must come after the marker words |
| TextParserProps.OutcomeShape | app.py:169-201 | a block gives a question with at least two answers, or errors, all carrying the block's number |
| TextParserProps.ParseBlocksAppend | app.py:169-203 | parsing two runs of blocks is parsing each, the second numbered on from the first |
| TextParserProps.BlockIsolated | app.py:169-203 | the result is the outcomes before a block, that block's own outcome, and the outcomes after it |
| TextParserProps.NoMarkerBlockIsolated | app.py:174-177 | a block without a marker adds exactly its numbered "not found" error, and the blocks after it are still parsed, keeping their numbers |
| TextParserProps.CorrectSetWithinAsWritten | app.py:181-182 | the corrected set is a subset of the set as written |
| TextParserProps.LinesOutcomeScopesAgree | app.py:169-201 | when the marker words hold no letter of the class, a block's lines give the same outcome under both readings |
| TextParserProps.BlockOutcomeScopesAgree | app.py:169-201 | the same for a block |
| TextParserProps.ParseBlocksScopesAgree | app.py:169-203 | and for every run of such blocks |
| TextParserProps.ParseTextScopesAgree | app.py:161-203 | a text whose marker lines hold no letter of the class in their marker words parses the same under both readings |
| TextParserProps.ExampleBlockOutcome | app.py:169-201 | the block `1. Q`, `A. x`, `B. y` and a marker line gives the question `Q` with answers `x` and `y`, each correct iff its key is marked |
| TextParserProps.CapitalBlockAsWritten | app.py:169-201 | with the marker line `ПРАВИЛЬНА ВІДПОВІДЬ: B`, both answers come out correct as written |
| TextParserProps.CapitalBlockCorrected | app.py:169-201 | with the same marker line, only `y` is correct in the corrected reading |
| TextParserProps.ExampleBlockTypes | app.py:81-92 | the answers as written are `multiple`; the corrected answers are `truefalse` (two answers, one correct) |
| TextParserProps.ParseBlocksBounds | app.py:169-203 | at most one question per block; every question has at least two answers; every error names a block that exists; errors come in block order |
| ExcelParser.Build | app.py:228-237 | one question or one error per block; every question has at least two answers; every error names a short block with the fixed message |
| ExcelParser.GroupCells | app.py:218-227 | the grouping loop returns `Group` of the cells |
| ExcelParser.ParseFromCells | app.py:218-237 | the two loops return `Build` of the grouped cells |
| ExcelParser.GroupSplit | app.py:219-227 | an empty cell separates: grouping `a`, the empty cell, then `b` gives the blocks of `a` followed by those of `b` |
| ExcelParser.GroupRun | app.py:219-227 | a non-empty run of filled cells is one block, so blocks are maximal |
| ExcelParser.GroupKeepsFilled | app.py:218-227 | the blocks, one after the other, are exactly the filled cells in column order; no block is empty or holds an empty cell |
| ExcelParser.BuildCovers | app.py:229-235 | a block shorter than three gives its numbered error; any other gives the question of its first cell's text and the other cells, highlight flags as correctness |
| ExcelParser.BuildSnoc | app.py:229-237 | one more block adds its question at the end of the questions, or its error, numbered after the blocks before it, at the end of the errors |
| ExcelParser.BuildOne | app.py:229-237 | a single block gives its question, or its error numbered 1 when it is shorter than three |
| ExcelParser.BuildAppend | app.py:229-237 | two runs of blocks give the questions of the first run then those of the second, and likewise the errors, the second run's numbered on from the first: questions and errors come in block order |
| ExcelParser.BuildQuestionsFromBlocks | app.py:229-235 | every question comes from a block of three cells or more, built from it as above |
| GptReply.TagPositionsExact | app.py:293 | the `findall` positions, resuming after each match, are exactly the occurrences of `<question` |
| GptReply.StartTagPositionsExact | app.py:293 | the corrected count finds exactly the `<question` start tags: the name ends there |
| GptReply.QuestionTextCounted | app.py:293 | every `<questiontext` is counted by the count as written and never by the corrected count |
| GptReply.OneQuestionCountedTwice | app.py:293 | `<question><questiontext>` counts 2 as written and 1 corrected |
| GptReply.NextSpan | app.py:298 | the next match starts at the first `<question` from the search point and ends at the first `</question>` after it |
| GptReply.NoSpanNoMatch | app.py:298 | when the search stops, no `<question` further on is followed by a `</question>` |
| GptReply.FindAllIsNext | app.py:298 | for any search step, match k of the repeated search is the step's match from where the search resumes |
| GptReply.FindAllEnd | app.py:298 | after the last match, the step finds nothing |
| GptReply.SpanIsNext | app.py:298 | match k of `findall` is the next match from the end of match k-1 (from the start for the first) |
| GptReply.SpanAt | app.py:298 | each match runs from a `<question` to a `</question>` and starts no earlier than its search |
| GptReply.SpanShortest | app.py:298 | no `</question>` lies inside a match: the lazy `[\s\S]*?` stops at the first one |
| GptReply.SpansLeftmost | app.py:298 | no `<question` lies between where a match's search starts and the match: each match is the leftmost |
| GptReply.SpansComplete | app.py:298 | after the last match no `<question` is followed by a `</question>`: no match is missed |
| GptReply.FragmentsShape | app.py:298 | every fragment opens with `<question` and ends with `</question>` |
| GptReply.FragmentsShortest | app.py:298 | no fragment holds a `</question>` before its end |
| GptReply.Take | app.py:299 | `parts[:10]` is the first ten parts, or all of them when there are fewer |
| GptReply.Finish | app.py:292-302 | a reply goes to the text parser iff it does not look like XML; otherwise the result starts with the XML declaration and carries the count. It is cut down iff the count exceeds ten, and then it is the declaration, `<quiz>`, the first ten fragments (all when fewer) of the declared reply and `</quiz>`. An uncut reply is kept with the declaration added when missing |

## Left out

- The Streamlit interface (app.py:15-73, 241-393), including the session state of the manual mode (app.py:331-357) and every message shown to the user.
- The request to the language model (app.py:284-289). The reply is a parameter of `GptReply.PostProcessAsWritten` (the branch as written) and of `GptReply.PostProcess` (the same branch with the corrected count).
- Writing `gpt_test.xml` (app.py:303-304, 322-323) and `download_xml` (app.py:149-157).
- The GPT mode's other branch (app.py:305-325): it runs the modelled text parser and serializer on the reply. It is not modelled as one function.
- The count messages of app.py:294-295 and 300-302 are interface output. The count they show is the `count` of the reply.
- Loading the workbook and reading the cell fills (app.py:205-216). Cells come in as `(text, highlighted)` pairs.
- The word-document and speech parsers are not part of this model.
- MoodleXml.GenerateMoodleXmlString: the penalty's six-decimal rendering `{penalty:.6f}` is a parameter `fmt`. Floating-point rounding of `1.0 / k` is not modelled: `Penalty` is the exact rational.
- MoodleXml.WrapCdata: a text holding `]]>` ends the CDATA section early. The model does not state that the document is well-formed XML.
- TextParser.IsWordChar: `\w` is modelled for the Latin, Latin-1 and Cyrillic letters, the digits and `_`. Word characters of other scripts are not.
- TextParser.Fold: `re.IGNORECASE` is modelled for the Latin and Cyrillic capitals and the Cyrillic variants U+1C80-U+1C86. These are all the characters that can match the letters of the marker words.
- TextParser.Upper: `str.upper` is modelled for ASCII and Latin-1. Other lower-case letters of the range U+0041-U+0413 (Latin Extended, Greek) keep their case. An answer keyed by such a letter is not matched to its capital on the marker line, as Python would match it.
- TextScan.IsDigit: `\d` is modelled as the ASCII digits. Digits of other scripts do not start a block.
- GptReply.Finish: the reply is the stripped text of the model's message. An empty or missing message is not modelled.

## Findings

| source | as written | input that shows it | evidently intended | confidence | as-written member | corrected member |
|---|---|---|---|---|---|---|
| app.py:293 | `len(re.findall(r'<question', text))` also counts every `<questiontext`, so a well-formed reply is counted twice over | a reply of ten `<question type="…">` elements, each holding its `<questiontext>`: the count is 20. The "20 questions instead of 10" error is reported and the reply is rebuilt from its fragments | count the `<question` start tags, one per question element | high; not executed | GptReply.QuestionTextCounted | GptReply.StartTagPositionsExact |
| app.py:181-182 | `re.findall(r"[A-ГA-D]", corr_line)` takes letters from the whole marker line, the marker words included | the block `1. Q` / `A. x` / `B. y` / `ПРАВИЛЬНА ВІДПОВІДЬ: B`: its `А` (U+0410) and `В` (U+0412) lie in the class, so A is marked correct besides B and the question becomes `multiple` | take the letters after the marker words only: only `y` correct, and the question is `truefalse` | high; not executed | TextParserProps.CapitalBlockAsWritten | TextParserProps.CapitalBlockCorrected |
