/**
 * The quiz-reply parser of `generateQuizQuestion`: one pass over the lines of
 * the model's reply collects a question, the choice lines, a correct-answer
 * marker and an explanation; a malformed reply, or a failed call, gives a fixed
 * fallback question.
 */
module QuizService {
  import opened Wrappers
  import opened Text

  datatype Choice = Choice(id: char, text: string, isCorrect: bool)

  datatype Question = Question(question: string, choices: seq<Choice>, explanation: string)

  /** The variables the parse loop updates: `question`, `choices`,
      `correctAnswer` and `explanation`. */
  datatype Fields = Fields(question: string, choices: seq<Choice>, correctAnswer: string, explanation: string)

  const QuestionTag := "QUESTION:"
  const CorrectTag := "CORRECT:"
  const ExplanationTag := "EXPLANATION:"

  /** The line matches `/^[A-D]\)/`. */
  predicate IsChoiceLine(line: string) {
    |line| >= 2 && 'A' <= line[0] <= 'D' && line[1] == ')'
  }

  /** The choice a choice line contributes: its letter, the rest of the line
      after the parenthesis trimmed, not (yet) correct. */
  function ChoiceOf(line: string): Choice
    requires IsChoiceLine(line)
  {
    Choice(line[0], Trim(line[2..]), false)
  }

  /** `line.replace(tag, '').trim()` for a line that starts with `tag`. */
  function AfterTag(line: string, tag: string): string
    requires StartsWith(line, tag)
  {
    Trim(line[|tag|..])
  }

  /** A line that none of the four rules recognises. */
  predicate IsPlain(line: string) {
    !StartsWith(line, QuestionTag) && !IsChoiceLine(line) &&
    !StartsWith(line, CorrectTag) && !StartsWith(line, ExplanationTag)
  }

  /** One iteration of the parse loop. */
  function Step(f: Fields, line: string): Fields {
    if StartsWith(line, QuestionTag) then f.(question := AfterTag(line, QuestionTag))
    else if IsChoiceLine(line) then f.(choices := f.choices + [ChoiceOf(line)])
    else if StartsWith(line, CorrectTag) then f.(correctAnswer := AfterTag(line, CorrectTag))
    else if StartsWith(line, ExplanationTag) then f.(explanation := AfterTag(line, ExplanationTag))
    else if f.explanation != "" && !IsBlank(line) then f.(explanation := f.explanation + " " + Trim(line))
    else f
  }

  const NoFields := Fields("", [], "", "")

  /** The fields after the loop has run over `lines`, in order. Every choice it
      collects is labelled A to D and not marked correct. */
  function Scan(lines: seq<string>): (f: Fields)
    ensures forall k :: 0 <= k < |f.choices| ==> !f.choices[k].isCorrect && 'A' <= f.choices[k].id <= 'D'
    decreases |lines|
  {
    if lines == [] then NoFields else Step(Scan(lines[..|lines| - 1]), lines[|lines| - 1])
  }

  /** `choices.find(c => c.id === marker)`, as an index: the first choice whose
      one-letter id is the whole marker. */
  function FindChoice(choices: seq<Choice>, marker: string): (r: Option<nat>)
    ensures r.Some? ==> r.value < |choices| && [choices[r.value].id] == marker
    ensures r.Some? ==> forall k :: 0 <= k < r.value ==> [choices[k].id] != marker
    ensures r.None? <==> forall k :: 0 <= k < |choices| ==> [choices[k].id] != marker
  {
    if choices == [] then None
    else if [choices[0].id] == marker then Some(0)
    else match FindChoice(choices[1..], marker)
      case None => None
      case Some(k) => Some(k + 1)
  }

  /** The validation the parse must pass, including that the marker names a
      captured choice. */
  predicate Accepted(f: Fields) {
    f.question != "" && |f.choices| == 4 && f.correctAnswer != "" && f.explanation != "" &&
    FindChoice(f.choices, f.correctAnswer).Some?
  }

  const FallbackQuestion := "Quelle est la première étape dans l'évaluation d'un patient?"
  const FallbackExplanation :=
    "L'anamnèse est toujours la première étape cruciale dans " +
    "l'évaluation d'un patient. Elle permet de recueillir " +
    "les informations essentielles sur les symptômes, l'histoire " +
    "de la maladie et les antécédents du patient."

  /** The hard-coded question returned on every failure. */
  function Fallback(): Question {
    Question(
      FallbackQuestion,
      [ Choice('A', "L'anamnèse", true),
        Choice('B', "L'examen physique", false),
        Choice('C', "Les examens complémentaires", false),
        Choice('D', "Le diagnostic différentiel", false) ],
      FallbackExplanation)
  }

  /** The question a quiz panel can show: a question, four choices labelled A to
      D of which exactly one is correct, and an explanation. */
  predicate WellFormed(q: Question) {
    && q.question != ""
    && |q.choices| == 4
    && q.explanation != ""
    && (forall k :: 0 <= k < 4 ==> 'A' <= q.choices[k].id <= 'D')
    && exists k :: 0 <= k < 4 && q.choices[k].isCorrect &&
         forall j :: 0 <= j < 4 && j != k ==> !q.choices[j].isCorrect
  }

  /** What the function returns for fields collected from a reply. */
  function Finish(f: Fields): Question {
    if Accepted(f) then
      var k := FindChoice(f.choices, f.correctAnswer).value;
      Question(f.question, f.choices[k := f.choices[k].(isCorrect := true)], f.explanation)
    else Fallback()
  }

  /** The result of the parse for a reply text. */
  function Parse(reply: string): Question {
    Finish(Scan(SplitOn(reply, "\n")))
  }

  /**
   * `generateQuizQuestion` after the model call: the reply is split on `'\n'`
   * and scanned once; the result is either the accepted fields with exactly the
   * first choice named by the marker made correct, or the fallback.
   */
  method GenerateQuizQuestion(reply: Reply) returns (q: Question)
    ensures reply.Failed? ==> q == Fallback()
    ensures reply.Replied? ==> q == Parse(reply.text)
    ensures reply.Replied? ==>
      var f := Scan(SplitOn(reply.text, "\n"));
      if Accepted(f) then
        && q.question == f.question && q.explanation == f.explanation
        && |q.choices| == 4
        && (forall k :: 0 <= k < 4 ==>
              q.choices[k].id == f.choices[k].id && q.choices[k].text == f.choices[k].text &&
              (q.choices[k].isCorrect <==> k == FindChoice(f.choices, f.correctAnswer).value))
      else q == Fallback()
    ensures WellFormed(q)
  {
    if reply.Failed? {
      q := Fallback();
      FallbackWellFormed();
      return;
    }
    var f := ScanLines(SplitOn(reply.text, "\n"));
    FinishSpec(f);
    if f.question == "" || |f.choices| != 4 || f.correctAnswer == "" || f.explanation == "" {
      q := Fallback();
      return;
    }
    var choices := f.choices;
    var k := FindCorrect(choices, f.correctAnswer);
    if k == |choices| {
      q := Fallback();
      return;
    }
    choices := choices[k := choices[k].(isCorrect := true)];
    q := Question(f.question, choices, f.explanation);
  }

  /** The parse loop: each line of the reply, in order, updates the question,
      the choices, the marker or the explanation. */
  method ScanLines(sections: seq<string>) returns (f: Fields)
    ensures f == Scan(sections)
  {
    var question, choices, correctAnswer, explanation := "", [], "", "";
    var i := 0;
    while i < |sections|
      invariant 0 <= i <= |sections|
      invariant Fields(question, choices, correctAnswer, explanation) == Scan(sections[..i])
    {
      var line := sections[i];
      if StartsWith(line, QuestionTag) {
        question := Trim(line[|QuestionTag|..]);
      } else if IsChoiceLine(line) {
        choices := choices + [Choice(line[0], Trim(line[2..]), false)];
      } else if StartsWith(line, CorrectTag) {
        correctAnswer := Trim(line[|CorrectTag|..]);
      } else if StartsWith(line, ExplanationTag) {
        explanation := Trim(line[|ExplanationTag|..]);
      } else if explanation != "" && Trim(line) != "" {
        explanation := explanation + " " + Trim(line);
      }
      assert sections[..i + 1][..i] == sections[..i];
      i := i + 1;
    }
    assert sections[..i] == sections;
    f := Fields(question, choices, correctAnswer, explanation);
  }

  /** The search of `choices.find`: the index of the first choice whose id is
      the marker, or the number of choices when there is none. */
  method FindCorrect(choices: seq<Choice>, marker: string) returns (k: nat)
    ensures k <= |choices|
    ensures k < |choices| <==> FindChoice(choices, marker).Some?
    ensures k < |choices| ==> FindChoice(choices, marker).value == k
  {
    k := 0;
    while k < |choices| && [choices[k].id] != marker
      invariant 0 <= k <= |choices|
      invariant forall j :: 0 <= j < k ==> [choices[j].id] != marker
    {
      k := k + 1;
    }
  }

  lemma FallbackWellFormed()
    ensures WellFormed(Fallback())
  {
    var q := Fallback();
    assert |q.choices| == 4;
    assert q.choices[0].isCorrect;
    assert forall j :: 0 <= j < 4 && j != 0 ==> !q.choices[j].isCorrect;
  }

  /** The result for collected fields: the accepted fields with exactly the
      first choice named by the marker made correct, or the fallback; either
      way a well-formed question. */
  lemma FinishSpec(f: Fields)
    requires forall k :: 0 <= k < |f.choices| ==> !f.choices[k].isCorrect && 'A' <= f.choices[k].id <= 'D'
    ensures var q := Finish(f);
      && WellFormed(q)
      && if Accepted(f) then
        && q.question == f.question && q.explanation == f.explanation
        && |q.choices| == 4
        && (forall k :: 0 <= k < 4 ==>
              q.choices[k].id == f.choices[k].id && q.choices[k].text == f.choices[k].text &&
              (q.choices[k].isCorrect <==> k == FindChoice(f.choices, f.correctAnswer).value))
      else q == Fallback()
  {
    if Accepted(f) {
      var k := FindChoice(f.choices, f.correctAnswer).value;
      var cs := f.choices[k := f.choices[k].(isCorrect := true)];
      assert Finish(f) == Question(f.question, cs, f.explanation);
      assert cs[k].isCorrect;
      assert forall j :: 0 <= j < 4 && j != k ==> !cs[j].isCorrect;
    } else {
      FallbackWellFormed();
    }
  }

  /** Whatever the reply, the parse yields a well-formed question. */
  lemma ParseWellFormed(reply: string)
    ensures WellFormed(Parse(reply))
  {
    FinishSpec(Scan(SplitOn(reply, "\n")));
  }

  /** The choice lines among `lines`, in order of appearance. */
  function ChoiceLines(lines: seq<string>): (r: seq<string>)
    ensures forall k :: 0 <= k < |r| ==> IsChoiceLine(r[k])
    decreases |lines|
  {
    if lines == [] then []
    else
      var last := lines[|lines| - 1];
      ChoiceLines(lines[..|lines| - 1]) + (if IsChoiceLine(last) then [last] else [])
  }

  /** Every choice line appends one choice, in order of appearance, with that
      line's letter as id and the trimmed text after the parenthesis;
      duplicate letters are kept. */
  lemma {:induction false} ChoicesFollowChoiceLines(lines: seq<string>)
    ensures var cl := ChoiceLines(lines);
      && |Scan(lines).choices| == |cl|
      && forall k :: 0 <= k < |cl| ==> Scan(lines).choices[k] == ChoiceOf(cl[k])
    decreases |lines|
  {
    if lines != [] {
      ChoicesFollowChoiceLines(lines[..|lines| - 1]);
    }
  }

  /** The question is the trimmed remainder of the last `QUESTION:` line. */
  lemma {:induction false} QuestionFromLastTag(lines: seq<string>, i: nat)
    requires i < |lines| && StartsWith(lines[i], QuestionTag)
    requires forall j :: i < j < |lines| ==> !StartsWith(lines[j], QuestionTag)
    ensures Scan(lines).question == AfterTag(lines[i], QuestionTag)
    decreases |lines|
  {
    if i < |lines| - 1 {
      QuestionFromLastTag(lines[..|lines| - 1], i);
    }
  }

  /** Without a `QUESTION:` line the question stays empty. */
  lemma {:induction false} NoQuestionTag(lines: seq<string>)
    requires forall j :: 0 <= j < |lines| ==> !StartsWith(lines[j], QuestionTag)
    ensures Scan(lines).question == ""
    decreases |lines|
  {
    if lines != [] {
      NoQuestionTag(lines[..|lines| - 1]);
    }
  }

  /** The correct-answer marker is the trimmed remainder of the last
      `CORRECT:` line. */
  lemma {:induction false} MarkerFromLastTag(lines: seq<string>, i: nat)
    requires i < |lines| && StartsWith(lines[i], CorrectTag)
    requires forall j :: i < j < |lines| ==> !StartsWith(lines[j], CorrectTag)
    ensures Scan(lines).correctAnswer == AfterTag(lines[i], CorrectTag)
    decreases |lines|
  {
    if i < |lines| - 1 {
      MarkerFromLastTag(lines[..|lines| - 1], i);
    }
  }

  /** What a line after the explanation adds to it: a space and the trimmed
      line when the line is plain and not blank, nothing otherwise. */
  function Addition(line: string): string {
    if IsPlain(line) && !IsBlank(line) then " " + Trim(line) else ""
  }

  /** What the lines `lo` to `hi - 1` add to an explanation, one `Addition`
      each. */
  function Continuation(lines: seq<string>, lo: nat, hi: nat): string
    requires lo <= hi <= |lines|
    decreases hi
  {
    if hi == lo then "" else Continuation(lines, lo, hi - 1) + Addition(lines[hi - 1])
  }

  /** What one line does to the `explanation` variable: a tag line replaces
      it, any other line extends it by its `Addition` if it is non-empty. */
  datatype Effect = Replace(text: string) | Extend(text: string)

  function EffectOf(line: string): Effect {
    if StartsWith(line, ExplanationTag) then Replace(AfterTag(line, ExplanationTag))
    else Extend(Addition(line))
  }

  function Apply(e: string, x: Effect): string {
    match x
    case Replace(t) => t
    case Extend(a) => if e != "" then e + a else e
  }

  /** The `explanation` variable after the first `n` lines, on its own. */
  function ExplanationAfter(lines: seq<string>, n: nat): string
    requires n <= |lines|
    decreases n
  {
    if n == 0 then "" else Apply(ExplanationAfter(lines, n - 1), EffectOf(lines[n - 1]))
  }

  lemma StepExplanation(f: Fields, line: string)
    ensures Step(f, line).explanation == Apply(f.explanation, EffectOf(line))
  {
    var e := f.explanation;
    if StartsWith(line, ExplanationTag) {
      assert line[0] == ExplanationTag[0];
    } else if IsPlain(line) && !IsBlank(line) {
      assert e + " " + Trim(line) == e + (" " + Trim(line));
    } else {
      assert e + "" == e;
    }
  }

  /** The explanation the parse collects depends on nothing but the lines'
      effects: the other variables never influence it. */
  lemma {:induction false} ScanExplanation(lines: seq<string>, n: nat)
    requires n <= |lines|
    ensures Scan(lines[..n]).explanation == ExplanationAfter(lines, n)
    decreases n
  {
    if n > 0 {
      ScanExplanation(lines, n - 1);
      var p := lines[..n];
      assert p[..n - 1] == lines[..n - 1] && p[n - 1] == lines[n - 1];
      StepExplanation(Scan(lines[..n - 1]), lines[n - 1]);
    }
  }

  lemma AppendToExplanation(e: string, head: string, c: string, a: string)
    requires e == if head == "" then "" else head + c
    ensures (if e != "" then e + a else e) == if head == "" then "" else head + (c + a)
  {
    if head != "" {
      assert head + c + a == head + (c + a);
    }
  }

  /** From a tag line at `i` up to `hi`, with no tag line in between, the
      explanation is the tag line's remainder followed by the additions. */
  lemma {:induction false} ExplanationAfterTag(lines: seq<string>, i: nat, hi: nat)
    requires i < hi <= |lines| && StartsWith(lines[i], ExplanationTag)
    requires forall j :: i < j < hi ==> !StartsWith(lines[j], ExplanationTag)
    ensures var head := AfterTag(lines[i], ExplanationTag);
      ExplanationAfter(lines, hi) == if head == "" then "" else head + Continuation(lines, i + 1, hi)
    decreases hi
  {
    if hi > i + 1 {
      ExplanationAfterTag(lines, i, hi - 1);
      ExplanationAfterPlain(lines, i, hi);
    } else {
      var head := AfterTag(lines[i], ExplanationTag);
      assert head + "" == head;
    }
  }

  /** The step of `ExplanationAfterTag`: one more line without the tag. */
  lemma ExplanationAfterPlain(lines: seq<string>, i: nat, hi: nat)
    requires i + 1 < hi <= |lines| && StartsWith(lines[i], ExplanationTag)
    requires !StartsWith(lines[hi - 1], ExplanationTag)
    requires var head := AfterTag(lines[i], ExplanationTag);
      ExplanationAfter(lines, hi - 1) == if head == "" then "" else head + Continuation(lines, i + 1, hi - 1)
    ensures var head := AfterTag(lines[i], ExplanationTag);
      ExplanationAfter(lines, hi) == if head == "" then "" else head + Continuation(lines, i + 1, hi)
  {
    AppendToExplanation(ExplanationAfter(lines, hi - 1), AfterTag(lines[i], ExplanationTag),
      Continuation(lines, i + 1, hi - 1), Addition(lines[hi - 1]));
  }

  /** The explanation is the trimmed remainder of the last `EXPLANATION:` line
      followed by the plain non-blank lines after it; if that remainder is
      empty, the lines after it are dropped and the explanation stays empty. */
  lemma ExplanationFromLastTag(lines: seq<string>, i: nat)
    requires i < |lines| && StartsWith(lines[i], ExplanationTag)
    requires forall j :: i < j < |lines| ==> !StartsWith(lines[j], ExplanationTag)
    ensures var head := AfterTag(lines[i], ExplanationTag);
      Scan(lines).explanation == if head == "" then "" else head + Continuation(lines, i + 1, |lines|)
  {
    ExplanationAfterTag(lines, i, |lines|);
    ScanExplanation(lines, |lines|);
    assert lines[..|lines|] == lines;
  }

  /** Without an `EXPLANATION:` line the explanation stays empty: plain lines
      are only appended to an explanation that is already non-empty. */
  lemma {:induction false} NoExplanationTag(lines: seq<string>)
    requires forall j :: 0 <= j < |lines| ==> !StartsWith(lines[j], ExplanationTag)
    ensures Scan(lines).explanation == ""
    decreases |lines|
  {
    if lines != [] {
      NoExplanationTag(lines[..|lines| - 1]);
    }
  }

  /** An `EXPLANATION:` line with nothing after the tag, as the last such line,
      makes the whole reply fall back, whatever text follows it. */
  lemma EmptyExplanationFallsBack(reply: string, i: nat)
    requires var lines := SplitOn(reply, "\n");
      && i < |lines| && StartsWith(lines[i], ExplanationTag)
      && AfterTag(lines[i], ExplanationTag) == ""
      && forall j :: i < j < |lines| ==> !StartsWith(lines[j], ExplanationTag)
    ensures Parse(reply) == Fallback()
  {
    ExplanationFromLastTag(SplitOn(reply, "\n"), i);
  }

  /** A marker that is not a single letter, such as `B)`, names no choice, so
      the reply falls back. */
  lemma MarkerMustBeOneLetter(reply: string)
    requires |Scan(SplitOn(reply, "\n")).correctAnswer| != 1
    ensures Parse(reply) == Fallback()
  {
  }

  lemma ScanSnoc(lines: seq<string>, line: string)
    ensures Scan(lines + [line]) == Step(Scan(lines), line)
  {
    assert (lines + [line])[..|lines|] == lines;
  }

  const ExampleLines := ["QUESTION: Q?", "A) a", "B) b", "C) c", "D) d", "CORRECT: B", "EXPLANATION: e"]

  const ExampleChoices := [Choice('A', "a", false), Choice('B', "b", false), Choice('C', "c", false), Choice('D', "d", false)]

  /** The question line of the example reply. */
  lemma ExampleQuestion()
    ensures Scan(ExampleLines[..1]) == Fields("Q?", [], "", "")
  {
    var l := ExampleLines;
    ScanSnoc([], l[0]);
    assert [] + [l[0]] == l[..1];
    assert l[0][|QuestionTag|..] == " Q?";
    TrimAfterSpace("Q?");
  }

  /** The `k`-th line of the example reply, a choice line, adds the `k`-th
      choice. */
  lemma ExampleChoiceLine(k: nat, id: char, w: string)
    requires 1 <= k <= 4 && ExampleLines[k] == [id, ')', ' '] + w
    requires ExampleChoices[k - 1] == Choice(id, w, false)
    requires 'A' <= id <= 'D' && w != [] && !IsSpace(w[0]) && !IsSpace(w[|w| - 1])
    requires Scan(ExampleLines[..k]) == Fields("Q?", ExampleChoices[..k - 1], "", "")
    ensures Scan(ExampleLines[..k + 1]) == Fields("Q?", ExampleChoices[..k], "", "")
  {
    var p := ExampleLines[..k];
    assert ExampleLines[..k + 1] == p + [ExampleLines[k]];
    ChoiceStep(p, Fields("Q?", ExampleChoices[..k - 1], "", ""), id, w);
    assert ExampleChoices[..k - 1] + [ExampleChoices[k - 1]] == ExampleChoices[..k];
  }

  /** The question line and the first two choice lines of the example reply. */
  lemma ExampleOpening()
    ensures Scan(ExampleLines[..3]) == Fields("Q?", ExampleChoices[..2], "", "")
  {
    ExampleQuestion();
    assert ExampleChoices[..0] == [];
    ExampleChoiceLine(1, 'A', "a");
    ExampleChoiceLine(2, 'B', "b");
  }

  /** The question line and the four choice lines of the example reply. */
  lemma ExampleHead()
    ensures Scan(ExampleLines[..5]) == Fields("Q?", ExampleChoices, "", "")
  {
    ExampleOpening();
    ExampleChoiceLine(3, 'C', "c");
    ExampleChoiceLine(4, 'D', "d");
    assert ExampleChoices[..4] == ExampleChoices;
  }

  /** The marker line of the example reply. */
  lemma ExampleMarker()
    ensures Scan(ExampleLines[..6]) == Fields("Q?", ExampleChoices, "B", "")
  {
    var l := ExampleLines;
    ExampleHead();
    ScanSnoc(l[..5], l[5]);
    assert !StartsWith(l[5], QuestionTag) by { assert l[5][1] != QuestionTag[1]; }
    assert !IsChoiceLine(l[5]) by { assert l[5][1] != ')'; }
    assert l[5] == CorrectTag + " B";
    assert l[5][|CorrectTag|..] == " B";
    TrimAfterSpace("B");
    assert l[..5] + [l[5]] == l[..6];
  }

  /** The explanation line of the example reply. */
  lemma ExampleScan()
    ensures Scan(ExampleLines) == Fields("Q?", ExampleChoices, "B", "e")
  {
    var l := ExampleLines;
    ExampleMarker();
    ScanSnoc(l[..6], l[6]);
    assert !StartsWith(l[6], QuestionTag) by { assert l[6][0] != QuestionTag[0]; }
    assert !IsChoiceLine(l[6]) by { assert l[6][1] != ')'; }
    assert !StartsWith(l[6], CorrectTag) by { assert l[6][0] != CorrectTag[0]; }
    assert l[6] == ExplanationTag + " e";
    assert l[6][|ExplanationTag|..] == " e";
    TrimAfterSpace("e");
    assert l[..6] + [l[6]] == l;
  }

  lemma ExampleSplit()
    ensures SplitOn(Join(ExampleLines, "\n"), "\n") == ExampleLines
  {
    SplitJoin(ExampleLines, "\n");
  }

  /** Fields laid out as the prompt asks are accepted with the named choice
      correct. */
  lemma ExampleFinish()
    ensures var q := Finish(Fields("Q?", ExampleChoices, "B", "e"));
      && q.question == "Q?" && q.explanation == "e"
      && |q.choices| == 4 && q.choices[1] == Choice('B', "b", true)
      && !q.choices[0].isCorrect && !q.choices[2].isCorrect && !q.choices[3].isCorrect
  {
    assert FindChoice(ExampleChoices, "B") == Some(1);
  }

  /** A reply laid out as the prompt asks is accepted with the named choice
      correct. */
  lemma WellFormedReplyExample()
    ensures var q := Parse(Join(ExampleLines, "\n"));
      && q.question == "Q?" && q.explanation == "e"
      && |q.choices| == 4 && q.choices[1] == Choice('B', "b", true)
      && !q.choices[0].isCorrect && !q.choices[2].isCorrect && !q.choices[3].isCorrect
  {
    ExampleSplit();
    ExampleScan();
    ExampleFinish();
  }

  /** One choice line `X) w` in a scan whose fields are known. */
  lemma ChoiceStep(lines: seq<string>, f: Fields, id: char, w: string)
    requires Scan(lines) == f && 'A' <= id <= 'D' && w != [] && !IsSpace(w[0]) && !IsSpace(w[|w| - 1])
    ensures Scan(lines + [[id, ')', ' '] + w]) == f.(choices := f.choices + [Choice(id, w, false)])
  {
    var line := [id, ')', ' '] + w;
    ScanSnoc(lines, line);
    assert !StartsWith(line, QuestionTag) by { assert line[0] != QuestionTag[0]; }
    assert line[2..] == " " + w;
    TrimAfterSpace(w);
  }
}
