/**
 * The document viewer's quiz session (the configuration, the number of the
 * question on screen and the question itself) and its patient-case
 * generation (the in-flight flag and the case handed to the consultation).
 */
module PdfViewer {
  import opened Wrappers
  import opened QuizService
  import AiService

  /** The settings chosen in the quiz configuration dialog. */
  datatype QuizConfig = QuizConfig(questions: int, difficulty: int)

  /** The dialog's sliders allow 1 to 20 questions and a difficulty from 0
      to 100. */
  predicate ConfigInRange(c: QuizConfig) {
    1 <= c.questions <= 20 && 0 <= c.difficulty <= 100
  }

  /** `quizConfig`, `currentQuestionNumber`, `currentQuizQuestion` and
      `showQuizModal`. */
  datatype QuizState = QuizState(
    config: Option<QuizConfig>,
    number: int,
    question: Option<Question>,
    configOpen: bool)

  const InitialQuiz := QuizState(None, 1, None, false)

  /** With a configuration the question number lies in
      `1..config.questions`; without one it is 1. */
  predicate QuizInv(s: QuizState) {
    && (s.config.None? ==> s.number == 1)
    && (s.config.Some? ==> 1 <= s.number <= s.config.value.questions)
  }

  /** The quiz button opens the configuration dialog. */
  function OpenConfig(s: QuizState): QuizState {
    s.(configOpen := true)
  }

  /** `handleStartQuiz`: keep the configuration, close the dialog, start at
      question 1, and show the fetched question unless the fetch threw. */
  function StartQuiz(s: QuizState, c: QuizConfig, fetched: Option<Question>): QuizState {
    QuizState(Some(c), 1, if fetched.Some? then fetched else s.question, false)
  }

  /** The panel's close button: no question, no configuration, number 1. */
  function CloseQuiz(s: QuizState): QuizState {
    s.(config := None, number := 1, question := None)
  }

  /** `handleNextQuestion`: nothing without a configuration; one question
      further while the number is below the configured count; the end of the
      session otherwise. */
  function NextQuestion(s: QuizState, fetched: Option<Question>): (r: QuizState)
  {
    match s.config
    case None => s
    case Some(c) =>
      if s.number < c.questions then
        s.(number := s.number + 1, question := if fetched.Some? then fetched else s.question)
      else CloseQuiz(s)
  }

  /** What the viewer passes the panel as `totalQuestions`:
      `quizConfig?.questions || 0`. */
  function TotalShown(s: QuizState): int {
    if s.config.Some? && s.config.value.questions != 0 then s.config.value.questions else 0
  }

  /** The question panel is shown only with a question and a title. */
  predicate QuestionShown(s: QuizState, title: string) {
    s.question.Some? && title != ""
  }

  /** Every transition keeps the question number within its bounds. */
  lemma QuizTransitionsKeepInv(s: QuizState, c: QuizConfig, fetched: Option<Question>)
    requires QuizInv(s)
    requires ConfigInRange(c)
    ensures QuizInv(OpenConfig(s))
    ensures QuizInv(StartQuiz(s, c, fetched))
    ensures QuizInv(NextQuestion(s, fetched))
    ensures QuizInv(CloseQuiz(s))
  {
  }

  /** Starting a quiz closes the dialog and begins at question 1 with the
      chosen configuration; closing the panel afterwards returns to the
      initial state, whatever came before. */
  lemma StartThenClose(s: QuizState, c: QuizConfig, fetched: Option<Question>)
    ensures var t := StartQuiz(s, c, fetched);
      t.config == Some(c) && t.number == 1 && !t.configOpen
    ensures CloseQuiz(StartQuiz(s, c, fetched)) == InitialQuiz
  {
  }

  /** The fetched question is shown, and a fetch that threw keeps the
      question that was there. */
  lemma FailedFetchKeepsQuestion(s: QuizState, c: QuizConfig, q: Question)
    ensures StartQuiz(s, c, None).question == s.question
    ensures StartQuiz(s, c, Some(q)).question == Some(q)
  {
  }

  /** "Next" below the configured count moves on by exactly one question and
      keeps the configuration; a fetch that threw keeps the question shown. */
  lemma NextAdvances(s: QuizState, fetched: Option<Question>)
    requires s.config.Some? && s.number < s.config.value.questions
    ensures NextQuestion(s, fetched).number == s.number + 1
    ensures NextQuestion(s, fetched).config == s.config
    ensures fetched.None? ==> NextQuestion(s, fetched).question == s.question
    ensures fetched.Some? ==> NextQuestion(s, fetched).question == fetched
  {
  }

  /** "Next" at or past the configured count ends the session as closing
      does, and without a configuration it changes nothing. */
  lemma NextAtEnd(s: QuizState, fetched: Option<Question>)
    ensures s.config.None? ==> NextQuestion(s, fetched) == s
    ensures s.config.Some? && s.number >= s.config.value.questions ==>
      NextQuestion(s, fetched) == CloseQuiz(s)
  {
  }

  /** The state after a run of "next" clicks with the given fetch results. */
  function NextAll(s: QuizState, fetches: seq<Option<Question>>): QuizState
    decreases |fetches|
  {
    if fetches == [] then s else NextAll(NextQuestion(s, fetches[0]), fetches[1..])
  }

  /** From question `i` of `n`, `n - i` clicks reach question `n` with the
      configuration kept. */
  lemma {:induction false} NextAllReachesLast(s: QuizState, fetches: seq<Option<Question>>)
    requires QuizInv(s) && s.config.Some?
    requires |fetches| == s.config.value.questions - s.number
    ensures NextAll(s, fetches).config == s.config
    ensures NextAll(s, fetches).number == s.config.value.questions
    decreases |fetches|
  {
    if fetches != [] {
      NextAdvances(s, fetches[0]);
      NextAllReachesLast(NextQuestion(s, fetches[0]), fetches[1..]);
    }
  }

  /** A session of `n` questions: after starting, `n - 1` clicks on "next"
      show question `n`, and the next click ends the session. */
  lemma SessionLength(s: QuizState, c: QuizConfig, first: Option<Question>,
                      fetches: seq<Option<Question>>, last: Option<Question>)
    requires ConfigInRange(c)
    requires |fetches| == c.questions - 1
    ensures var t := NextAll(StartQuiz(s, c, first), fetches);
      && t.config == Some(c) && t.number == c.questions
      && NextQuestion(t, last) == CloseQuiz(t)
  {
    NextAllReachesLast(StartQuiz(s, c, first), fetches);
  }

  /** The panel's own test for the last question, `current == total`, holds
      exactly when the viewer's "next" would end the session. */
  lemma PanelLastMatchesViewer(s: QuizState)
    requires QuizInv(s) && s.config.Some?
    ensures s.number == TotalShown(s) <==> s.number >= s.config.value.questions
  {
  }

  // ---------------------------------------------------------------------
  // Patient case generation
  // ---------------------------------------------------------------------

  /** `isGeneratingCase`, `medicalCaseData` and `showMedicalCase`. */
  datatype CaseState = CaseState(generating: bool, initialCase: Option<string>, shown: bool)

  const InitialCase := CaseState(false, None, false)

  /** The start of `handleStartMedicalCase`: ignored without a title or while
      a case is being generated; otherwise the flag is raised. */
  function BeginCase(title: string, c: CaseState): CaseState {
    if title == "" || c.generating then c else c.(generating := true)
  }

  /** The end of `handleStartMedicalCase`: the generated case (the service's
      apology when the call failed, as it never throws) is shown and the flag
      is lowered. */
  function FinishCase(c: CaseState, reply: Reply): CaseState
    requires c.generating
  {
    CaseState(false, Some(AiService.PatientCase(reply)), true)
  }

  /** The consultation's close button. */
  function CloseCase(c: CaseState): CaseState {
    c.(shown := false, initialCase := None)
  }

  /** The consultation is shown with a case and a title. */
  predicate CaseShown(c: CaseState, title: string) {
    c.shown && c.initialCase.Some? && title != ""
  }

  /** A generation that is started always ends with the flag lowered and the
      consultation shown, on a failed call with the service's apology. */
  lemma CaseRoundTrip(title: string, c: CaseState, reply: Reply)
    requires title != "" && !c.generating
    ensures var r := FinishCase(BeginCase(title, c), reply);
      && !r.generating && CaseShown(r, title)
      && (reply.Failed? ==> r.initialCase == Some(AiService.CaseFallback))
  {
  }

  /** Without a title, or while a case is generated, the button does
      nothing; a second click is therefore ignored. */
  lemma BeginGuard(title: string, c: CaseState)
    ensures title == "" || c.generating ==> BeginCase(title, c) == c
    ensures title != "" && !c.generating ==> BeginCase(title, c).generating
    ensures BeginCase(title, BeginCase(title, c)) == BeginCase(title, c)
  {
  }

  /** Closing the consultation forgets the case and leaves a generation in
      progress alone. */
  lemma CloseCaseForgets(c: CaseState, title: string)
    ensures !CaseShown(CloseCase(c), title)
    ensures CloseCase(c).initialCase.None? && CloseCase(c).generating == c.generating
  {
  }

  /** The viewer's state: the quiz session and the case generation. */
  class Viewer {
    const title: string
    var quizConfig: Option<QuizConfig>
    var currentQuestionNumber: int
    var currentQuizQuestion: Option<Question>
    var showQuizModal: bool
    var isGeneratingCase: bool
    var medicalCaseData: Option<string>
    var showMedicalCase: bool

    function Quiz(): QuizState
      reads this
    {
      QuizState(quizConfig, currentQuestionNumber, currentQuizQuestion, showQuizModal)
    }

    function Case(): CaseState
      reads this
    {
      CaseState(isGeneratingCase, medicalCaseData, showMedicalCase)
    }

    predicate Valid()
      reads this
    {
      QuizInv(Quiz())
    }

    constructor (title: string)
      ensures this.title == title
      ensures Quiz() == InitialQuiz && Case() == InitialCase
      ensures Valid()
    {
      this.title := title;
      quizConfig := None;
      currentQuestionNumber := 1;
      currentQuizQuestion := None;
      showQuizModal := false;
      isGeneratingCase := false;
      medicalCaseData := None;
      showMedicalCase := false;
    }

    /** The quiz button. */
    method OpenQuizConfig()
      requires Valid()
      modifies this
      ensures Quiz() == OpenConfig(old(Quiz())) && Case() == old(Case())
      ensures Valid()
    {
      showQuizModal := true;
    }

    /** The dialog's start button, offered while the dialog is open with a
        title. */
    method HandleStartQuiz(c: QuizConfig, fetched: Option<Question>)
      requires Valid()
      requires showQuizModal && title != "" && ConfigInRange(c)
      modifies this
      ensures Quiz() == StartQuiz(old(Quiz()), c, fetched) && Case() == old(Case())
      ensures Valid()
    {
      quizConfig := Some(c);
      showQuizModal := false;
      currentQuestionNumber := 1;
      if fetched.Some? {
        currentQuizQuestion := fetched;
      }
    }

    /** The panel's "next", offered while the panel is shown. */
    method HandleNextQuestion(fetched: Option<Question>)
      requires Valid()
      requires QuestionShown(Quiz(), title)
      modifies this
      ensures Quiz() == NextQuestion(old(Quiz()), fetched) && Case() == old(Case())
      ensures Valid()
    {
      if quizConfig.None? {
        return;
      }
      if currentQuestionNumber < quizConfig.value.questions {
        currentQuestionNumber := currentQuestionNumber + 1;
        if fetched.Some? {
          currentQuizQuestion := fetched;
        }
      } else {
        currentQuizQuestion := None;
        quizConfig := None;
        currentQuestionNumber := 1;
      }
    }

    /** The panel's close button. */
    method HandleCloseQuiz()
      requires Valid()
      requires QuestionShown(Quiz(), title)
      modifies this
      ensures Quiz() == CloseQuiz(old(Quiz())) && Case() == old(Case())
      ensures Valid()
    {
      currentQuizQuestion := None;
      quizConfig := None;
      currentQuestionNumber := 1;
    }

    /** The case button: whether a generation was started. */
    method HandleStartMedicalCase() returns (started: bool)
      requires Valid()
      modifies this
      ensures Case() == BeginCase(title, old(Case())) && Quiz() == old(Quiz())
      ensures started <==> title != "" && !old(isGeneratingCase)
      ensures Valid()
    {
      if title == "" || isGeneratingCase {
        return false;
      }
      isGeneratingCase := true;
      started := true;
    }

    /** The completion of a started generation. */
    method FinishMedicalCase(reply: Reply)
      requires Valid()
      requires isGeneratingCase
      modifies this
      ensures Case() == FinishCase(old(Case()), reply) && Quiz() == old(Quiz())
      ensures Valid()
    {
      medicalCaseData := Some(AiService.PatientCase(reply));
      showMedicalCase := true;
      isGeneratingCase := false;
    }

    /** The consultation's close button. */
    method CloseMedicalCase()
      requires Valid()
      modifies this
      ensures Case() == CloseCase(old(Case())) && Quiz() == old(Quiz())
      ensures Valid()
    {
      showMedicalCase := false;
      medicalCaseData := None;
    }
  }
}
