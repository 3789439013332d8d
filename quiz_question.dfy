/**
 * The quiz question panel: which choice is selected, whether the
 * explanation is shown, and what "next" does on the last question and on
 * the others.
 */
module QuizQuestion {
  import opened Wrappers
  import opened QuizService

  /** `isAnswerCorrect`: a choice is selected and the first choice with that
      id is marked correct. */
  function IsAnswerCorrect(choices: seq<Choice>, selected: Option<char>): (r: bool)
    ensures r ==> selected.Some?
    ensures selected.Some? ==>
      (r <==> exists k :: 0 <= k < |choices| && choices[k].id == selected.value && choices[k].isCorrect &&
                forall j :: 0 <= j < k ==> choices[j].id != selected.value)
  {
    match selected
    case None => false
    case Some(id) =>
      var found := FindChoice(choices, [id]);
      found.Some? && choices[found.value].isCorrect
  }

  /** No two choices share an id. */
  predicate DistinctIds(choices: seq<Choice>) {
    forall a, b :: 0 <= a < b < |choices| ==> choices[a].id != choices[b].id
  }

  /** With distinct ids, the answer is correct exactly when the selected
      choice is one marked correct. */
  lemma CorrectAnswerIff(q: Question, id: char)
    requires DistinctIds(q.choices)
    ensures IsAnswerCorrect(q.choices, Some(id)) <==>
      exists k :: 0 <= k < |q.choices| && q.choices[k].id == id && q.choices[k].isCorrect
  {
    if exists k :: 0 <= k < |q.choices| && q.choices[k].id == id && q.choices[k].isCorrect {
      var k :| 0 <= k < |q.choices| && q.choices[k].id == id && q.choices[k].isCorrect;
      assert forall j :: 0 <= j < k ==> q.choices[j].id != id;
    }
  }

  /** On the fixed fallback question only `A` is a correct answer. */
  lemma FallbackAnswer(id: char)
    ensures IsAnswerCorrect(Fallback().choices, Some(id)) <==> id == 'A'
  {
    var cs := Fallback().choices;
    assert DistinctIds(cs);
    CorrectAnswerIff(Fallback(), id);
    if id == 'A' {
      assert cs[0].id == id && cs[0].isCorrect;
    }
  }

  /** What "next" asks of the viewer. */
  datatype NextEvent = CloseQuiz | NextQuestion

  /** The panel for question `current` of `total`. */
  class QuizPanel {
    const choices: seq<Choice>
    const current: int
    const total: int
    var selected: Option<char>
    var revealed: bool

    /** The explanation is only ever shown for a selected answer. */
    predicate Valid()
      reads this
    {
      revealed ==> selected.Some?
    }

    /** `isLastQuestion`. */
    predicate IsLast()
      reads this
    {
      current == total
    }

    /** A new panel: nothing selected, explanation hidden. */
    constructor (choices: seq<Choice>, current: int, total: int)
      ensures this.choices == choices && this.current == current && this.total == total
      ensures selected.None? && !revealed
      ensures Valid()
    {
      this.choices := choices;
      this.current := current;
      this.total := total;
      selected := None;
      revealed := false;
    }

    /** A click on the choice labelled `id`: it becomes the selection while
        the explanation is hidden, and changes nothing once it is shown. */
    method Choose(id: char)
      requires Valid()
      requires exists k :: 0 <= k < |choices| && choices[k].id == id
      modifies this
      ensures old(revealed) ==> selected == old(selected)
      ensures !old(revealed) ==> selected == Some(id)
      ensures revealed == old(revealed)
      ensures Valid()
    {
      if !revealed {
        selected := Some(id);
      }
    }

    /** "Voir l'explication", offered only with a selection and the
        explanation hidden; the selection stays. */
    method Reveal()
      requires Valid()
      requires selected.Some? && !revealed
      modifies this
      ensures revealed && selected == old(selected)
      ensures Valid()
    {
      revealed := true;
    }

    /** `handleNext`, offered only once the explanation is shown: on the last
        question it only asks to close; otherwise it asks for the next
        question and starts over with nothing selected. */
    method Next() returns (e: NextEvent)
      requires Valid()
      requires revealed
      modifies this
      ensures IsLast() ==> e == CloseQuiz && selected == old(selected) && revealed
      ensures !IsLast() ==> e == NextQuestion && selected.None? && !revealed
      ensures Valid()
    {
      if current == total {
        e := CloseQuiz;
      } else {
        e := NextQuestion;
        selected := None;
        revealed := false;
      }
    }
  }
}
