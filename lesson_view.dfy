/**
 * The lesson page: the lesson looked up by the id in the address, the chat
 * with the teaching assistant (a greeting naming the lesson, then questions
 * and answers appended one by one), the suggested questions, and how an
 * answer is cut into paragraphs for display.
 */
module LessonView {
  import opened Wrappers
  import opened Text
  import opened Store
  import AiService

  // ---------------------------------------------------------------------
  // Lesson lookup
  // ---------------------------------------------------------------------

  /** `lessons.find(l => l.id === id)`: the first lesson with the id. */
  function FindLesson(ls: seq<Lesson>, id: string): (r: Option<Lesson>)
    ensures r.None? <==> forall k :: 0 <= k < |ls| ==> ls[k].id != id
    ensures r.Some? ==> exists k :: 0 <= k < |ls| && ls[k] == r.value && ls[k].id == id &&
                          forall j :: 0 <= j < k ==> ls[j].id != id
  {
    if ls == [] then None
    else if ls[0].id == id then Some(ls[0])
    else
      var r := FindLesson(ls[1..], id);
      assert r.Some? ==> exists k :: 0 <= k < |ls[1..]| && ls[1..][k] == r.value && ls[1..][k].id == id &&
                          forall j :: 0 <= j < k ==> ls[1..][j].id != id;
      if r.Some? then
        var k :| 0 <= k < |ls[1..]| && ls[1..][k] == r.value && ls[1..][k].id == id &&
                 forall j :: 0 <= j < k ==> ls[1..][j].id != id;
        assert ls[k + 1] == r.value;
        r
      else r
  }

  /** With ids that are not repeated, as in the store, the lesson found for
      the `i`-th lesson's id is that lesson. */
  lemma {:induction false} FindDistinct(ls: seq<Lesson>, i: nat)
    requires IdsDistinct(ls) && i < |ls|
    ensures FindLesson(ls, ls[i].id) == Some(ls[i])
  {
    if i > 0 {
      var rest := ls[1..];
      assert ls[0].id != ls[i].id;
      assert IdsDistinct(rest) by {
        forall a, b | 0 <= a < b < |rest|
          ensures rest[a].id != rest[b].id
        {
          assert rest[a] == ls[a + 1] && rest[b] == ls[b + 1];
        }
      }
      FindDistinct(rest, i - 1);
      assert rest[i - 1] == ls[i];
    }
  }

  /** The address `/lesson/lesson-{i + 1}` opens the `i`-th lesson the
      store builds from a mapping. */
  lemma InitialLessonFound(m: seq<Entry>, seeds: seq<Seed>, i: nat)
    requires |seeds| == |Keys(m)|
    requires forall k :: 0 <= k < |seeds| ==> SeedInRange(seeds[k])
    requires i < |seeds|
    ensures FindLesson(LessonsFrom(m, seeds), LessonId(i)) == Some(LessonsFrom(m, seeds)[i])
  {
    LessonsFromSpec(m, seeds);
    FindDistinct(LessonsFrom(m, seeds), i);
  }

  // ---------------------------------------------------------------------
  // Chat
  // ---------------------------------------------------------------------

  datatype Role = User | Assistant | System

  datatype Message = Message(role: Role, content: string)

  const GreetingHead := "Bonjour! Je suis votre assistant pour le cours \""
  const GreetingTail :=
    "\". Je peux vous aider à comprendre les concepts, " +
    "répondre à vos questions et fournir des explications " +
    "détaillées. Comment puis-je vous aider aujourd'hui ?"

  /** The assistant's greeting for a lesson. */
  function Greeting(title: string): string {
    GreetingHead + title + GreetingTail
  }

  /** The greeting names the lesson: different titles give different
      greetings. */
  lemma GreetingNamesTitle(a: string, b: string)
    requires Greeting(a) == Greeting(b)
    ensures a == b
  {
    var g := Greeting(a);
    assert |a| == |b|;
    assert a == g[|GreetingHead|..|GreetingHead| + |a|];
    assert b == Greeting(b)[|GreetingHead|..|GreetingHead| + |b|];
  }

  const SuggestedQuestions := [
    "Faites-moi un résumé de la leçon",
    "Quels sont les points clés à retenir ?",
    "Expliquez-moi les concepts difficiles",
    "Donnez-moi des exemples pratiques"]

  /** `formatMessageContent`: the paragraphs of a message, split on
      `"\n\n"`. */
  function Paragraphs(content: string): (r: seq<string>)
    ensures |r| >= 1
  {
    SplitOn(content, "\n\n")
  }

  /** Joining the paragraphs back gives the message. */
  lemma ParagraphsRoundTrip(content: string)
    ensures Join(Paragraphs(content), "\n\n") == content
  {
    JoinSplit(content, "\n\n");
  }

  /** An answer of the assistant is displayed as the lines kept by the reply
      clean-up, one paragraph each. */
  lemma AnswerParagraphs(text: string)
    requires AiService.KeptLines(text) != []
    ensures Paragraphs(AiService.MedicalProfessorResponse(Replied(text))) == AiService.KeptLines(text)
  {
    AiService.CleanReplyParagraphs(text);
  }

  /** The chat beside a lesson. */
  class LessonChat {
    const lesson: Option<Lesson>
    var message: string
    var showSuggestions: bool
    var isLoading: bool
    var chatMessages: seq<Message>

    /** With a lesson the log opens with its greeting; nothing is loading
        without one. */
    predicate Valid()
      reads this
    {
      && (lesson.Some? ==>
            |chatMessages| >= 1 && chatMessages[0] == Message(Assistant, Greeting(lesson.value.title)))
      && (lesson.None? ==> !isLoading)
    }

    /** Opening `/lesson/{id}`: the first lesson with that id, and a log
        holding only its greeting; without one, the not-found page and an
        empty log. */
    constructor (lessons: seq<Lesson>, id: string)
      ensures lesson == FindLesson(lessons, id)
      ensures lesson.Some? ==> chatMessages == [Message(Assistant, Greeting(lesson.value.title))]
      ensures lesson.None? ==> chatMessages == []
      ensures message == "" && !showSuggestions && !isLoading
      ensures Valid()
    {
      lesson := FindLesson(lessons, id);
      var found := FindLesson(lessons, id);
      chatMessages := if found.Some? then [Message(Assistant, Greeting(found.value.title))] else [];
      message := "";
      showSuggestions := false;
      isLoading := false;
    }

    /** Typing in the question field. */
    method Type(text: string)
      requires Valid()
      modifies this
      ensures message == text
      ensures chatMessages == old(chatMessages) && isLoading == old(isLoading)
      ensures showSuggestions == old(showSuggestions)
      ensures Valid()
    {
      message := text;
    }

    /** The mouse entering or leaving the suggestions button. */
    method HoverSuggestions(show: bool)
      requires Valid()
      modifies this
      ensures showSuggestions == show
      ensures chatMessages == old(chatMessages) && isLoading == old(isLoading) && message == old(message)
      ensures Valid()
    {
      showSuggestions := show;
    }

    /** The start of `handleSendMessage(text)`: ignored for a blank text,
        while a call is in flight or without a lesson; otherwise the field is
        emptied and the question joins the log. */
    method BeginSend(text: string) returns (accepted: bool)
      requires Valid()
      modifies this
      ensures accepted <==> !IsBlank(text) && !old(isLoading) && lesson.Some?
      ensures !accepted ==>
        chatMessages == old(chatMessages) && message == old(message) && isLoading == old(isLoading)
      ensures accepted ==>
        chatMessages == old(chatMessages) + [Message(User, text)] && message == "" && isLoading
      ensures showSuggestions == old(showSuggestions)
      ensures Valid()
    {
      if IsBlank(text) || isLoading || lesson.None? {
        return false;
      }
      message := "";
      isLoading := true;
      chatMessages := chatMessages + [Message(User, text)];
      accepted := true;
    }

    /** The form's submit: the text of the field is sent. */
    method Submit() returns (accepted: bool)
      requires Valid()
      modifies this
      ensures accepted <==> !IsBlank(old(message)) && !old(isLoading) && lesson.Some?
      ensures !accepted ==>
        chatMessages == old(chatMessages) && message == old(message) && isLoading == old(isLoading)
      ensures accepted ==>
        chatMessages == old(chatMessages) + [Message(User, old(message))] && message == "" && isLoading
      ensures showSuggestions == old(showSuggestions)
      ensures Valid()
    {
      accepted := BeginSend(message);
    }

    /** `handleSuggestedQuestion`: the list is hidden and the question sent
        as it is, under the same rules. */
    method AskSuggested(k: nat) returns (accepted: bool)
      requires Valid() && k < |SuggestedQuestions|
      modifies this
      ensures !showSuggestions
      ensures accepted <==> !IsBlank(SuggestedQuestions[k]) && !old(isLoading) && lesson.Some?
      ensures !accepted ==>
        chatMessages == old(chatMessages) && message == old(message) && isLoading == old(isLoading)
      ensures accepted ==>
        chatMessages == old(chatMessages) + [Message(User, SuggestedQuestions[k])] && message == "" && isLoading
      ensures Valid()
    {
      showSuggestions := false;
      accepted := BeginSend(SuggestedQuestions[k]);
    }

    /** The end of `handleSendMessage`: exactly one assistant message, the
        cleaned answer or the service's apology, and the loading flag down. */
    method FinishSend(reply: Reply)
      requires Valid() && isLoading
      modifies this
      ensures chatMessages == old(chatMessages) + [Message(Assistant, AiService.MedicalProfessorResponse(reply))]
      ensures !isLoading && message == old(message) && showSuggestions == old(showSuggestions)
      ensures Valid()
    {
      chatMessages := chatMessages + [Message(Assistant, AiService.MedicalProfessorResponse(reply))];
      isLoading := false;
    }
  }
}
