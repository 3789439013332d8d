/**
 * The clinical-case consultation: a conversation log with the simulated
 * patient that only grows, one call in flight at a time, and a diagnosis
 * that, once evaluated, ends the consultation.
 */
module MedicalCase {
  import opened Wrappers
  import opened Text
  import AiService

  datatype Role = User | Patient | System

  datatype Message = Message(role: Role, content: string)

  /** The model call a handler is waiting for. */
  datatype Call = NoCall | PatientCall | EvaluationCall

  const SendApology :=
    "Je suis désolé, mais je ne peux pas répondre pour le " +
    "moment. Veuillez reformuler votre question."
  const SendError := "Erreur de communication avec le patient"
  const EvaluationError := "Erreur lors de l'évaluation du diagnostic. Veuillez réessayer."

  /** The message a patient call adds to the log: the patient's answer (the
      service's own apology when the call failed), or the system apology
      when the answer is empty. */
  function AnswerMessage(reply: Reply): (m: Message)
    ensures m.role == System <==> AiService.PatientResponse(reply) == ""
    ensures m.role == Patient <==> AiService.PatientResponse(reply) != ""
    ensures m.role == Patient ==> m.content == AiService.PatientResponse(reply)
    ensures m.role == System ==> m.content == SendApology
  {
    var response := AiService.PatientResponse(reply);
    if response == "" then Message(System, SendApology) else Message(Patient, response)
  }

  /** A failed call still answers as the patient, with the service's
      apology; only an empty reply text gives the system message. */
  lemma FailedCallAnswersAsPatient(reply: Reply)
    ensures reply.Failed? ==> AnswerMessage(reply) == Message(Patient, AiService.PatientFallback)
    ensures AnswerMessage(reply).role == System <==> reply == Replied("")
  {
  }

  class Consultation {
    const title: string
    const initialCase: string
    var messages: seq<Message>
    var inputMessage: string
    var showDiagnosisInput: bool
    var diagnosis: string
    /** The diagnosis as it was when the evaluation in flight was asked for:
        the handler's argument, which later typing does not change. */
    var submitted: string
    var diagnosisResult: Option<AiService.Evaluation>
    var isLoading: bool
    var error: Option<string>
    var inFlight: Call

    /** The log opens with the case; the loading flag is up exactly while a
        call is in flight; an evaluated diagnosis hides the diagnosis input
        and leaves no call in flight. */
    predicate Valid()
      reads this
    {
      && |messages| >= 1
      && messages[0] == Message(Patient, initialCase)
      && (isLoading <==> inFlight != NoCall)
      && (diagnosisResult.Some? ==> !showDiagnosisInput && inFlight == NoCall)
    }

    /** The log starts as the one patient message holding the case. */
    constructor (title: string, initialCase: string)
      ensures this.title == title && this.initialCase == initialCase
      ensures messages == [Message(Patient, initialCase)]
      ensures inputMessage == "" && diagnosis == "" && submitted == "" && !showDiagnosisInput
      ensures diagnosisResult.None? && !isLoading && error.None? && inFlight == NoCall
      ensures Valid()
    {
      this.title := title;
      this.initialCase := initialCase;
      messages := [Message(Patient, initialCase)];
      inputMessage := "";
      showDiagnosisInput := false;
      diagnosis := "";
      submitted := "";
      diagnosisResult := None;
      isLoading := false;
      error := None;
      inFlight := NoCall;
    }

    /** Typing in the question field, shown until a diagnosis is evaluated. */
    method TypeQuestion(text: string)
      requires Valid() && diagnosisResult.None? && !showDiagnosisInput
      modifies this
      ensures inputMessage == text
      ensures messages == old(messages) && isLoading == old(isLoading) && inFlight == old(inFlight)
      ensures diagnosisResult == old(diagnosisResult) && showDiagnosisInput == old(showDiagnosisInput)
      ensures diagnosis == old(diagnosis) && submitted == old(submitted) && error == old(error)
      ensures Valid()
    {
      inputMessage := text;
    }

    /** "Proposer un diagnostic" and "Retour" switch between the two input
        areas while no diagnosis has been evaluated. */
    method ToggleDiagnosisInput(show: bool)
      requires Valid() && diagnosisResult.None?
      modifies this
      ensures showDiagnosisInput == show
      ensures messages == old(messages) && isLoading == old(isLoading) && inFlight == old(inFlight)
      ensures diagnosisResult == old(diagnosisResult) && inputMessage == old(inputMessage)
      ensures diagnosis == old(diagnosis) && submitted == old(submitted) && error == old(error)
      ensures Valid()
    {
      showDiagnosisInput := show;
    }

    /** Typing in the diagnosis field. */
    method TypeDiagnosis(text: string)
      requires Valid() && diagnosisResult.None? && showDiagnosisInput
      modifies this
      ensures diagnosis == text
      ensures messages == old(messages) && isLoading == old(isLoading) && inFlight == old(inFlight)
      ensures diagnosisResult == old(diagnosisResult) && showDiagnosisInput
      ensures inputMessage == old(inputMessage) && submitted == old(submitted) && error == old(error)
      ensures Valid()
    {
      diagnosis := text;
    }

    /** The start of `handleSendMessage`: ignored for a blank question or
        while a call is in flight; otherwise the question joins the log, the
        field is emptied, the error is cleared and the patient call starts. */
    method BeginSend() returns (accepted: bool)
      requires Valid() && diagnosisResult.None? && !showDiagnosisInput
      modifies this
      ensures accepted <==> !IsBlank(old(inputMessage)) && !old(isLoading)
      ensures !accepted ==>
        messages == old(messages) && inputMessage == old(inputMessage) &&
        isLoading == old(isLoading) && inFlight == old(inFlight) && error == old(error)
      ensures accepted ==>
        && messages == old(messages) + [Message(User, old(inputMessage))]
        && inputMessage == "" && isLoading && inFlight == PatientCall && error.None?
      ensures diagnosisResult == old(diagnosisResult) && showDiagnosisInput == old(showDiagnosisInput)
      ensures diagnosis == old(diagnosis) && submitted == old(submitted)
      ensures Valid()
    {
      if IsBlank(inputMessage) || isLoading {
        return false;
      }
      isLoading := true;
      error := None;
      messages := messages + [Message(User, inputMessage)];
      inputMessage := "";
      inFlight := PatientCall;
      accepted := true;
    }

    /** The end of `handleSendMessage`: exactly one more message, an error
        only when the answer was empty, and the loading flag down. */
    method FinishSend(reply: Reply)
      requires Valid() && inFlight == PatientCall
      modifies this
      ensures messages == old(messages) + [AnswerMessage(reply)]
      ensures error == if AnswerMessage(reply).role == System then Some(SendError) else old(error)
      ensures !isLoading && inFlight == NoCall
      ensures diagnosisResult == old(diagnosisResult) && showDiagnosisInput == old(showDiagnosisInput)
      ensures inputMessage == old(inputMessage) && diagnosis == old(diagnosis) && submitted == old(submitted)
      ensures Valid()
    {
      var answer := AnswerMessage(reply);
      messages := messages + [answer];
      if answer.role == System {
        error := Some(SendError);
      }
      isLoading := false;
      inFlight := NoCall;
    }

    /** The start of `handleSubmitDiagnosis`: ignored for a blank diagnosis
        or while a call is in flight; otherwise the error is cleared and the
        evaluation of the diagnosis as it stands now starts. */
    method BeginSubmit() returns (accepted: bool)
      requires Valid() && diagnosisResult.None? && showDiagnosisInput
      modifies this
      ensures accepted <==> !IsBlank(diagnosis) && !old(isLoading)
      ensures !accepted ==>
        isLoading == old(isLoading) && inFlight == old(inFlight) && error == old(error) &&
        submitted == old(submitted)
      ensures accepted ==> isLoading && inFlight == EvaluationCall && error.None? && submitted == diagnosis
      ensures messages == old(messages) && diagnosisResult == old(diagnosisResult)
      ensures showDiagnosisInput && diagnosis == old(diagnosis) && inputMessage == old(inputMessage)
      ensures Valid()
    {
      if IsBlank(diagnosis) || isLoading {
        return false;
      }
      isLoading := true;
      error := None;
      submitted := diagnosis;
      inFlight := EvaluationCall;
      accepted := true;
    }

    /** The end of `handleSubmitDiagnosis`: without a title or a case the
        evaluation fails with an error and the result stays unset; otherwise
        the evaluation of the submitted text, whatever was typed meanwhile,
        is stored and the diagnosis input hidden for good. */
    method FinishSubmit(reply: Reply)
      requires Valid() && inFlight == EvaluationCall
      modifies this
      ensures title == "" || initialCase == "" ==>
        diagnosisResult == old(diagnosisResult) && error == Some(EvaluationError) &&
        showDiagnosisInput == old(showDiagnosisInput)
      ensures title != "" && initialCase != "" ==>
        diagnosisResult == Some(AiService.EvaluateDiagnosis(submitted, reply)) &&
        !showDiagnosisInput && error == old(error)
      ensures !isLoading && inFlight == NoCall
      ensures messages == old(messages) && diagnosis == old(diagnosis) && inputMessage == old(inputMessage)
      ensures submitted == old(submitted)
      ensures Valid()
    {
      if title == "" || initialCase == "" {
        error := Some(EvaluationError);
      } else {
        diagnosisResult := Some(AiService.EvaluateDiagnosis(submitted, reply));
        showDiagnosisInput := false;
      }
      isLoading := false;
      inFlight := NoCall;
    }
  }

  /** Typing in the diagnosis field while its evaluation runs does not
      change what is evaluated: the stored result is that of the text
      submitted. */
  method RetypeDuringEvaluation(c: Consultation, later: string, reply: Reply)
    requires c.Valid() && c.diagnosisResult.None? && c.showDiagnosisInput && !c.isLoading
    requires !IsBlank(c.diagnosis) && c.title != "" && c.initialCase != ""
    modifies c
    ensures c.diagnosisResult == Some(AiService.EvaluateDiagnosis(old(c.diagnosis), reply))
    ensures c.diagnosis == later && !c.isLoading && c.Valid()
  {
    var accepted := c.BeginSubmit();
    c.TypeDiagnosis(later);
    c.FinishSubmit(reply);
  }
}
