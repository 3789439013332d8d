/**
 * The text handling of the model-backed services: the "unsure" test and the
 * verdict and explanation extraction of `evaluateDiagnosis`, the reply
 * clean-up of `getMedicalProfessorResponse` and `evaluateProgress`, and the
 * fixed text each service returns when the model call fails. The model call
 * itself is the `Reply` each function receives.
 */
module AiService {
  import opened Wrappers
  import opened Text

  // ---------------------------------------------------------------------------
  // Evaluation of a proposed diagnosis
  // ---------------------------------------------------------------------------

  datatype Evaluation = Evaluation(isCorrect: bool, explanation: string)

  /** The phrases that mark a diagnosis as "I don't know", in lower case. */
  const UnsureVariants: seq<string> := [
    "je ne sais pas",
    "je sais pas",
    "pas sûr",
    "pas sure",
    "incertain",
    "incertaine",
    "difficile à dire",
    "impossible à dire",
    "je ne peux pas dire"
  ]

  /** The diagnosis, lower-cased, contains one of the phrases. */
  predicate IsUnsure(diagnosis: string) {
    exists k :: 0 <= k < |UnsureVariants| && Contains(ToLower(diagnosis), UnsureVariants[k])
  }

  const UnsureExplanation :=
    "Il est compréhensible d'avoir des doutes, et c'est une " +
    "bonne chose de reconnaître quand on n'est pas sûr. Cependant, " +
    "en tant que médecin, même face à l'incertitude, vous " +
    "devez :\n\n1. Formuler des hypothèses diagnostiques " +
    "basées sur les symptômes présentés\n2. Proposer une " +
    "démarche diagnostique pour confirmer ou infirmer ces " +
    "hypothèses\n3. Identifier les urgences potentielles " +
    "qui nécessitent une prise en charge immédiate\n\nJe " +
    "vous encourage à reprendre l'interrogatoire, analyser " +
    "les symptômes présentés, et proposer au moins une hypothèse " +
    "diagnostique, même si vous n'êtes pas certain(e). C'est " +
    "ainsi que vous développerez votre raisonnement clinique."

  const ErrorExplanation :=
    "Une erreur est survenue lors de l'évaluation. Cependant, " +
    "n'oubliez pas qu'un bon diagnostic doit toujours être " +
    "basé sur une anamnèse complète, un examen clinique minutieux " +
    "et une analyse systématique des symptômes. Continuez " +
    "à pratiquer et à développer votre raisonnement clinique."

  const UnsureResult := Evaluation(false, UnsureExplanation)

  const ErrorResult := Evaluation(false, ErrorExplanation)

  const VerdictTag := "VERDICT:"
  const ExplicationTag := "EXPLICATION:"
  const Dashes := "---"

  /** The first index at or after `p` that does not hold white space (`\s*`,
      greedy), or the end of `s`. */
  function SkipSpaces(s: string, p: nat): (q: nat)
    requires p <= |s|
    ensures p <= q <= |s|
    ensures forall k :: p <= k < q ==> IsSpace(s[k])
    ensures q < |s| ==> !IsSpace(s[q])
    decreases |s| - p
  {
    if p < |s| && IsSpace(s[p]) then SkipSpaces(s, p + 1) else p
  }

  /** What `/VERDICT:\s*(CORRECT|INCORRECT)/i` matches at index `i`: whether
      the captured word is `CORRECT`, or nothing when the pattern fails there. */
  function VerdictAt(s: string, i: nat): Option<bool> {
    if MatchesAtIgnoreCase(s, i, VerdictTag) then
      var p := SkipSpaces(s, i + |VerdictTag|);
      if MatchesAtIgnoreCase(s, p, "CORRECT") then Some(true)
      else if MatchesAtIgnoreCase(s, p, "INCORRECT") then Some(false)
      else None
    else None
  }

  /** The leftmost index in `from..end` where `hit` holds: how a regular
      expression search tries each start index in turn. */
  function FirstWhere(hit: nat -> bool, from: nat, end: nat): Option<nat>
    requires from <= end
    decreases end - from
  {
    if hit(from) then Some(from)
    else if from == end then None
    else FirstWhere(hit, from + 1, end)
  }

  /** `FirstWhere` finds a hit with no hit before it; when it finds none,
      there is no hit in the range. */
  lemma {:induction false} FirstWhereSpec(hit: nat -> bool, from: nat, end: nat)
    requires from <= end
    ensures var r := FirstWhere(hit, from, end);
      && (r.Some? ==> from <= r.value <= end && hit(r.value))
      && (r.Some? ==> forall j :: from <= j < r.value ==> !hit(j))
      && (r.None? ==> forall j :: from <= j <= end ==> !hit(j))
    decreases end - from
  {
    if !hit(from) && from < end {
      FirstWhereSpec(hit, from + 1, end);
    }
  }

  /** The start indices of `s` where the verdict pattern matches. */
  function VerdictHit(s: string): nat -> bool {
    (j: nat) => VerdictAt(s, j).Some?
  }

  /** The leftmost index where the verdict pattern matches. */
  function FirstVerdict(s: string): Option<nat> {
    FirstWhere(VerdictHit(s), 0, |s|)
  }

  /** The verdict of a reply: whether the first match captured `CORRECT`. */
  function Verdict(s: string): Option<bool> {
    match FirstVerdict(s)
    case None => None
    case Some(i) => VerdictAt(s, i)
  }

  /** The leftmost index at or after `from` where `EXPLICATION:` starts,
      ignoring case. */
  function FirstMarker(s: string, from: nat): (r: Option<nat>)
    requires from <= |s|
    ensures r.Some? ==> from <= r.value && MatchesAtIgnoreCase(s, r.value, ExplicationTag)
    ensures r.Some? ==> forall j :: from <= j < r.value ==> !MatchesAtIgnoreCase(s, j, ExplicationTag)
    ensures r.None? ==> forall j :: from <= j <= |s| ==> !MatchesAtIgnoreCase(s, j, ExplicationTag)
    decreases |s| - from
  {
    if MatchesAtIgnoreCase(s, from, ExplicationTag) then Some(from)
    else if from == |s| then None
    else FirstMarker(s, from + 1)
  }

  /** Where the lazy `([\s\S]*?)(?=---|$)` stops: the first index at or after
      `p` where `---` starts, or the end of `s`. */
  function CaptureEnd(s: string, p: nat): (q: nat)
    requires p <= |s|
    ensures p <= q <= |s|
    ensures q < |s| ==> Dashes <= s[q..]
    ensures forall k :: p <= k < q ==> !(Dashes <= s[k..])
    decreases |s| - p
  {
    if p == |s| || Dashes <= s[p..] then p else CaptureEnd(s, p + 1)
  }

  /** The explanation of a reply: the trimmed text after the first
      `EXPLICATION:` and the white space after it, up to the next `---`. */
  function ExplanationText(s: string): Option<string> {
    match FirstMarker(s, 0)
    case None => None
    case Some(i) =>
      var p := SkipSpaces(s, i + |ExplicationTag|);
      Some(Trim(s[p..CaptureEnd(s, p)]))
  }

  /** What `evaluateDiagnosis` makes of the reply text: the verdict and the
      explanation when both are found, the fixed error result otherwise. */
  function EvaluateReply(text: string): (r: Evaluation)
    ensures r.isCorrect <==> Verdict(text) == Some(true) && ExplanationText(text).Some?
    ensures Verdict(text).Some? && ExplanationText(text).Some? ==>
      r.explanation == ExplanationText(text).value
    ensures Verdict(text).None? || ExplanationText(text).None? ==> r == ErrorResult
  {
    match (Verdict(text), ExplanationText(text))
    case (Some(correct), Some(explanation)) => Evaluation(correct, explanation)
    case _ => ErrorResult
  }

  /**
   * `evaluateDiagnosis`: an unsure diagnosis gets the encouragement without a
   * model call; otherwise a failed call gives the fixed error result and a
   * reply is read by `EvaluateReply`.
   */
  function EvaluateDiagnosis(diagnosis: string, reply: Reply): (r: Evaluation)
    ensures IsUnsure(diagnosis) ==> r == UnsureResult
    ensures !IsUnsure(diagnosis) && reply.Failed? ==> r == ErrorResult
    ensures !IsUnsure(diagnosis) && reply.Replied? ==> r == EvaluateReply(reply.text)
  {
    if IsUnsure(diagnosis) then UnsureResult
    else match reply
      case Failed => ErrorResult
      case Replied(text) => EvaluateReply(text)
  }

  /** An unsure diagnosis never reaches the model: the result is the same
      whatever the reply would have been. */
  lemma UnsureIgnoresReply(diagnosis: string, r1: Reply, r2: Reply)
    requires IsUnsure(diagnosis)
    ensures EvaluateDiagnosis(diagnosis, r1) == EvaluateDiagnosis(diagnosis, r2)
  {
  }

  /** A diagnosis is judged correct only when it is not unsure, the call
      succeeded, and the reply's first verdict is `CORRECT` and it has an
      explanation marker. */
  lemma CorrectNeedsVerdict(diagnosis: string, reply: Reply)
    ensures EvaluateDiagnosis(diagnosis, reply).isCorrect <==>
      && !IsUnsure(diagnosis) && reply.Replied?
      && Verdict(reply.text) == Some(true) && ExplanationText(reply.text).Some?
  {
    if !IsUnsure(diagnosis) && reply.Replied? {
      assert EvaluateDiagnosis(diagnosis, reply) == EvaluateReply(reply.text);
    }
  }

  /** Upper- or lower-case phrases count alike: a diagnosis and its lower
      case are equally unsure, because lower-casing is idempotent. */
  lemma UnsureIgnoresCase(diagnosis: string)
    ensures IsUnsure(ToLower(diagnosis)) <==> IsUnsure(diagnosis)
  {
    ToLowerIdempotent(diagnosis);
  }

  /** A diagnosis is unsure exactly when one of the phrases occurs, at some
      index, in its lower-cased form. */
  lemma UnsureIff(diagnosis: string)
    ensures IsUnsure(diagnosis) <==>
      exists k, i :: 0 <= k < |UnsureVariants| && 0 <= i <= |diagnosis| &&
        UnsureVariants[k] <= ToLower(diagnosis)[i..]
  {
    var lower := ToLower(diagnosis);
    forall k | 0 <= k < |UnsureVariants|
      ensures Contains(lower, UnsureVariants[k]) <==>
        exists i :: 0 <= i <= |lower| && UnsureVariants[k] <= lower[i..]
    {
      ContainsIff(lower, UnsureVariants[k]);
    }
  }

  /** The verdict comes from the leftmost match, and the word after `VERDICT:`
      and its white space decides it; with no match anywhere there is none. */
  lemma VerdictIsLeftmost(s: string)
    ensures FirstVerdict(s).None? ==>
      Verdict(s).None? && forall j :: 0 <= j <= |s| ==> VerdictAt(s, j).None?
    ensures FirstVerdict(s).Some? ==> var i := FirstVerdict(s).value;
      && i <= |s| && Verdict(s) == VerdictAt(s, i) && Verdict(s).Some?
      && forall j :: 0 <= j < i ==> VerdictAt(s, j).None?
  {
    var hit := VerdictHit(s);
    FirstWhereSpec(hit, 0, |s|);
    var r := FirstVerdict(s);
    var bound := if r.Some? then r.value else |s| + 1;
    forall j | 0 <= j < bound
      ensures VerdictAt(s, j).None?
    {
      assert !hit(j);
    }
    if r.Some? {
      assert hit(r.value);
    }
  }

  /** A bracket after `VERDICT:` and its white space, as in
      `VERDICT: [CORRECT]`, stops the pattern at that index. */
  lemma BracketStopsVerdict(s: string, i: nat)
    requires MatchesAtIgnoreCase(s, i, VerdictTag)
    requires var p := SkipSpaces(s, i + |VerdictTag|); p < |s| && s[p] == '['
    ensures VerdictAt(s, i).None?
  {
    var p := SkipSpaces(s, i + |VerdictTag|);
    assert FoldUpperAscii(s[p]) == '[';
    MatchStartsWith(s, p, "CORRECT");
    MatchStartsWith(s, p, "INCORRECT");
  }

  /** The pattern ignores ASCII case and skips the white space before the
      word. */
  lemma LowerCaseVerdict()
    ensures VerdictAt("verdict: correct", 0) == Some(true)
  {
    var a := "verdict: correct";
    assert MatchesAtIgnoreCase(a, 0, VerdictTag);
    assert SkipSpaces(a, 8) == 9;
    assert MatchesAtIgnoreCase(a, 9, "CORRECT");
  }

  /** The bracketed form the prompt shows does not match. */
  lemma BracketedVerdict()
    ensures VerdictAt("VERDICT: [CORRECT]", 0).None?
  {
    var c := "VERDICT: [CORRECT]";
    assert MatchesAtIgnoreCase(c, 0, VerdictTag);
    assert SkipSpaces(c, 8) == 9;
    BracketStopsVerdict(c, 0);
  }

  /** An `EXPLICATION:` marker right before `---` gives an empty
      explanation, which is accepted. */
  lemma EmptyExplanationExample()
    ensures ExplanationText("EXPLICATION:---") == Some("")
  {
    var s := "EXPLICATION:---";
    assert MatchesAtIgnoreCase(s, 0, ExplicationTag);
    assert FirstMarker(s, 0) == Some(0);
    assert SkipSpaces(s, 12) == 12;
    assert s[12..] == Dashes;
    assert CaptureEnd(s, 12) == 12;
  }

  // ---------------------------------------------------------------------------
  // Reply clean-up
  // ---------------------------------------------------------------------------

  /** `s.replace(/\*\*\/g, '')`: every `**` pair removed, left to right. */
  function WithoutPairs(s: string): (r: string)
    ensures |r| <= |s|
    decreases |s|
  {
    if "**" <= s then WithoutPairs(s[2..])
    else if s == [] then ""
    else [s[0]] + WithoutPairs(s[1..])
  }

  /** Removing the pairs first and the single stars after removes every star,
      as removing single stars alone does. */
  lemma {:induction false} PairsThenStars(s: string)
    ensures Without(WithoutPairs(s), '*') == Without(s, '*')
    decreases |s|
  {
    if "**" <= s {
      PairsThenStars(s[2..]);
      assert s[1..][1..] == s[2..];
    } else if s != [] {
      PairsThenStars(s[1..]);
      assert ([s[0]] + WithoutPairs(s[1..]))[1..] == WithoutPairs(s[1..]);
    }
  }

  /** `lines.filter(p => p.trim())`: the lines that are not blank, in order. */
  function NonBlank(lines: seq<string>): (r: seq<string>)
    ensures |r| <= |lines|
    ensures forall k :: 0 <= k < |r| ==> !IsBlank(r[k])
    ensures forall l {:trigger l in r} :: l in r <==> l in lines && !IsBlank(l)
  {
    if lines == [] then []
    else (if IsBlank(lines[0]) then [] else [lines[0]]) + NonBlank(lines[1..])
  }

  /** The filter distributes over concatenation. */
  lemma {:induction false} NonBlankAppend(a: seq<string>, b: seq<string>)
    ensures NonBlank(a + b) == NonBlank(a) + NonBlank(b)
  {
    if a != [] {
      NonBlankAppend(a[1..], b);
      assert (a + b)[1..] == a[1..] + b;
    } else {
      assert a + b == b;
    }
  }

  /** Each line is kept exactly when it is not blank, and in its place among
      the lines before and after it. */
  lemma NonBlankEach(a: seq<string>, l: string, b: seq<string>)
    ensures NonBlank(a + [l] + b) == NonBlank(a) + (if IsBlank(l) then [] else [l]) + NonBlank(b)
  {
    calc {
      NonBlank(a + [l] + b);
      { NonBlankAppend(a + [l], b); }
      NonBlank(a + [l]) + NonBlank(b);
      { NonBlankAppend(a, [l]); }
      NonBlank(a) + NonBlank([l]) + NonBlank(b);
      { NonBlankOne(l); }
      NonBlank(a) + (if IsBlank(l) then [] else [l]) + NonBlank(b);
    }
  }

  lemma NonBlankOne(l: string)
    ensures NonBlank([l]) == if IsBlank(l) then [] else [l]
  {
    assert [l][1..] == [];
  }

  /** The kept lines of a reply: stars removed, split on `'\n'`, blank lines
      dropped. */
  function KeptLines(text: string): seq<string> {
    NonBlank(SplitOn(Without(WithoutPairs(text), '*'), "\n"))
  }

  /** The clean-up chain: the kept lines joined with `"\n\n"`. */
  function CleanReply(text: string): string {
    Join(KeptLines(text), "\n\n")
  }

  /** A kept line holds no star and no line break, and is not blank. */
  lemma KeptLineShape(text: string, k: nat)
    requires k < |KeptLines(text)|
    ensures var line := KeptLines(text)[k];
      '*' !in line && '\n' !in line && !IsBlank(line)
  {
    var stripped := Without(WithoutPairs(text), '*');
    var pieces := SplitOn(stripped, "\n");
    var line := KeptLines(text)[k];
    assert line in NonBlank(pieces);
    var j :| 0 <= j < |pieces| && pieces[j] == line;
    SplitPieceChars(stripped, "\n", j);
  }

  /** Splitting the cleaned reply on `"\n\n"`, as the chat display does, gives
      back exactly the kept lines; with no kept line the reply is empty. */
  lemma {:induction false} CleanReplyParagraphs(text: string)
    ensures KeptLines(text) != [] ==> SplitOn(CleanReply(text), "\n\n") == KeptLines(text)
    ensures KeptLines(text) == [] ==> CleanReply(text) == ""
  {
    var kept := KeptLines(text);
    if kept != [] {
      forall k | 0 <= k < |kept|
        ensures "\n\n"[0] !in kept[k]
      {
        KeptLineShape(text, k);
      }
      SplitJoin(kept, "\n\n");
    }
  }

  /** The cleaned reply holds no star at all. */
  lemma CleanReplyHasNoStars(text: string)
    ensures '*' !in CleanReply(text)
  {
    var kept := KeptLines(text);
    forall k | 0 <= k < |kept|
      ensures '*' !in kept[k]
    {
      KeptLineShape(text, k);
    }
    JoinChars(kept, "\n\n", '*');
  }

  // ---------------------------------------------------------------------------
  // The services and their fixed answers on failure
  // ---------------------------------------------------------------------------

  const ProfessorFallback :=
    "Je suis désolé, mais je ne peux pas répondre pour le " +
    "moment. Veuillez reformuler votre question."
  const CaseFallback := "Désolé, je ne peux pas générer de cas clinique pour le moment."
  const PatientFallback :=
    "Désolé, je ne me sens pas très bien, pourriez-vous répéter " +
    "la question ?"
  const ProgressFallback :=
    "Une erreur est survenue lors de l'évaluation de votre " +
    "progression. Veuillez réessayer plus tard."

  /** `getMedicalProfessorResponse`: the cleaned reply, or the apology. */
  function MedicalProfessorResponse(reply: Reply): (r: string)
    ensures reply.Failed? ==> r == ProfessorFallback
    ensures reply.Replied? ==> '*' !in r
    ensures reply.Replied? ==> r == CleanReply(reply.text)
  {
    match reply
    case Failed => ProfessorFallback
    case Replied(text) => CleanReplyHasNoStars(text); CleanReply(text)
  }

  /** `generatePatientCase`: the reply text as it is, or the apology. */
  function PatientCase(reply: Reply): string
  {
    match reply
    case Failed => CaseFallback
    case Replied(text) => text
  }

  /** `getPatientResponse`: the reply text as it is, or the apology. */
  function PatientResponse(reply: Reply): string
  {
    match reply
    case Failed => PatientFallback
    case Replied(text) => text
  }

  /** The two patient services pass the model's text through untouched and
      answer with a non-empty apology on failure, so their answer is empty
      only for an empty reply. */
  lemma PatientServicesPassThrough(reply: Reply)
    ensures reply.Replied? ==> PatientCase(reply) == reply.text && PatientResponse(reply) == reply.text
    ensures reply.Failed? ==> PatientCase(reply) == CaseFallback && PatientResponse(reply) == PatientFallback
    ensures PatientCase(reply) == "" <==> reply == Replied("")
    ensures PatientResponse(reply) == "" <==> reply == Replied("")
  {
  }

  /** Every apology is non-empty, while an empty reply cleans to the empty
      answer: a caller can tell the two apart. */
  lemma FallbacksNonEmpty()
    ensures ProfessorFallback != "" && CaseFallback != "" && PatientFallback != "" && ProgressFallback != ""
    ensures MedicalProfessorResponse(Replied("")) == "" && ProgressEvaluation(Replied("")) == ""
  {
  }

  /** `evaluateProgress`: the cleaned reply, or the apology. */
  function ProgressEvaluation(reply: Reply): (r: string)
    ensures reply.Failed? ==> r == ProgressFallback
    ensures reply.Replied? ==> '*' !in r
    ensures reply.Replied? ==> r == CleanReply(reply.text)
  {
    match reply
    case Failed => ProgressFallback
    case Replied(text) => CleanReplyHasNoStars(text); CleanReply(text)
  }

  /** The AI-evaluation modal splits the evaluation on `"\n\n"`: a reply's
      paragraphs are exactly its kept lines, and with none the text is
      empty. */
  lemma EvaluationParagraphs(text: string)
    ensures KeptLines(text) != [] ==> SplitOn(ProgressEvaluation(Replied(text)), "\n\n") == KeptLines(text)
    ensures KeptLines(text) == [] ==> ProgressEvaluation(Replied(text)) == ""
  {
    CleanReplyParagraphs(text);
  }
}
