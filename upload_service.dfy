/**
 * `uploadPDF`: the checks made on the chosen file before anything is sent,
 * the lesson id placed in the form, and how the server's answer becomes the
 * PDF address or an `UploadError` message.
 */
module UploadService {
  import opened Wrappers
  import opened Text
  import Store

  /** The chosen file: its media type and its size in bytes. */
  datatype File = File(mediaType: string, size: int)

  /** An answer body as `response.json()` reads it: not JSON at all, the
      JSON value `null`, or any other JSON value, of which only the `error`
      and `pdfUrl` properties matter, when they hold a string (a number, a
      string or an array has neither, like an object without them). */
  datatype Body = NotJson | JsonNull | JsonValue(error: Option<string>, pdfUrl: Option<string>)

  /** What `fetch` produced: the network call failed, or an answer came with
      its `ok` flag and its body. */
  datatype Exchange = NetworkFailure | Answered(ok: bool, body: Body)

  /** The form sent to `/api/upload`. */
  datatype Form = Form(file: File, lessonId: string)

  /** The result of `uploadPDF`: the returned PDF address (absent when the
      body had no string `pdfUrl`), or the message of the `UploadError`
      thrown. */
  datatype Outcome = Uploaded(pdfUrl: Option<string>) | Rejected(message: string)

  const MaxFileSize := 10 * 1024 * 1024

  const NoFileMessage := "No file selected"
  const NotPdfMessage := "Please select a valid PDF file"
  const TooLargeMessage := "File size exceeds 10MB limit"
  const FailedMessage := "Upload failed"
  const NetworkMessage := "Upload failed: Network error"

  /** The three checks in their order: a file is present, its media type
      contains `pdf`, and it is no larger than 10 MiB. The first failing
      check gives the message. */
  function Validate(file: Option<File>): (r: Option<string>)
    ensures file.None? <==> r == Some(NoFileMessage)
    ensures file.Some? && !Contains(file.value.mediaType, "pdf") <==> r == Some(NotPdfMessage)
    ensures file.Some? && Contains(file.value.mediaType, "pdf") && file.value.size > MaxFileSize
      <==> r == Some(TooLargeMessage)
    ensures r.None? <==>
      file.Some? && Contains(file.value.mediaType, "pdf") && file.value.size <= MaxFileSize
  {
    if file.None? then Some(NoFileMessage)
    else if !Contains(file.value.mediaType, "pdf") then Some(NotPdfMessage)
    else if file.value.size > MaxFileSize then Some(TooLargeMessage)
    else None
  }

  /** `lessonId.replace(/\D/g, '')`. */
  function SanitizeId(lessonId: string): (r: string)
    ensures forall k :: 0 <= k < |r| ==> IsDigit(r[k])
    ensures forall c {:trigger c in r} :: c in r <==> c in lessonId && IsDigit(c)
  {
    DigitsOnly(lessonId)
  }

  /** Sanitising drops exactly the non-digits and keeps every digit in its
      place. */
  lemma SanitizeIdEach(before: string, c: char, after: string)
    ensures SanitizeId(before + [c] + after) ==
      SanitizeId(before) + (if IsDigit(c) then [c] else "") + SanitizeId(after)
  {
    DigitsOnlyEach(before, c, after);
  }

  /** The form sent, or none when a check fails and no request is made. */
  function Request(file: Option<File>, lessonId: string): (r: Option<Form>)
    ensures r.None? <==> Validate(file).Some?
    ensures r.Some? ==> r.value.file == file.value && r.value.lessonId == SanitizeId(lessonId)
  {
    if Validate(file).Some? then None else Some(Form(file.value, SanitizeId(lessonId)))
  }

  /** What the answer to a sent form becomes. A failed network call gives
      the network message, and so does a `null` body, whose property read
      throws a `TypeError` that is not an `UploadError`. A refused answer
      gives its non-empty `error`, or the generic message when the body has
      none or is not JSON (`.catch(() => ({}))`). An OK answer gives its
      `pdfUrl`, or the network message when its body is not JSON. */
  function Answer(exchange: Exchange): (r: Outcome)
    ensures exchange.NetworkFailure? ==> r == Rejected(NetworkMessage)
    ensures exchange.Answered? && exchange.body.JsonNull? ==> r == Rejected(NetworkMessage)
    ensures exchange.Answered? && !exchange.ok ==> r.Rejected? && r.message != ""
    ensures (&& exchange.Answered? && !exchange.ok && exchange.body.JsonValue?
             && exchange.body.error.Some? && exchange.body.error.value != "")
      ==> r == Rejected(exchange.body.error.value)
    ensures exchange.Answered? && exchange.ok ==>
      r == if exchange.body.JsonValue? then Uploaded(exchange.body.pdfUrl) else Rejected(NetworkMessage)
  {
    match exchange
    case NetworkFailure => Rejected(NetworkMessage)
    case Answered(ok, body) =>
      match body
      case JsonNull => Rejected(NetworkMessage)
      case NotJson => if ok then Rejected(NetworkMessage) else Rejected(FailedMessage)
      case JsonValue(error, pdfUrl) =>
        if ok then Uploaded(pdfUrl)
        else if error.Some? && error.value != "" then Rejected(error.value)
        else Rejected(FailedMessage)
  }

  /** `uploadPDF`. */
  function UploadPdf(file: Option<File>, lessonId: string, exchange: Exchange): (r: Outcome)
    ensures Validate(file).Some? ==> r == Rejected(Validate(file).value)
    ensures Validate(file).None? ==> r == Answer(exchange)
  {
    match Validate(file)
    case Some(message) => Rejected(message)
    case None => Answer(exchange)
  }

  /** The media type is checked before the size: a file that is not a PDF is
      refused as such whatever its size, and exactly 10 MiB is accepted. */
  lemma ChecksInOrder(mediaType: string, size: int)
    ensures !Contains(mediaType, "pdf") ==> Validate(Some(File(mediaType, size))) == Some(NotPdfMessage)
    ensures Contains(mediaType, "pdf") ==>
      (Validate(Some(File(mediaType, size))).None? <==> size <= 10485760)
  {
  }

  /** A file that fails a check never reaches the server: the result is the
      same whatever the server would have answered. */
  lemma RefusedBeforeRequest(file: Option<File>, lessonId: string, e1: Exchange, e2: Exchange)
    requires Validate(file).Some?
    ensures Request(file, lessonId).None?
    ensures UploadPdf(file, lessonId, e1) == UploadPdf(file, lessonId, e2)
  {
  }

  /** A refused answer gives its own error message when it has one, the
      network message for a `null` body, and the generic message
      otherwise. */
  lemma RefusedAnswerMessage(body: Body)
    ensures var r := Answer(Answered(false, body));
      if body.JsonNull? then r == Rejected(NetworkMessage)
      else if body.JsonValue? && body.error.Some? && body.error.value != ""
      then r == Rejected(body.error.value)
      else r == Rejected(FailedMessage)
  {
  }

  /** An upload succeeds exactly when the file passes the checks and an OK
      answer with a JSON body other than `null` comes back. */
  lemma UploadedIff(file: Option<File>, lessonId: string, exchange: Exchange)
    ensures UploadPdf(file, lessonId, exchange).Uploaded? <==>
      Validate(file).None? && exchange.Answered? && exchange.ok && exchange.body.JsonValue?
  {
  }

  /** Sanitising is idempotent. */
  lemma SanitizeIdempotent(lessonId: string)
    ensures SanitizeId(SanitizeId(lessonId)) == SanitizeId(lessonId)
  {
    DigitsOnlyOfDigits(DigitsOnly(lessonId));
  }

  /** The store's lesson ids lose their `lesson-` prefix: the `i`-th
      lesson's number is sent, so different lessons send different ids. */
  lemma SanitizeLessonId(i: nat, j: nat)
    ensures SanitizeId(Store.LessonId(i)) == Decimal(i + 1)
    ensures i != j ==> SanitizeId(Store.LessonId(i)) != SanitizeId(Store.LessonId(j))
  {
    PrefixHasNoDigits();
    DigitsOnlyAppend("lesson-", Decimal(i + 1));
    DigitsOnlyOfDigits(Decimal(i + 1));
    DigitsOnlyAppend("lesson-", Decimal(j + 1));
    DigitsOnlyOfDigits(Decimal(j + 1));
    if Decimal(i + 1) == Decimal(j + 1) {
      DecimalInjective(i + 1, j + 1);
    }
  }

  lemma PrefixHasNoDigits()
    ensures DigitsOnly("lesson-") == ""
  {
  }

  /** `lesson-12` is sent as `12`. */
  lemma SanitizeExample()
    ensures SanitizeId("lesson-12") == "12"
  {
    PrefixHasNoDigits();
    DigitsOnlyAppend("lesson-", "12");
    DigitsOnlyOfDigits("12");
    assert "lesson-" + "12" == "lesson-12";
  }
}
