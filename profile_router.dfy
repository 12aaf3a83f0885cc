/** The `analyzeProfile` procedure (packages/server/src/trpc/routers/profile.router.ts):
    the upload schema, the sequence of checks with early failure, the call to the AI
    service, and the classification of whatever was thrown into a tRPC error. The PDF
    parser, the HTTP POST and `JSON.parse` are parameters. */
module ProfileRouter {
  import opened Wrappers
  import opened JsStrings
  import opened Errors
  import opened AiTypes
  import opened PdfService
  import opened AiService
  import opened Trpc

  // ---------------------------------------------------------------------------
  // The input schema
  // ---------------------------------------------------------------------------

  /** The size limit used when the environment sets none: 10 MiB. */
  const DefaultMaxFileSize: int := 10485760

  const NameRequired: string := "File name is required"
  const MustBePdf: string := "File must be a PDF"
  const SizeMustBePositive: string := "File size must be positive"
  const SizeTooLarge: string := "File size exceeds maximum allowed size"
  const DataRequired: string := "File data is required"

  /** What `FileUploadSchema` accepts: a name, a type mentioning "pdf" (case-sensitive),
      a positive size within the limit, and some data. */
  predicate ValidFileUpload(f: FileUpload, maxFileSize: int)
    ensures ValidFileUpload(f, maxFileSize) ==> f.name != [] && f.data != [] && 0 < f.size <= maxFileSize
    ensures ValidFileUpload(f, maxFileSize) ==> |f.mimeType| >= 3
    ensures f.name != [] && f.data != [] && 0 < f.size <= maxFileSize && f.mimeType == PdfMimeType ==>
      ValidFileUpload(f, maxFileSize)
  {
    assert PdfMimeType[|PdfMimeType| - 3..] == "pdf";
    |f.name| >= 1 && Contains(f.mimeType, "pdf") && 0 < f.size <= maxFileSize && |f.data| >= 1
  }

  /** The type a browser gives a PDF file. */
  const PdfMimeType: string := "application/pdf"

  /** Only the upload of which `condition` fails gets an issue, with `message`. */
  function IssueIf(condition: bool, field: string, key: string, message: string): (r: seq<Issue>)
    ensures r == [] <==> condition
    ensures !condition ==> r == [Issue([field, key], message)]
  {
    if condition then [] else [Issue([field, key], message)]
  }

  /** The issues `FileUploadSchema` reports for the upload at `field`, in schema order:
      name, type, size (sign, then limit), data. */
  function FileUploadIssues(field: string, f: FileUpload, maxFileSize: int): (r: seq<Issue>)
    ensures r == [] <==> ValidFileUpload(f, maxFileSize)
    ensures forall i :: 0 <= i < |r| ==> |r[i].path| == 2 && r[i].path[0] == field
    ensures f.name == [] ==> r[0] == Issue([field, "name"], NameRequired)
  {
    var r := IssueIf(|f.name| >= 1, field, "name", NameRequired)
      + IssueIf(Contains(f.mimeType, "pdf"), field, "type", MustBePdf)
      + IssueIf(f.size > 0, field, "size", SizeMustBePositive)
      + IssueIf(f.size <= maxFileSize, field, "size", SizeTooLarge)
      + IssueIf(|f.data| >= 1, field, "data", DataRequired);
    r
  }

  /** `AnalyzeProfileInputSchema`: the job description's issues, then the CV's. */
  function InputIssues(input: AnalyzeProfileInput, maxFileSize: int): (r: seq<Issue>)
    ensures r == [] <==> ValidFileUpload(input.jobDescription, maxFileSize) && ValidFileUpload(input.cv, maxFileSize)
  {
    FileUploadIssues("jobDescription", input.jobDescription, maxFileSize)
      + FileUploadIssues("cv", input.cv, maxFileSize)
  }

  // ---------------------------------------------------------------------------
  // The mutation
  // ---------------------------------------------------------------------------

  /** The foreign calls the procedure makes: the PDF parser, the POST to Gemini, and
      `JSON.parse`; and the instruction text that closes the prompt, which the server
      fixes to `AiService.PromptInstructions`. */
  datatype Collaborators = Collaborators(
    parsePdf: seq<Byte> -> Result<string, Thrown>,
    post: GenerateContentRequest -> HttpOutcome,
    jsonParse: string -> Option<Json>,
    promptInstructions: string)

  const JobDescriptionNotPdf: string := "Job description file is not a valid PDF"
  const CvNotPdf: string := "CV file is not a valid PDF"
  const JobDescriptionUnreadable: string := "Job description PDF appears to be empty or unreadable"
  const CvUnreadable: string := "CV PDF appears to be empty or unreadable"

  /** The fewest UTF-16 code units (JavaScript's `.length`) an extracted text must keep
      after trimming. */
  const MinTextLength: int := 10

  function BadRequestError(message: string): Thrown {
    Trpc(TrpcError(BadRequest, message, NoCause))
  }

  /** The checks of the `try` block before the analysis: both magic checks (job
      description first), both extractions (job description first), both length
      checks. The result is the pair (job description text, CV text). */
  function CheckedTexts(input: AnalyzeProfileInput, env: Collaborators): (r: Result<(string, string), Thrown>)
    ensures r.Ok? ==> IsValidPdf(input.jobDescription.data) && IsValidPdf(input.cv.data)
    ensures r.Ok? ==> Normalized(r.value.0) && Utf16Length(Trim(r.value.0)) >= MinTextLength
    ensures r.Ok? ==> Normalized(r.value.1) && Utf16Length(Trim(r.value.1)) >= MinTextLength
  {
    if !IsValidPdf(input.jobDescription.data) then Err(BadRequestError(JobDescriptionNotPdf))
    else if !IsValidPdf(input.cv.data) then Err(BadRequestError(CvNotPdf))
    else
      match ExtractTextFromBase64(input.jobDescription.data, env.parsePdf)
      case Err(e) => Err(e)
      case Ok(jobDescriptionText) =>
        match ExtractTextFromBase64(input.cv.data, env.parsePdf)
        case Err(e) => Err(e)
        case Ok(cvText) =>
          if Utf16Length(Trim(jobDescriptionText)) < MinTextLength then Err(BadRequestError(JobDescriptionUnreadable))
          else if Utf16Length(Trim(cvText)) < MinTextLength then Err(BadRequestError(CvUnreadable))
          else Ok((jobDescriptionText, cvText))
  }

  /** The body of the `try` block: the checks, then the analysis of the CV against the
      job description. */
  function RunMutation(input: AnalyzeProfileInput, env: Collaborators): (r: Result<AnalyzeProfileOutput, Thrown>)
    ensures r.Ok? ==> r.value.success && r.value.analysis.Some? && r.value.error.None?
    ensures r.Ok? ==> WellFormed(r.value.analysis.value)
    ensures CheckedTexts(input, env).Err? ==> r == Err(CheckedTexts(input, env).error)
  {
    match CheckedTexts(input, env)
    case Err(e) => Err(e)
    case Ok(texts) =>
      match AnalyzeProfile(texts.1, texts.0, env.promptInstructions, env.post, env.jsonParse)
      case Err(e) => Err(e)
      case Ok(analysis) => Ok(AnalyzeProfileOutput(true, Some(analysis), None))
  }

  const PdfProcessingPrefix: string := "PDF processing error: "
  const AiServicePrefix: string := "AI service error: "
  const UnexpectedError: string := "An unexpected error occurred"

  /** The `catch` block: a tRPC error goes out unchanged; otherwise an `Error` whose
      message mentions "PDF" is a BAD_REQUEST, one that mentions "API" an
      INTERNAL_SERVER_ERROR marked as the AI service's, and anything else an
      INTERNAL_SERVER_ERROR, each with what was thrown as its cause. */
  function ClassifyError(e: Thrown): (r: TrpcError)
    ensures e.Trpc? ==> r == e.error
    ensures !e.Trpc? ==> r.cause == Caused(e)
    ensures e.JsError? ==> (r.code == BadRequest <==> Contains(e.message, "PDF"))
    ensures e.JsError? && Contains(e.message, "PDF") ==> r.message == PdfProcessingPrefix + e.message
    ensures e.JsError? && !Contains(e.message, "PDF") && Contains(e.message, "API") ==>
      r.code == InternalServerError && r.message == AiServicePrefix + e.message
    ensures e.JsError? && !Contains(e.message, "PDF") && !Contains(e.message, "API") ==>
      r.code == InternalServerError && r.message == e.message
    ensures e.NonError? ==> r.code == InternalServerError && r.message == UnexpectedError
  {
    match e
    case Trpc(t) => t
    case JsError(m) =>
      if Contains(m, "PDF") then TrpcError(BadRequest, PdfProcessingPrefix + m, Caused(e))
      else if Contains(m, "API") then TrpcError(InternalServerError, AiServicePrefix + m, Caused(e))
      else TrpcError(InternalServerError, m, Caused(e))
    case NonError => TrpcError(InternalServerError, UnexpectedError, Caused(e))
  }

  /** The mutation: its body, with every failure classified. */
  function AnalyzeProfileMutation(input: AnalyzeProfileInput, env: Collaborators): (r: Result<AnalyzeProfileOutput, TrpcError>)
    ensures r.Ok? ==> r.value.success && r.value.analysis.Some? && WellFormed(r.value.analysis.value)
    ensures r.Ok? <==> RunMutation(input, env).Ok?
  {
    match RunMutation(input, env)
    case Ok(output) => Ok(output)
    case Err(e) => Err(ClassifyError(e))
  }

  /** The procedure behind the rate limiter: the input is validated first, and a failed
      validation is a BAD_REQUEST whose cause holds the issues. How the issues are
      rendered into the message is a parameter. */
  function AnalyzeProfileProcedure(input: AnalyzeProfileInput, maxFileSize: int, describeIssues: seq<Issue> -> string, env: Collaborators): (r: Result<AnalyzeProfileOutput, TrpcError>)
    ensures InputIssues(input, maxFileSize) != [] ==>
      r == Err(TrpcError(BadRequest, describeIssues(InputIssues(input, maxFileSize)), ValidationIssues(InputIssues(input, maxFileSize))))
    ensures r.Ok? ==> ValidFileUpload(input.jobDescription, maxFileSize) && ValidFileUpload(input.cv, maxFileSize)
    ensures r.Ok? ==> r.value.success && r.value.analysis.Some? && WellFormed(r.value.analysis.value)
  {
    var issues := InputIssues(input, maxFileSize);
    if issues != [] then Err(TrpcError(BadRequest, describeIssues(issues), ValidationIssues(issues)))
    else AnalyzeProfileMutation(input, env)
  }

  /** `analyzeProfile` as a protected procedure: the rate limiter counts the request
      first, and only a request it lets through reaches validation and the mutation. */
  method HandleAnalyzeProfile(limiter: RateLimiter, ip: Option<string>, remoteAddress: Option<string>, now: int, maxRequests: int,
                              input: AnalyzeProfileInput, maxFileSize: int, describeIssues: seq<Issue> -> string, env: Collaborators)
    returns (r: Result<AnalyzeProfileOutput, TrpcError>)
    requires limiter.Valid()
    modifies limiter
    ensures limiter.Valid()
    ensures var d := Check(old(limiter.requestCounts), ClientKey(ip, remoteAddress), now, maxRequests);
      limiter.requestCounts == d.counts
      && (d.admitted ==> r == AnalyzeProfileProcedure(input, maxFileSize, describeIssues, env))
      && (!d.admitted ==> r == Err(RateLimitError(maxRequests)))
  {
    var key := ClientKey(ip, remoteAddress);
    var limited := limiter.CheckAndIncrement(key, now, maxRequests);
    if limited.Some? {
      r := Err(limited.value);
    } else {
      r := AnalyzeProfileProcedure(input, maxFileSize, describeIssues, env);
    }
  }

  // ---------------------------------------------------------------------------
  // Properties of the pipeline
  // ---------------------------------------------------------------------------

  /** A failed check reaches the client classified; a refusal the checks raise as a tRPC
      error reaches it unchanged. */
  lemma CheckFailureIsClassified(input: AnalyzeProfileInput, env: Collaborators)
    requires CheckedTexts(input, env).Err?
    ensures AnalyzeProfileMutation(input, env) == Err(ClassifyError(CheckedTexts(input, env).error))
    ensures CheckedTexts(input, env).error.Trpc? ==> AnalyzeProfileMutation(input, env) == Err(CheckedTexts(input, env).error.error)
  {
  }

  /** An invalid input is refused before any foreign call: the result does not depend
      on the collaborators, and its issues reach the client as `zodError`. */
  lemma ValidationComesFirst(input: AnalyzeProfileInput, maxFileSize: int, describeIssues: seq<Issue> -> string,
                             env1: Collaborators, env2: Collaborators, shape: ErrorShape)
    requires !ValidFileUpload(input.jobDescription, maxFileSize) || !ValidFileUpload(input.cv, maxFileSize)
    ensures AnalyzeProfileProcedure(input, maxFileSize, describeIssues, env1)
         == AnalyzeProfileProcedure(input, maxFileSize, describeIssues, env2)
    ensures var r := AnalyzeProfileProcedure(input, maxFileSize, describeIssues, env1);
      r.Err? && r.error.code == BadRequest
      && FormatError(shape, r.error).data.zodError == Some(ValidationIssues(InputIssues(input, maxFileSize)))
  {
  }

  /** Neither file is parsed unless both pass the magic-byte check; the job description
      is checked first and each refusal names its file. */
  lemma MagicChecksComeFirst(input: AnalyzeProfileInput, env1: Collaborators, env2: Collaborators)
    requires !IsValidPdf(input.jobDescription.data) || !IsValidPdf(input.cv.data)
    ensures RunMutation(input, env1) == RunMutation(input, env2)
    ensures !IsValidPdf(input.jobDescription.data) ==>
      AnalyzeProfileMutation(input, env1) == Err(TrpcError(BadRequest, JobDescriptionNotPdf, NoCause))
    ensures IsValidPdf(input.jobDescription.data) ==>
      AnalyzeProfileMutation(input, env1) == Err(TrpcError(BadRequest, CvNotPdf, NoCause))
  {
    assert CheckedTexts(input, env1) == CheckedTexts(input, env2);
  }

  /** "PDF" occurs in the message of every extraction failure. */
  lemma ExtractionFailureMentionsPdf(rest: string)
    ensures Contains(ExtractionFailurePrefix + rest, "PDF")
  {
    assert OccursAt(ExtractionFailurePrefix, "PDF", 28);
    ContainsInPrefix(ExtractionFailurePrefix, rest, "PDF");
  }

  /** Once both files pass the magic-byte check, a failed extraction, of either file, is
      what the checks fail with: the job description's if both fail. */
  lemma ExtractionFailureStopsChecks(input: AnalyzeProfileInput, env: Collaborators)
    requires IsValidPdf(input.jobDescription.data) && IsValidPdf(input.cv.data)
    ensures var jd := ExtractTextFromBase64(input.jobDescription.data, env.parsePdf);
      jd.Err? ==> CheckedTexts(input, env) == Err(jd.error)
    ensures var jd := ExtractTextFromBase64(input.jobDescription.data, env.parsePdf);
      var cv := ExtractTextFromBase64(input.cv.data, env.parsePdf);
      jd.Ok? && cv.Err? ==> CheckedTexts(input, env) == Err(cv.error)
  {
  }

  /** An extraction failure ends as a BAD_REQUEST reporting a PDF processing error. */
  lemma ExtractionFailureIsBadRequest(e: Thrown)
    requires e.JsError? && ExtractionFailurePrefix <= e.message
    ensures ClassifyError(e).code == BadRequest
    ensures ClassifyError(e).message == PdfProcessingPrefix + e.message
    ensures PdfProcessingPrefix + ExtractionFailurePrefix <= ClassifyError(e).message
  {
    var rest := e.message[|ExtractionFailurePrefix|..];
    assert e.message == ExtractionFailurePrefix + rest;
    ExtractionFailureMentionsPdf(rest);
    assert PdfProcessingPrefix + e.message == PdfProcessingPrefix + ExtractionFailurePrefix + rest;
  }

  /** A text that trims to fewer than ten characters is refused as unreadable, the job
      description's before the CV's. */
  lemma ShortTextIsRefused(input: AnalyzeProfileInput, env: Collaborators)
    requires IsValidPdf(input.jobDescription.data) && IsValidPdf(input.cv.data)
    requires ExtractTextFromBase64(input.jobDescription.data, env.parsePdf).Ok?
    requires ExtractTextFromBase64(input.cv.data, env.parsePdf).Ok?
    ensures var jd := ExtractTextFromBase64(input.jobDescription.data, env.parsePdf).value;
      Utf16Length(Trim(jd)) < MinTextLength ==> CheckedTexts(input, env) == Err(BadRequestError(JobDescriptionUnreadable))
    ensures var jd := ExtractTextFromBase64(input.jobDescription.data, env.parsePdf).value;
      var cv := ExtractTextFromBase64(input.cv.data, env.parsePdf).value;
      Utf16Length(Trim(jd)) >= MinTextLength && Utf16Length(Trim(cv)) < MinTextLength ==>
        CheckedTexts(input, env) == Err(BadRequestError(CvUnreadable))
    ensures var jd := ExtractTextFromBase64(input.jobDescription.data, env.parsePdf).value;
      var cv := ExtractTextFromBase64(input.cv.data, env.parsePdf).value;
      Utf16Length(Trim(jd)) >= MinTextLength && Utf16Length(Trim(cv)) >= MinTextLength ==> CheckedTexts(input, env) == Ok((jd, cv))
  {
  }

  /** Once every check passes, the outcome is that of the AI call on the CV text and the
      job description text: an analysis whose score lies in [0, 100], or the classified
      failure. */
  lemma AiOutcomeReachesClient(input: AnalyzeProfileInput, env: Collaborators)
    requires CheckedTexts(input, env).Ok?
    ensures var texts := CheckedTexts(input, env).value;
      var call := CallGeminiApi(AnalysisRequest(texts.1, texts.0, env.promptInstructions), env.post);
      var r := AnalyzeProfileMutation(input, env);
      (call.Ok? ==> r == Ok(AnalyzeProfileOutput(true, Some(ParseAnalysisResponse(call.value, env.jsonParse)), None)))
      && (call.Err? ==> r == Err(ClassifyError(JsError(AnalyzeFailurePrefix + MessageOr(call.error, "Unknown error")))))
  {
    var texts := CheckedTexts(input, env).value;
    var a := AnalyzeProfile(texts.1, texts.0, env.promptInstructions, env.post, env.jsonParse);
    assert RunMutation(input, env) == if a.Ok? then Ok(AnalyzeProfileOutput(true, Some(a.value), None)) else Err(a.error);
  }

  /** The message `analyzeProfile` throws for a failed POST to Gemini. */
  function HttpFailureText(status: Option<int>, bodyMessage: Option<string>, message: string): string {
    AnalyzeFailurePrefix + FailureMessage(status, FailureDetail(bodyMessage, message))
  }

  /** A vendor 401 reaches the client as an AI service error. */
  lemma Unauthorized401IsAiServiceError(bodyMessage: Option<string>, message: string)
    ensures var m := HttpFailureText(Some(401), bodyMessage, message);
      ClassifyError(JsError(m)) == TrpcError(InternalServerError, AiServicePrefix + m, Caused(JsError(m)))
  {
    var m := HttpFailureText(Some(401), bodyMessage, message);
    assert m == AnalyzeFailurePrefix + AuthenticationFailed;
    AuthenticationFailureMentionsApi();
  }

  lemma AuthenticationFailureMentionsApi()
    ensures var m := AnalyzeFailurePrefix + AuthenticationFailed;
      !Contains(m, "PDF") && Contains(m, "API")
  {
    AuthenticationFailureLacksPdf();
    assert OccursAt(AuthenticationFailed, "API", 41);
    ContainsInSuffix(AnalyzeFailurePrefix, AuthenticationFailed, "API");
  }

  lemma AuthenticationFailureLacksPdf()
    ensures !Contains(AnalyzeFailurePrefix + AuthenticationFailed, "PDF")
  {
    assert 'D' !in AnalyzeFailurePrefix;
    assert 'D' !in AuthenticationFailed;
    MissingCharNotContained(AnalyzeFailurePrefix + AuthenticationFailed, "PDF", 'D');
  }

  /** A vendor 429 mentions neither "PDF" nor "API", so it falls through to the generic
      INTERNAL_SERVER_ERROR with the message unchanged. */
  lemma TooManyRequests429IsGeneric(bodyMessage: Option<string>, message: string)
    ensures var m := HttpFailureText(Some(429), bodyMessage, message);
      ClassifyError(JsError(m)) == TrpcError(InternalServerError, m, Caused(JsError(m)))
  {
    var m := HttpFailureText(Some(429), bodyMessage, message);
    assert m == AnalyzeFailurePrefix + RateLimitedByVendor;
    VendorRateLimitMentionsNeither();
  }

  lemma VendorRateLimitMentionsNeither()
    ensures var m := AnalyzeFailurePrefix + RateLimitedByVendor;
      !Contains(m, "PDF") && !Contains(m, "API")
  {
    assert 'D' !in AnalyzeFailurePrefix;
    assert 'D' !in RateLimitedByVendor;
    MissingCharNotContained(AnalyzeFailurePrefix + RateLimitedByVendor, "PDF", 'D');
    VendorRateLimitLacksApi();
  }

  lemma VendorRateLimitLacksApi()
    ensures !Contains(AnalyzeFailurePrefix + RateLimitedByVendor, "API")
  {
    assert 'I' !in AnalyzeFailurePrefix;
    assert 'I' !in RateLimitedByVendor;
    MissingCharNotContained(AnalyzeFailurePrefix + RateLimitedByVendor, "API", 'I');
  }

  /** A vendor 400 is a BAD_REQUEST for the client exactly when its detail mentions
      "PDF"; otherwise it is an INTERNAL_SERVER_ERROR, marked as the AI service's exactly
      when the detail mentions "API". */
  lemma BadRequest400DependsOnDetail(bodyMessage: Option<string>, message: string)
    ensures var d := FailureDetail(bodyMessage, message);
      var r := ClassifyError(JsError(HttpFailureText(Some(400), bodyMessage, message)));
      (r.code == BadRequest <==> Contains(d, "PDF"))
      && (!Contains(d, "PDF") ==>
            r.code == InternalServerError
            && (r.message == AiServicePrefix + HttpFailureText(Some(400), bodyMessage, message) <==> Contains(d, "API")))
  {
    var d := FailureDetail(bodyMessage, message);
    var a := AnalyzeFailurePrefix + BadRequestPrefix;
    assert HttpFailureText(Some(400), bodyMessage, message) == a + d;
    BadRequestPrefixMentionsNeither();
    ContainsAfterSeparator(a, d, "PDF");
    ContainsAfterSeparator(a, d, "API");
  }

  lemma BadRequestPrefixMentionsNeither()
    ensures var a := AnalyzeFailurePrefix + BadRequestPrefix;
      !Contains(a, "PDF") && !Contains(a, "API") && a[|a| - 1] == ' '
  {
    var a := AnalyzeFailurePrefix + BadRequestPrefix;
    assert 'D' !in AnalyzeFailurePrefix && 'D' !in BadRequestPrefix;
    assert 'I' !in AnalyzeFailurePrefix && 'I' !in BadRequestPrefix;
    MissingCharNotContained(a, "PDF", 'D');
    MissingCharNotContained(a, "API", 'I');
  }

  /** Any other status, or none, is a BAD_REQUEST exactly when its detail mentions
      "PDF", and an AI service error otherwise. */
  lemma OtherStatusIsAiServiceError(status: Option<int>, bodyMessage: Option<string>, message: string)
    requires status != Some(401) && status != Some(429) && status != Some(400)
    ensures var d := FailureDetail(bodyMessage, message);
      var m := HttpFailureText(status, bodyMessage, message);
      (ClassifyError(JsError(m)).code == BadRequest <==> Contains(d, "PDF"))
      && (!Contains(d, "PDF") ==> ClassifyError(JsError(m)) == TrpcError(InternalServerError, AiServicePrefix + m, Caused(JsError(m))))
  {
    var d := FailureDetail(bodyMessage, message);
    var a := AnalyzeFailurePrefix + RequestFailedPrefix;
    var m := HttpFailureText(status, bodyMessage, message);
    assert m == a + d;
    RequestFailedPrefixMentionsApi();
    ContainsAfterSeparator(a, d, "PDF");
    ContainsInPrefix(a, d, "API");
  }

  lemma RequestFailedPrefixMentionsApi()
    ensures var a := AnalyzeFailurePrefix + RequestFailedPrefix;
      !Contains(a, "PDF") && Contains(a, "API") && a[|a| - 1] == ' '
  {
    var a := AnalyzeFailurePrefix + RequestFailedPrefix;
    assert 'D' !in AnalyzeFailurePrefix && 'D' !in RequestFailedPrefix;
    MissingCharNotContained(a, "PDF", 'D');
    assert OccursAt(RequestFailedPrefix, "API", 0);
    ContainsInSuffix(AnalyzeFailurePrefix, RequestFailedPrefix, "API");
  }

  /** An empty reply body from Gemini is reported as an AI service error. */
  lemma EmptyReplyIsAiServiceError()
    ensures var m := AnalyzeFailurePrefix + EmptyResponse;
      ClassifyError(JsError(m)) == TrpcError(InternalServerError, AiServicePrefix + m, Caused(JsError(m)))
  {
    var m := AnalyzeFailurePrefix + EmptyResponse;
    assert 'D' !in AnalyzeFailurePrefix && 'D' !in EmptyResponse;
    MissingCharNotContained(m, "PDF", 'D');
    assert OccursAt(EmptyResponse, "API", 27);
    ContainsInSuffix(AnalyzeFailurePrefix, EmptyResponse, "API");
  }

  /** Because a PDF processing error is a BAD_REQUEST with a cause, the formatter puts the
      caught `Error`, not a list of schema issues, into `zodError`. */
  lemma PdfErrorCauseBecomesZodError(message: string, shape: ErrorShape)
    requires Contains(message, "PDF")
    ensures FormatError(shape, ClassifyError(JsError(message))).data.zodError == Some(Caused(JsError(message)))
  {
  }
}
