/** `AIService` (packages/server/src/services/ai.service.ts): the prompt and request sent
    to Gemini, the mapping of HTTP failures to error messages, and the sanitiser that
    turns an untrusted reply into an `AnalysisResult` without ever failing. The HTTP
    POST and `JSON.parse` are parameters. */
module AiService {
  import opened Wrappers
  import opened JsStrings
  import opened Errors
  import opened AiTypes

  // ---------------------------------------------------------------------------
  // buildAnalysisPrompt and buildGeminiRequest
  // ---------------------------------------------------------------------------

  const JobDescriptionHeading: string := "JOB DESCRIPTION:\n"
  const CandidateCvHeading: string := "CANDIDATE CV:\n"

  const PromptPreamble: string :=
    "\nYou are an expert HR analyst and recruiter. Analyze the following CV against the job "
    + "description and provide a comprehensive evaluation.\n\n"

  /** The fixed text the template puts after the CV: the JSON shape asked for and what
      to focus on, one line per piece. */
  const PromptInstructions: string :=
    "\n"
    + "\nPlease provide a detailed analysis in the following JSON format:"
    + "\n{"
    + "\n  \"strengths\": [\"List of candidate's key strengths relevant to the job\"],"
    + "\n  \"weaknesses\": [\"List of areas where candidate may be lacking\"],"
    + "\n  \"alignment\": {"
    + "\n    \"score\": 0-100,"
    + "\n    \"explanation\": \"Detailed explanation of how well the candidate aligns with the job requirements\""
    + "\n  },"
    + "\n  \"recommendations\": [\"Specific recommendations for the candidate or hiring manager\"]"
    + "\n}"
    + "\n"
    + "\nFocus on:"
    + "\n1. Technical skills match"
    + "\n2. Experience relevance"
    + "\n3. Education alignment"
    + "\n4. Soft skills indicators"
    + "\n5. Career progression"
    + "\n6. Cultural fit indicators"
    + "\n7. Gaps or red flags"
    + "\n"
    + "\nProvide specific examples from the CV to support your analysis. Be objective and balanced in your assessment."
    + "\n"

  /** Where each piece of a seven-piece concatenation lies. */
  lemma Layout(a: string, h: string, x: string, m: string, k: string, y: string, z: string)
    ensures var r := a + h + x + m + k + y + z;
      a <= r && OccursAt(r, h + x, |a|) && OccursAt(r, k + y, |a| + |h| + |x| + |m|)
      && r[|r| - |z|..] == z
  {
    var r := a + h + x + m + k + y + z;
    assert r == a + (h + x) + m + (k + y) + z;
  }

  /** `buildAnalysisPrompt`: the job description right under its heading, then the CV
      right under its own heading, then the instructions. The server always passes
      `PromptInstructions`; the functions that build on this one take the text as a
      parameter, so that reasoning about them does not carry its 731 characters. */
  function BuildAnalysisPrompt(cvText: string, jobDescriptionText: string, instructions: string): (r: string)
    ensures |r| == |PromptPreamble| + |JobDescriptionHeading| + |jobDescriptionText| + 2
      + |CandidateCvHeading| + |cvText| + |instructions|
    ensures PromptPreamble <= r
    ensures OccursAt(r, JobDescriptionHeading + jobDescriptionText, |PromptPreamble|)
    ensures OccursAt(r, CandidateCvHeading + cvText,
      |PromptPreamble| + |JobDescriptionHeading| + |jobDescriptionText| + 2)
  {
    Layout(PromptPreamble, JobDescriptionHeading, jobDescriptionText, "\n\n", CandidateCvHeading, cvText, instructions);
    PromptPreamble + JobDescriptionHeading + jobDescriptionText + "\n\n" + CandidateCvHeading + cvText + instructions
  }

  /** The instructions close the prompt. */
  lemma PromptEndsWithInstructions(cvText: string, jobDescriptionText: string, instructions: string)
    ensures var r := BuildAnalysisPrompt(cvText, jobDescriptionText, instructions);
      r[|r| - |instructions|..] == instructions
  {
    Layout(PromptPreamble, JobDescriptionHeading, jobDescriptionText, "\n\n", CandidateCvHeading, cvText, instructions);
  }

  /** The prompt determines the texts in it, given where the job description ends. */
  lemma PromptDeterminesTexts(cv1: string, jd1: string, cv2: string, jd2: string, instructions: string)
    requires |jd1| == |jd2|
    requires BuildAnalysisPrompt(cv1, jd1, instructions) == BuildAnalysisPrompt(cv2, jd2, instructions)
    ensures cv1 == cv2 && jd1 == jd2
  {
    var p := BuildAnalysisPrompt(cv1, jd1, instructions);
    SuffixAfterHeading(p, JobDescriptionHeading, jd1, jd2, |PromptPreamble|);
    var c := |PromptPreamble| + |JobDescriptionHeading| + |jd1| + 2;
    var n := |p| - |instructions| - c - |CandidateCvHeading|;
    assert |cv1| == n == |cv2|;
    SuffixAfterHeading(p, CandidateCvHeading, cv1, cv2, c);
  }

  /** Two texts of one length found at one place under one heading are equal. */
  lemma SuffixAfterHeading(p: string, h: string, x1: string, x2: string, i: int)
    requires |x1| == |x2| && OccursAt(p, h + x1, i) && OccursAt(p, h + x2, i)
    ensures x1 == x2
  {
    assert h + x1 == p[i..i + |h| + |x1|] == h + x2;
    assert x1 == (h + x1)[|h|..] == (h + x2)[|h|..] == x2;
  }

  /** `buildGeminiRequest`: one content, written by the user, with one part holding the
      prompt. */
  function BuildGeminiRequest(prompt: string): (r: GenerateContentRequest)
    ensures |r.contents| == 1
    ensures r.contents[0].role == Some("user")
    ensures r.contents[0].parts == Some([Part(Some(prompt))])
  {
    GenerateContentRequest([Content(Some([Part(Some(prompt))]), Some("user"))])
  }

  /** The request sent for an analysis. */
  function AnalysisRequest(cvText: string, jobDescriptionText: string, instructions: string): GenerateContentRequest {
    BuildGeminiRequest(BuildAnalysisPrompt(cvText, jobDescriptionText, instructions))
  }

  // ---------------------------------------------------------------------------
  // callGeminiAPI
  // ---------------------------------------------------------------------------

  /** What the POST to the Gemini endpoint ended in. */
  datatype HttpOutcome =
    | Responded(data: Option<GenerateContentResponse>)   // a 2xx reply; `None` for an empty body
    | AxiosFailure(status: Option<int>, bodyMessage: Option<string>, message: string)
    | OtherFailure(thrown: Thrown)                        // anything axios does not raise

  const AuthenticationFailed: string := "Authentication failed. " + "Please check your API token."
  const RateLimitedByVendor: string := "Rate limit exceeded. " + "Please try again later."
  const EmptyResponse: string := "Empty response from Gemini API"
  const BadRequestPrefix: string := "Bad request: "
  const RequestFailedPrefix: string := "API request failed: "

  /** `error.response?.data?.message || error.message`. */
  function FailureDetail(bodyMessage: Option<string>, message: string): (r: string)
    ensures bodyMessage.Some? && bodyMessage.value != [] ==> r == bodyMessage.value
    ensures bodyMessage.None? || bodyMessage.value == [] ==> r == message
  {
    if bodyMessage.Some? && bodyMessage.value != [] then bodyMessage.value else message
  }

  /** The message of the error thrown for a failed HTTP call: 401 and 429 have fixed
      messages that drop the detail, 400 and every other status (or none) carry it. */
  function FailureMessage(status: Option<int>, detail: string): (r: string)
    ensures status == Some(401) ==> r == AuthenticationFailed
    ensures status == Some(429) ==> r == RateLimitedByVendor
    ensures status == Some(400) ==> r == BadRequestPrefix + detail
    ensures status != Some(401) && status != Some(429) && status != Some(400) ==>
      r == RequestFailedPrefix + detail
  {
    if status == Some(401) then AuthenticationFailed
    else if status == Some(429) then RateLimitedByVendor
    else if status == Some(400) then BadRequestPrefix + detail
    else RequestFailedPrefix + detail
  }

  /** `callGeminiAPI`: the reply's body, or the error the call throws. */
  function CallGeminiApi(request: GenerateContentRequest, post: GenerateContentRequest -> HttpOutcome): (r: Result<GenerateContentResponse, Thrown>)
    ensures r.Ok? <==> post(request).Responded? && post(request).data.Some?
    ensures r.Ok? ==> r.value == post(request).data.value
    ensures post(request).Responded? && post(request).data.None? ==> r == Err(JsError(EmptyResponse))
    ensures post(request).AxiosFailure? ==>
      r == Err(JsError(FailureMessage(post(request).status, FailureDetail(post(request).bodyMessage, post(request).message))))
    ensures post(request).OtherFailure? ==> r == Err(post(request).thrown)
  {
    match post(request)
    case Responded(data) =>
      if data.Some? then Ok(data.value) else Err(JsError(EmptyResponse))
    case AxiosFailure(status, bodyMessage, message) =>
      Err(JsError(FailureMessage(status, FailureDetail(bodyMessage, message))))
    case OtherFailure(thrown) => Err(thrown)
  }

  // ---------------------------------------------------------------------------
  // parseAnalysisResponse
  // ---------------------------------------------------------------------------

  /** Why a reply could not be read; every one of them ends in the fallback analysis. */
  datatype ParseFailure = NoCandidates | NoContent | NoTextContent | NoJsonFound | InvalidJson | NullData

  /** `part.text` is truthy: present and non-empty. */
  predicate HasText(p: Part) {
    p.text.Some? && p.text.value != []
  }

  /** `parts.find(part => part.text)`: the index of the first part with a non-empty text. */
  function FindTextPart(parts: seq<Part>): (r: Option<nat>)
    ensures r.Some? ==> r.value < |parts| && HasText(parts[r.value])
    ensures r.Some? ==> forall j :: 0 <= j < r.value ==> !HasText(parts[j])
    ensures r.None? <==> forall j :: 0 <= j < |parts| ==> !HasText(parts[j])
  {
    if parts == [] then None
    else if HasText(parts[0]) then Some(0)
    else
      match FindTextPart(parts[1..])
      case Some(i) => Some(i + 1)
      case None => None
  }

  /** The index of the first occurrence of `c`. */
  function FirstIndexOf(s: string, c: char): (r: Option<nat>)
    ensures r.Some? ==> r.value < |s| && s[r.value] == c && c !in s[..r.value]
    ensures r.None? <==> c !in s
  {
    if s == [] then None
    else if s[0] == c then Some(0)
    else
      match FirstIndexOf(s[1..], c)
      case Some(i) =>
        assert s[..i + 1] == [s[0]] + s[1..][..i];
        Some(i + 1)
      case None => None
  }

  /** The index of the last occurrence of `c`. */
  function LastIndexOf(s: string, c: char): (r: Option<nat>)
    ensures r.Some? ==> r.value < |s| && s[r.value] == c && c !in s[r.value + 1..]
    ensures r.None? <==> c !in s
  {
    if s == [] then None
    else if s[|s| - 1] == c then Some(|s| - 1)
    else
      var init := s[..|s| - 1];
      match LastIndexOf(init, c)
      case Some(i) =>
        assert s[i + 1..] == init[i + 1..] + [s[|s| - 1]];
        Some(i)
      case None =>
        assert s == init + [s[|s| - 1]];
        None
  }

  /** A `{` somewhere before a `}`. */
  predicate BracePair(text: string, i: int, j: int) {
    0 <= i < j < |text| && text[i] == '{' && text[j] == '}'
  }

  /** `text.match(/\{[\s\S]*\}/)`: the leftmost, longest slice that opens with `{` and
      closes with `}`, i.e. from the first `{` to the last `}`; there is one exactly when
      some `}` follows some `{`. */
  function JsonSpan(text: string): (r: Option<string>)
    ensures r.Some? <==> exists i, j :: BracePair(text, i, j)
    ensures r.Some? ==> |r.value| >= 2 && r.value[0] == '{' && r.value[|r.value| - 1] == '}'
    ensures r.Some? ==> exists i :: OccursAt(text, r.value, i) && '{' !in text[..i] && '}' !in text[i + |r.value|..]
  {
    var first := FirstIndexOf(text, '{');
    var last := LastIndexOf(text, '}');
    if first.Some? && last.Some? && first.value < last.value then
      var f := first.value;
      var l := last.value;
      assert BracePair(text, f, l);
      assert OccursAt(text, text[f..l + 1], f);
      Some(text[f..l + 1])
    else
      None
  }

  /** A JSON object the model wraps in prose: the span is the object itself, as long as
      the prose before it holds no `{` and the prose after it no `}`. */
  lemma SpanOfWrappedObject(prose: string, obj: string, trailer: string)
    requires |obj| >= 2 && obj[0] == '{' && obj[|obj| - 1] == '}'
    requires '{' !in prose && '}' !in trailer
    ensures JsonSpan(prose + obj + trailer) == Some(obj)
  {
    var t := prose + obj + trailer;
    assert BracePair(t, |prose|, |prose| + |obj| - 1);
    var s := JsonSpan(t).value;
    assert s == t[|prose|..|prose| + |obj|] == obj;
  }

  /** A candidate whose content holds at least one part. */
  predicate HasParts(c: Candidate) {
    c.content.Some? && c.content.value.parts.Some? && c.content.value.parts.value != []
  }

  /** The reply has a first candidate, and that candidate has parts. */
  predicate HasFirstParts(response: GenerateContentResponse) {
    response.candidates.Some? && response.candidates.value != [] && HasParts(response.candidates.value[0])
  }

  function FirstParts(response: GenerateContentResponse): seq<Part>
    requires HasFirstParts(response)
  {
    response.candidates.value[0].content.value.parts.value
  }

  /** The text `parseAnalysisResponse` reads: that of the first part with text in the
      first candidate. Later candidates are never looked at; a missing candidate list, a
      first candidate without parts and parts without text are the three failures. */
  function ReplyText(response: GenerateContentResponse): (r: Result<string, ParseFailure>)
    ensures r == Err(NoCandidates) <==> response.candidates.None? || response.candidates.value == []
    ensures r == Err(NoContent) <==>
      response.candidates.Some? && response.candidates.value != [] && !HasParts(response.candidates.value[0])
    ensures r == Err(NoTextContent) <==>
      HasFirstParts(response) && forall j :: 0 <= j < |FirstParts(response)| ==> !HasText(FirstParts(response)[j])
    ensures r.Ok? ==> HasFirstParts(response)
    ensures r.Ok? ==> exists i :: 0 <= i < |FirstParts(response)| && HasText(FirstParts(response)[i]) &&
                                   (forall j :: 0 <= j < i ==> !HasText(FirstParts(response)[j])) &&
                                   r.value == FirstParts(response)[i].text.value
    ensures r.Ok? ==> r.value != []
  {
    if response.candidates.None? || |response.candidates.value| == 0 then Err(NoCandidates)
    else if !HasParts(response.candidates.value[0]) then Err(NoContent)
    else
      var parts := FirstParts(response);
      match FindTextPart(parts)
      case None => Err(NoTextContent)
      case Some(i) => Ok(parts[i].text.value)
  }

  /** The parsed value of the reply's JSON span: the reply text's failure, no span
      (`NoJsonFound`) or a span that does not parse (`InvalidJson`), else what the parser
      returned for the span. */
  function AnalysisData(response: GenerateContentResponse, jsonParse: string -> Option<Json>): (r: Result<Json, ParseFailure>)
    ensures ReplyText(response).Err? ==> r == Err(ReplyText(response).error)
    ensures ReplyText(response).Ok? && JsonSpan(ReplyText(response).value).None? ==> r == Err(NoJsonFound)
    ensures r == Err(InvalidJson) <==> (ReplyText(response).Ok? && JsonSpan(ReplyText(response).value).Some?
      && jsonParse(JsonSpan(ReplyText(response).value).value).None?)
    ensures r.Ok? ==> ReplyText(response).Ok? && JsonSpan(ReplyText(response).value).Some?
    ensures r.Ok? ==> jsonParse(JsonSpan(ReplyText(response).value).value) == Some(r.value)
  {
    match ReplyText(response)
    case Err(e) => Err(e)
    case Ok(text) =>
      match JsonSpan(text)
      case None => Err(NoJsonFound)
      case Some(span) =>
        match jsonParse(span)
        case None => Err(InvalidJson)
        case Some(data) => Ok(data)
  }

  /** `Math.max(0, Math.min(100, n))`. */
  function Clamp(n: int): (r: int)
    ensures 0 <= r <= 100
    ensures 0 <= n <= 100 ==> r == n
    ensures n < 0 ==> r == 0
    ensures n > 100 ==> r == 100
  {
    if n < 0 then 0 else if n > 100 then 100 else n
  }

  /** `Array.isArray(v) ? v : []`: an array's items pass through, anything else (absent,
      `null`, a string, an object) becomes the empty list. */
  function ListOrEmpty(v: Option<Json>): (r: seq<Json>)
    ensures IsArray(v) ==> r == v.value.items
    ensures !IsArray(v) ==> r == []
  {
    if v.Some? && v.value.JArray? then v.value.items else []
  }

  const DefaultExplanation: string := "No alignment explanation provided"

  /** A score is read only from a number. */
  predicate IsNumber(v: Option<Json>) {
    v.Some? && v.value.JNumber?
  }

  predicate IsArray(v: Option<Json>) {
    v.Some? && v.value.JArray?
  }

  /** The coercion of a parsed reply to an `AnalysisResult`: arrays pass through and
      anything else becomes the empty list, a numeric score is clamped to [0, 100] and
      anything else becomes 0, a truthy explanation is kept and a falsy one replaced.
      Reading a property of `null` throws, which the caller turns into the fallback. */
  function Sanitize(data: Json): (r: Result<AnalysisResult, ParseFailure>)
    ensures r.Err? <==> data == JNull
    ensures r.Ok? ==> 0 <= r.value.alignment.score <= 100
    ensures r.Ok? ==> var s := PropertyOf(Property(data, "alignment"), "score");
      r.value.alignment.score == (if IsNumber(s) then Clamp(s.value.n) else 0)
    ensures r.Ok? ==> var e := PropertyOf(Property(data, "alignment"), "explanation");
      Some(r.value.alignment.explanation) == (if Truthy(e) then e else Some(JString(DefaultExplanation)))
    ensures r.Ok? ==> r.value.strengths == (if IsArray(Property(data, "strengths")) then Property(data, "strengths").value.items else [])
    ensures r.Ok? ==> r.value.weaknesses == (if IsArray(Property(data, "weaknesses")) then Property(data, "weaknesses").value.items else [])
    ensures r.Ok? ==> r.value.recommendations == (if IsArray(Property(data, "recommendations")) then Property(data, "recommendations").value.items else [])
  {
    if data == JNull then Err(NullData)
    else
      var alignment := Property(data, "alignment");
      var score := PropertyOf(alignment, "score");
      var explanation := PropertyOf(alignment, "explanation");
      Ok(AnalysisResult(
        ListOrEmpty(Property(data, "strengths")),
        ListOrEmpty(Property(data, "weaknesses")),
        Alignment(
          if IsNumber(score) then Clamp(score.value.n) else 0,
          if Truthy(explanation) then explanation.value else JString(DefaultExplanation)),
        ListOrEmpty(Property(data, "recommendations"))))
  }

  /** What the sanitiser guarantees of every analysis it returns. */
  predicate WellFormed(a: AnalysisResult) {
    0 <= a.alignment.score <= 100 && Truthy(Some(a.alignment.explanation))
  }

  /** The JSON object an analysis is written as, in the shape the prompt asks for. */
  function AnalysisToJson(a: AnalysisResult): Json {
    JObject(map[
      "strengths" := JArray(a.strengths),
      "weaknesses" := JArray(a.weaknesses),
      "alignment" := JObject(map["score" := JNumber(a.alignment.score), "explanation" := a.alignment.explanation]),
      "recommendations" := JArray(a.recommendations)])
  }

  /** Sanitising gives back exactly the analysis a reply encodes, when that analysis is
      well formed, and only then. */
  lemma SanitizeRoundTrip(a: AnalysisResult)
    ensures Sanitize(AnalysisToJson(a)) == Ok(a) <==> WellFormed(a)
  {
    var d := AnalysisToJson(a);
    var al := Property(d, "alignment");
    assert al == Some(JObject(map["score" := JNumber(a.alignment.score), "explanation" := a.alignment.explanation]));
    assert PropertyOf(al, "score") == Some(JNumber(a.alignment.score));
    assert PropertyOf(al, "explanation") == Some(a.alignment.explanation);
    assert Property(d, "strengths") == Some(JArray(a.strengths));
    assert Property(d, "weaknesses") == Some(JArray(a.weaknesses));
    assert Property(d, "recommendations") == Some(JArray(a.recommendations));
  }

  /** Every sanitised analysis is well formed, so sanitising it again changes nothing. */
  lemma SanitizeIdempotent(data: Json)
    requires data != JNull
    ensures WellFormed(Sanitize(data).value)
    ensures Sanitize(AnalysisToJson(Sanitize(data).value)) == Sanitize(data)
  {
    SanitizeRoundTrip(Sanitize(data).value);
  }

  /** The analysis returned when the reply cannot be read. */
  const Fallback: AnalysisResult := AnalysisResult(
    [JString("Unable to parse detailed analysis")],
    [JString("Analysis parsing failed")],
    Alignment(0, JString("Could not determine alignment due to parsing error")),
    [JString("Please try again or contact support")])

  /** `parseAnalysisResponse`: never fails; every failure to read the reply yields the
      fallback analysis, and the score always lies in [0, 100]. */
  function ParseAnalysisResponse(response: GenerateContentResponse, jsonParse: string -> Option<Json>): (r: AnalysisResult)
    ensures WellFormed(r)
    ensures AnalysisData(response, jsonParse).Err? ==> r == Fallback
    ensures AnalysisData(response, jsonParse) == Ok(JNull) ==> r == Fallback
    ensures AnalysisData(response, jsonParse).Ok? && AnalysisData(response, jsonParse).value != JNull ==>
      Ok(r) == Sanitize(AnalysisData(response, jsonParse).value)
  {
    match AnalysisData(response, jsonParse)
    case Err(_) => Fallback
    case Ok(data) =>
      match Sanitize(data)
      case Err(_) => Fallback
      case Ok(a) =>
        SanitizeIdempotent(data);
        a
  }

  /** The five ways a reply is unreadable each give the fallback. */
  lemma UnreadableReplies(response: GenerateContentResponse, jsonParse: string -> Option<Json>)
    ensures response.candidates.None? || response.candidates.value == [] ==>
      ParseAnalysisResponse(response, jsonParse) == Fallback
    ensures ReplyText(response).Ok? && JsonSpan(ReplyText(response).value).None? ==>
      ParseAnalysisResponse(response, jsonParse) == Fallback
    ensures (ReplyText(response).Ok? && JsonSpan(ReplyText(response).value).Some?
      && jsonParse(JsonSpan(ReplyText(response).value).value).None?) ==>
      ParseAnalysisResponse(response, jsonParse) == Fallback
    ensures ReplyText(response).Err? ==> ParseAnalysisResponse(response, jsonParse) == Fallback
  {
  }

  /** Only the first candidate is read. */
  lemma OnlyFirstCandidateRead(c: Candidate, rest1: seq<Candidate>, rest2: seq<Candidate>, jsonParse: string -> Option<Json>)
    ensures ParseAnalysisResponse(GenerateContentResponse(Some([c] + rest1)), jsonParse)
         == ParseAnalysisResponse(GenerateContentResponse(Some([c] + rest2)), jsonParse)
  {
    var r1 := GenerateContentResponse(Some([c] + rest1));
    var r2 := GenerateContentResponse(Some([c] + rest2));
    assert ([c] + rest1)[0] == c && ([c] + rest2)[0] == c;
    assert ReplyText(r1) == ReplyText(r2);
    assert AnalysisData(r1, jsonParse) == AnalysisData(r2, jsonParse);
  }

  /** A reply with one text part. */
  function TextReply(text: string): GenerateContentResponse {
    GenerateContentResponse(Some([Candidate(Some(Content(Some([Part(Some(text))]), Some("model"))))]))
  }

  /** A well-formed analysis that the model wraps in prose comes back unchanged. */
  lemma WrappedAnalysisRead(a: AnalysisResult, prose: string, obj: string, trailer: string, jsonParse: string -> Option<Json>)
    requires WellFormed(a)
    requires |obj| >= 2 && obj[0] == '{' && obj[|obj| - 1] == '}'
    requires '{' !in prose && '}' !in trailer
    requires jsonParse(obj) == Some(AnalysisToJson(a))
    ensures ParseAnalysisResponse(TextReply(prose + obj + trailer), jsonParse) == a
  {
    var text := prose + obj + trailer;
    assert FindTextPart([Part(Some(text))]) == Some(0);
    assert ReplyText(TextReply(text)) == Ok(text);
    SpanOfWrappedObject(prose, obj, trailer);
    SanitizeRoundTrip(a);
  }

  // ---------------------------------------------------------------------------
  // analyzeProfile and testConnection
  // ---------------------------------------------------------------------------

  const AnalyzeFailurePrefix: string := "Failed to analyze profile: "

  /** `analyzeProfile`: build the prompt and the request, call the API, sanitise the
      reply. The reply is always sanitised, so a successful call always yields an
      analysis with a score in [0, 100]; every failure is an `Error` whose message is
      "Failed to analyze profile: " and the message of what was thrown. */
  function AnalyzeProfile(cvText: string, jobDescriptionText: string, instructions: string, post: GenerateContentRequest -> HttpOutcome, jsonParse: string -> Option<Json>): (r: Result<AnalysisResult, Thrown>)
    ensures r.Ok? ==> WellFormed(r.value)
    ensures r.Ok? <==> CallGeminiApi(AnalysisRequest(cvText, jobDescriptionText, instructions), post).Ok?
    ensures r.Ok? ==> r.value == ParseAnalysisResponse(CallGeminiApi(AnalysisRequest(cvText, jobDescriptionText, instructions), post).value, jsonParse)
    ensures r.Err? ==> r.error == JsError(AnalyzeFailurePrefix +
      MessageOr(CallGeminiApi(AnalysisRequest(cvText, jobDescriptionText, instructions), post).error, "Unknown error"))
  {
    match CallGeminiApi(AnalysisRequest(cvText, jobDescriptionText, instructions), post)
    case Ok(response) => Ok(ParseAnalysisResponse(response, jsonParse))
    case Err(e) => Err(JsError(AnalyzeFailurePrefix + MessageOr(e, "Unknown error")))
  }

  /** What the request carries is read back as the prompt: its one text part is the
      first part with text. */
  lemma RequestCarriesPrompt(cvText: string, jobDescriptionText: string, instructions: string)
    ensures var req := AnalysisRequest(cvText, jobDescriptionText, instructions);
      FindTextPart(req.contents[0].parts.value) == Some(0)
      && req.contents[0].parts.value[0].text == Some(BuildAnalysisPrompt(cvText, jobDescriptionText, instructions))
  {
    var p := BuildAnalysisPrompt(cvText, jobDescriptionText, instructions);
    assert p[0] == PromptPreamble[0];
  }

  /** The request `testConnection` sends: one content with the text "Hello" and no role. */
  const TestRequest: GenerateContentRequest :=
    GenerateContentRequest([Content(Some([Part(Some("Hello"))]), None)])

  /** `testConnection`: true exactly when the call succeeds with at least one candidate. */
  function TestConnection(post: GenerateContentRequest -> HttpOutcome): (r: bool)
    ensures r <==> (post(TestRequest).Responded? && post(TestRequest).data.Some?
      && post(TestRequest).data.value.candidates.Some? && |post(TestRequest).data.value.candidates.value| > 0)
  {
    match CallGeminiApi(TestRequest, post)
    case Ok(response) => response.candidates.Some? && |response.candidates.value| > 0
    case Err(_) => false
  }
}
