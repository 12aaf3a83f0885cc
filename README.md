# profile_analyzer server core, in Dafny

This project models the server logic of profile_analyzer. The server receives two PDF
uploads, a job description and a CV. It checks them, extracts and normalises their text,
and asks Google's Gemini model to compare them. It then turns the model's untrusted reply
into a well-formed `AnalysisResult`. Every call is counted by a per-client, fixed-window
rate limiter. The model proves properties of this logic.

Modules, one per source file, plus shared helpers:

- `Wrappers` (`wrappers.dfy`): `Option` and `Result`.
- `JsStrings` (`js_strings.dfy`): the ECMAScript string built-ins the code uses:
  - the `\s` whitespace class;
  - `trim`;
  - `includes`;
  - how a template literal renders an integer.
- `Errors` (`errors.dfy`): what is thrown. That is a plain `Error`, a `TRPCError` with
  its code and cause, or a value that is not an `Error`.
- `AiTypes` (`ai_types.dfy`): the shapes in `ai.types.ts`, plus a JSON value
  (RFC 8259) standing for what `JSON.parse` returns.
- `PdfService` (`pdf_service.dfy`): `cleanText`, Node's lenient base64 decoder, the
  `%PDF` magic check, and the error wrapping of `extractTextFromBase64`.
- `AiService` (`ai_service.dfy`):
  - the prompt and the request;
  - the mapping of HTTP failures to messages;
  - the reply sanitiser `parseAnalysisResponse`;
  - `analyzeProfile`;
  - `testConnection`.
- `Trpc` (`trpc.dfy`): the error formatter, and the rate limiter. The limiter is a
  `RateLimiter` class whose field is the module-level `requestCounts` map. Its methods
  are `CheckAndIncrement` and the periodic `Sweep`.
- `ProfileRouter` (`profile_router.dfy`):
  - the upload schema;
  - the `analyzeProfile` mutation's checks, with early failure;
  - the AI call;
  - the `catch` block's classification by message substring, so that a vendor 400
    becomes BAD_REQUEST only when its message contains "PDF"
    (`BadRequest400DependsOnDetail`);
  - the rate limiter in front of it all.

The following foreign calls are function-valued parameters: the `pdf-parse` parser, the
axios POST to Gemini, and `JSON.parse`. The clock is an integer parameter. So are the
rate limit and the size limit that the code reads from the environment.

## Model

| member | source | states |
|---|---|---|
| JsStrings.Trim | packages/server/src/services/pdf.service.ts:44 | the result is a slice of the input with no whitespace at either end, keeps every non-whitespace character in order, and leaves text without edge whitespace unchanged |
| JsStrings.IsWhitespace | packages/server/src/services/pdf.service.ts:42 | space, tab, LF, CR, vertical tab and form feed belong to `\s`; ASCII letters and digits do not |
| JsStrings.Contains | packages/server/src/trpc/routers/profile.router.ts:12 | `includes` holds only when the part is no longer than the text; it holds for the empty part, for a prefix and for a suffix |
| JsStrings.Utf16Length | packages/server/src/trpc/routers/profile.router.ts:88-100 | `.length` counts UTF-16 code units: between one and two per character, and exactly one per character when no character lies above U+FFFF |
| JsStrings.NatToDecimal | packages/server/src/trpc/trpc.ts:55 | a natural number renders as a non-empty string of decimal digits, with a leading zero only for 0, that denotes the number |
| JsStrings.IntToDecimal | packages/server/src/trpc/trpc.ts:55 | the rendered number starts with `-` exactly for negative numbers; the digits after the sign, or the whole string for other numbers, denote its absolute value |
| PdfService.CollapseWhitespace | packages/server/src/services/pdf.service.ts:42 | `replace(/\s+/g, " ")` never grows the text, and the result starts with whitespace exactly when the input does |
| PdfService.CollapseRunBetween | packages/server/src/services/pdf.service.ts:42 | any non-empty whitespace run between two non-whitespace characters becomes exactly one space, and each side is collapsed on its own |
| PdfService.CollapsedIsSingleSpaced | packages/server/src/services/pdf.service.ts:42 | after `replace(/\s+/g, " ")` every whitespace character is a space and no two whitespace characters are adjacent |
| PdfService.CollapseKeepsWords | packages/server/src/services/pdf.service.ts:42 | collapsing keeps the non-whitespace characters, in order |
| PdfService.CollapseFixesSingleSpaced | packages/server/src/services/pdf.service.ts:42 | single-spaced text is left unchanged by collapsing |
| PdfService.TrimSingleSpacedIsNormalized | packages/server/src/services/pdf.service.ts:42-44 | collapsing then trimming yields words separated by single spaces, with no whitespace at either end |
| PdfService.SingleSpacedHasNoLineBreaks | packages/server/src/services/pdf.service.ts:42-50 | once whitespace is only spaces, no form feed, CR or LF is left for the later rewrites |
| PdfService.Without | packages/server/src/services/pdf.service.ts:46 | `replace(/\f/g, "")` leaves no form feed and never grows the text; text without one is unchanged |
| PdfService.ReplaceCrLf | packages/server/src/services/pdf.service.ts:47 | `replace(/\r\n/g, "\n")` never grows the text and leaves text without a CR LF pair unchanged |
| PdfService.ReplaceCrLfAtPair | packages/server/src/services/pdf.service.ts:47 | each CR LF pair becomes one LF and the text on either side of it is rewritten on its own, so a CR not followed by LF survives |
| PdfService.ReplaceCrLfDeletesOnlyCarriageReturns | packages/server/src/services/pdf.service.ts:47 | once CRs are deleted, the text before and after the rewrite is the same |
| PdfService.ReplaceCr | packages/server/src/services/pdf.service.ts:48 | `replace(/\r/g, "\n")` keeps the length, turns every CR into LF, leaves no CR and keeps every other character in place |
| PdfService.CapNewlineRuns | packages/server/src/services/pdf.service.ts:50 | capping never grows the text, and a result that starts with one or two LFs comes from an input that does |
| PdfService.CapNewlineRunsLeavesNoTriple | packages/server/src/services/pdf.service.ts:50 | after `replace(/\n{3,}/g, "\n\n")` no three line feeds are consecutive |
| PdfService.CapNewlineRunsFixesNoTriple | packages/server/src/services/pdf.service.ts:50 | text with no three consecutive LFs is unchanged by capping |
| PdfService.CapNewlineRunsAppend | packages/server/src/services/pdf.service.ts:50 | after a character other than LF, capping works on each side of the seam separately |
| PdfService.CapNewlineRunsAtRun | packages/server/src/services/pdf.service.ts:50 | a run of three or more LFs between other characters becomes exactly two LFs, and the text on either side is capped on its own |
| PdfService.CapNewlineRunsDeletesOnlyNewlines | packages/server/src/services/pdf.service.ts:50 | capping deletes line feeds and nothing else |
| PdfService.CapNewlineRunsWithoutNewlines | packages/server/src/services/pdf.service.ts:50 | text without line feeds is unchanged by capping |
| PdfService.CleanText | packages/server/src/services/pdf.service.ts:38-52 | the cleaned text is single-spaced with no edge whitespace, keeps every non-whitespace character in order, and is never longer than the input |
| PdfService.CleanTextIsTrimmedCollapse | packages/server/src/services/pdf.service.ts:42-50 | the rewrites after `trim` never change anything: the clean text is the trimmed collapse |
| PdfService.CleanTextJoinsWords | packages/server/src/services/pdf.service.ts:38-52 | two cleaned texts separated by any non-empty run of whitespace clean to the two joined by exactly one space |
| PdfService.CleanTextFixesNormalized | packages/server/src/services/pdf.service.ts:38-52 | a text already in cleaned form is its own clean form |
| PdfService.CleanTextIdempotent | packages/server/src/services/pdf.service.ts:38-52 | cleaning twice is cleaning once |
| PdfService.CleanTextSpacing | packages/server/src/services/pdf.service.ts:42-50 | every whitespace character of the result is a space strictly inside the text, with non-whitespace on both sides |
| PdfService.Sextets | packages/server/src/services/pdf.service.ts:18 | the alphabet values read from base64 text are never more than its characters |
| PdfService.DecodeSextets | packages/server/src/services/pdf.service.ts:18 | n sextets decode to 3 bytes per full group of four, plus 1 or 2 bytes for a trailing group of 2 or 3, and none for a lone sextet |
| PdfService.Base64Decode | packages/server/src/services/pdf.service.ts:18 | `Buffer.from(s, "base64")` yields at most three bytes for every four characters |
| PdfService.StripDataUrlPrefix | packages/server/src/services/pdf.service.ts:12-15 | the data-URL prefix is removed exactly when it starts the text, and only once |
| PdfService.IsValidPdf | packages/server/src/services/pdf.service.ts:59-77 | `isValidPDF` holds exactly when the base64 text after the optional prefix starts with the six sextets that decode to 25 50 44 46 (`%PDF`) |
| PdfService.ShortDataIsNotPdf | packages/server/src/services/pdf.service.ts:68-72 | base64 text too short to decode four bytes is never a PDF |
| PdfService.DoublePrefixIsNotPdf | packages/server/src/services/pdf.service.ts:62-65 | a doubled data-URL prefix is stripped once, so such data is never a PDF |
| PdfService.ExtractTextFromBase64 | packages/server/src/services/pdf.service.ts:9-31 | succeeds exactly when the parser does, returning the cleaned parser text; every failure is an `Error` whose message starts "Failed to extract text from PDF: " |
| AiService.BuildAnalysisPrompt | packages/server/src/services/ai.service.ts:46-81 | the prompt starts with the fixed preamble and holds the job description right under "JOB DESCRIPTION:", then the CV right under "CANDIDATE CV:"; its length is the sum of its parts |
| AiService.PromptEndsWithInstructions | packages/server/src/services/ai.service.ts:59-80 | the instruction text closes the prompt |
| AiService.PromptDeterminesTexts | packages/server/src/services/ai.service.ts:50-58 | two prompts that are equal, with job descriptions of equal length, embed the same CV and the same job description |
| AiService.BuildGeminiRequest | packages/server/src/services/ai.service.ts:88-102 | exactly one content, with role "user" and exactly one part whose text is the prompt |
| AiService.RequestCarriesPrompt | packages/server/src/services/ai.service.ts:88-102 | in the analysis request, the first part with text is the only part, and its text is the prompt |
| AiService.FailureDetail | packages/server/src/services/ai.service.ts:154 | the detail is the reply body's message when it is a non-empty string, and the axios message otherwise |
| AiService.FailureMessage | packages/server/src/services/ai.service.ts:156-166 | 401 and 429 give their fixed messages; 400 gives "Bad request: " and the detail; any other status, or none, gives "API request failed: " and the detail |
| AiService.CallGeminiApi | packages/server/src/services/ai.service.ts:109-171 | succeeds exactly on a reply with a body, returning the body; an empty body, an axios failure and any other thrown value each give their error |
| AiService.FindTextPart | packages/server/src/services/ai.service.ts:195-198 | the index of the first part with non-empty text; none exactly when no part has text |
| AiService.JsonSpan | packages/server/src/services/ai.service.ts:201-204 | a span exists exactly when some `}` follows some `{`; it opens with `{`, closes with `}`, has no `{` before it and no `}` after it, i.e. it runs from the first `{` to the last `}` |
| AiService.SpanOfWrappedObject | packages/server/src/services/ai.service.ts:201-204 | an object wrapped in prose without braces is exactly the span found |
| AiService.ReplyText | packages/server/src/services/ai.service.ts:182-198 | the text is that of the first part with non-empty text in the first candidate; no candidates gives NoCandidates, a first candidate without parts NoContent, and parts without text NoTextContent, each exactly then |
| AiService.AnalysisData | packages/server/src/services/ai.service.ts:182-207 | a failure to read the reply text is passed on; a text without a `{…}` span gives NoJsonFound; a span `JSON.parse` rejects gives InvalidJson, exactly then; otherwise the result is what `JSON.parse` returned for the span |
| AiService.Clamp | packages/server/src/services/ai.service.ts:219 | the score lies in [0, 100]; in-range values are kept, values below go to 0 and values above go to 100 |
| AiService.ListOrEmpty | packages/server/src/services/ai.service.ts:210-227 | an array's items pass through and anything that is not an array becomes the empty list |
| AiService.Sanitize | packages/server/src/services/ai.service.ts:209-228 | arrays pass through and anything else becomes `[]`; a numeric score is clamped and any other becomes 0; a truthy explanation is kept and a falsy one replaced by the default; `null` data fails |
| AiService.SanitizeRoundTrip | packages/server/src/services/ai.service.ts:209-228 | sanitising the JSON of an analysis gives it back exactly when the analysis is well formed |
| AiService.SanitizeIdempotent | packages/server/src/services/ai.service.ts:209-228 | every sanitised analysis is well formed, so sanitising it again changes nothing |
| AiService.ParseAnalysisResponse | packages/server/src/services/ai.service.ts:178-243 | never fails; the result always has a score in [0, 100] and a truthy explanation; any unreadable reply gives the fallback, and a readable one gives the sanitised data |
| AiService.UnreadableReplies | packages/server/src/services/ai.service.ts:181-242 | no candidates, no content or text part, no `{…}` span, and a failed `JSON.parse` each give the fallback analysis |
| AiService.OnlyFirstCandidateRead | packages/server/src/services/ai.service.ts:186 | candidates after the first never change the result |
| AiService.WrappedAnalysisRead | packages/server/src/services/ai.service.ts:195-228 | a well-formed analysis that the model returns wrapped in prose is read back unchanged |
| AiService.AnalyzeProfile | packages/server/src/services/ai.service.ts:21-38 | succeeds exactly when the call does, with the sanitised reply and so a score in [0, 100]; every failure is an `Error` whose message is "Failed to analyze profile: " and the message of what was thrown |
| AiService.TestConnection | packages/server/src/services/ai.service.ts:249-279 | true exactly when the "Hello" request gets a reply body with at least one candidate |
| Trpc.FormatError | packages/server/src/trpc/trpc.ts:5-16 | keeps the default shape and sets `zodError` to the cause exactly when the code is BAD_REQUEST and a cause exists |
| Trpc.ClientKey | packages/server/src/trpc/trpc.ts:38 | the key is the first non-empty one of the IP and the remote address, and "unknown" when neither is present |
| Trpc.RateLimitError | packages/server/src/trpc/trpc.ts:53-56 | a refusal is a TOO_MANY_REQUESTS error without a cause |
| Trpc.Check | packages/server/src/trpc/trpc.ts:43-58 | a client with no live window gets count 1 and reset time now + 60000 and is let through; otherwise its count goes up by one, even when the request is refused, and it is let through exactly when the new count is at most the limit; no other client's entry changes |
| Trpc.Expire | packages/server/src/trpc/trpc.ts:86-90 | exactly the entries whose window still covers `now` are kept, unchanged |
| Trpc.RateLimiter.constructor | packages/server/src/trpc/trpc.ts:35 | the limiter starts with an empty map |
| Trpc.RateLimiter.CheckAndIncrement | packages/server/src/trpc/trpc.ts:37-61 | the map becomes that of `Check`, the request is refused exactly when `Check` refuses it, and the refusal is the TOO_MANY_REQUESTS error; every stored count stays positive |
| Trpc.RateLimiter.Sweep | packages/server/src/trpc/trpc.ts:83-93 | the loop deletes exactly the entries with now > resetTime and leaves the rest unchanged |
| Trpc.SweepKeepsDecisions | packages/server/src/trpc/trpc.ts:83-93 | a sweep before a request changes neither the decision, nor the caller's new entry, nor what a later sweep keeps |
| Trpc.AdmissionsInOpenWindow | packages/server/src/trpc/trpc.ts:48-57 | within one live window every request adds one to the count, and only those that keep the count within the limit are let through |
| Trpc.AdmissionsPerWindow | packages/server/src/trpc/trpc.ts:45-57 | a new window always lets its first request through, and in all exactly min(requests, max(1, limit)) |
| Trpc.ResetTimeBelongsToOldWindow | packages/server/src/trpc/trpc.ts:45 | a request exactly at the reset time still counts against the old window; one a millisecond later opens a new one |
| Trpc.CheckKeepsCountsPositive | packages/server/src/trpc/trpc.ts:43-50 | checking a request keeps every stored count at least 1 |
| ProfileRouter.ValidFileUpload | packages/server/src/trpc/routers/profile.router.ts:9-20 | a valid upload has a non-empty name and data and 0 < size <= limit, and a type of at least three characters; an otherwise valid upload typed "application/pdf" is valid |
| ProfileRouter.IssueIf | packages/server/src/trpc/routers/profile.router.ts:9-20 | a field check gives no issue exactly when it holds, and otherwise one issue at that path with the schema's message |
| ProfileRouter.FileUploadIssues | packages/server/src/trpc/routers/profile.router.ts:9-20 | an upload has no issues exactly when its name is non-empty, its type contains "pdf", 0 < size <= limit and its data is non-empty; every issue is under the upload's field |
| ProfileRouter.InputIssues | packages/server/src/trpc/routers/profile.router.ts:22-25 | the input has no issues exactly when both uploads are valid |
| ProfileRouter.CheckedTexts | packages/server/src/trpc/routers/profile.router.ts:64-100 | texts come back only when both files pass the magic check and both cleaned texts trim to at least 10 UTF-16 code units |
| ProfileRouter.RunMutation | packages/server/src/trpc/routers/profile.router.ts:61-113 | success is `{success: true, analysis}` with a well-formed analysis; a failed check ends the body with that failure |
| ProfileRouter.ClassifyError | packages/server/src/trpc/routers/profile.router.ts:115-147 | a TRPCError passes unchanged; otherwise a message with "PDF" gives BAD_REQUEST with "PDF processing error: ", else one with "API" gives INTERNAL_SERVER_ERROR with "AI service error: ", else INTERNAL_SERVER_ERROR with the message (or a fixed one for a non-`Error`), caused by what was thrown |
| ProfileRouter.AnalyzeProfileMutation | packages/server/src/trpc/routers/profile.router.ts:60-147 | succeeds exactly when the body does, with a well-formed analysis |
| ProfileRouter.AnalyzeProfileProcedure | packages/server/src/trpc/routers/profile.router.ts:58-60 | an input with schema issues is refused with BAD_REQUEST carrying those issues; success implies both uploads are valid and a well-formed analysis |
| ProfileRouter.HandleAnalyzeProfile | packages/server/src/trpc/routers/profile.router.ts:58-60 | every call is counted by the rate limiter first; a refused call gets the TOO_MANY_REQUESTS error, and a call let through gets the procedure's result |
| ProfileRouter.CheckFailureIsClassified | packages/server/src/trpc/routers/profile.router.ts:115-121 | a failed check reaches the client classified, and a TRPCError raised by a check reaches it unchanged |
| ProfileRouter.ValidationComesFirst | packages/server/src/trpc/routers/profile.router.ts:58-60 | an invalid input is refused before any foreign call, with BAD_REQUEST, and the formatter puts its issues in `zodError` |
| ProfileRouter.MagicChecksComeFirst | packages/server/src/trpc/routers/profile.router.ts:65-77 | no file is parsed unless both pass the magic check; the job description is checked first and each refusal names its file |
| ProfileRouter.ExtractionFailureMentionsPdf | packages/server/src/services/pdf.service.ts:27-29 | every extraction failure message contains "PDF" |
| ProfileRouter.ExtractionFailureStopsChecks | packages/server/src/trpc/routers/profile.router.ts:82-85 | a failed extraction of either file is what the checks fail with, the job description's when both fail |
| ProfileRouter.ExtractionFailureIsBadRequest | packages/server/src/trpc/routers/profile.router.ts:123-130 | an extraction failure always becomes BAD_REQUEST with "PDF processing error: " in front of its message |
| ProfileRouter.ShortTextIsRefused | packages/server/src/trpc/routers/profile.router.ts:88-100 | a text that trims to fewer than 10 UTF-16 code units is refused as unreadable, the job description's before the CV's, and otherwise both texts pass |
| ProfileRouter.AiOutcomeReachesClient | packages/server/src/trpc/routers/profile.router.ts:104-113 | once the checks pass, the client gets the sanitised reply for the CV and the job description, or the classified failure of the call |
| ProfileRouter.Unauthorized401IsAiServiceError | packages/server/src/trpc/routers/profile.router.ts:132-139 | a vendor 401 reaches the client as an INTERNAL_SERVER_ERROR marked "AI service error: " |
| ProfileRouter.TooManyRequests429IsGeneric | packages/server/src/trpc/routers/profile.router.ts:141-146 | a vendor 429 mentions neither "PDF" nor "API" and reaches the client as the generic INTERNAL_SERVER_ERROR with its message unchanged |
| ProfileRouter.BadRequest400DependsOnDetail | packages/server/src/trpc/routers/profile.router.ts:123-146 | a vendor 400 is BAD_REQUEST exactly when its detail mentions "PDF"; otherwise it is INTERNAL_SERVER_ERROR, marked as the AI service's exactly when the detail mentions "API" |
| ProfileRouter.OtherStatusIsAiServiceError | packages/server/src/trpc/routers/profile.router.ts:123-139 | any other vendor status is BAD_REQUEST exactly when its detail mentions "PDF", and otherwise an AI service error |
| ProfileRouter.EmptyReplyIsAiServiceError | packages/server/src/services/ai.service.ts:134-136 | an empty reply body reaches the client as an AI service error |
| ProfileRouter.PdfErrorCauseBecomesZodError | packages/server/src/trpc/trpc.ts:11-12 | for a PDF processing error, the formatter puts the caught `Error` into `zodError` |

## Left out

- `getPDFMetadata` (pdf.service.ts:84-111) is left out. It is a thin wrapper over the foreign `pdf-parse` call and nothing in the server uses it.
- Logging (`console.*`) and `loggerMiddleware` are left out because they change no outcome. The same goes for the `health` and `testAI` procedures and for `createTRPCError`, which are wrappers without logic of their own.
- Sockets, the axios timeout, the API URL and the API key are left out. The POST is a parameter that returns the outcome of the call.
- `Promise.all` over the two extractions is modelled as two calls in sequence, job description first. Both must succeed. When both fail, the model reports the job description's error, while the code reports whichever rejects first. The code classifies either one the same way (`ExtractionFailureIsBadRequest`).
- JavaScript numbers are integers here. NaN, infinities and fractional scores are left out, so a numeric score is clamped as an integer.
- `parseInt` of `RATE_LIMIT_PER_MINUTE` and `MAX_FILE_SIZE` is not modelled. Both limits are parameters; the size limit's default is the constant `DefaultMaxFileSize`.
- `FailureDetail`: the code may read a reply body `message` that is not a string. The model takes the body message as an optional string.
- `AnalyzeProfileProcedure`: the text of zod's validation message is not reproduced. It is a parameter that renders the issues, and the issues themselves are kept in the error's cause.
- `IsValidPdf`: `buffer.subarray(0, 4).toString() === "%PDF"` is modelled as a comparison of the four bytes with 25 50 44 46. UTF-8 decoding turns four bytes into "%PDF" only when they are exactly those.
- `Trpc.RateLimiter.CheckAndIncrement`: the code increments `clientData.count` in place, through the object the map holds. The model stores the updated window back into the map, which has the same effect because nothing else holds that object.
- `AiService.BuildAnalysisPrompt`, `AiService.AnalysisRequest` and `AiService.AnalyzeProfile` take the instruction text that closes the prompt as a parameter. The server always passes the constant `AiService.PromptInstructions`, which holds the template's text after the CV. That 731-character literal is kept out of the proofs, so no lemma reads its content.
