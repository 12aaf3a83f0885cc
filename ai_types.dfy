/** The shapes exchanged with the Gemini API and returned to clients
    (packages/server/src/types/ai.types.ts), and a JSON value (RFC 8259) for what
    `JSON.parse` makes of the model's reply. Only the fields the server reads or writes
    are kept. */
module AiTypes {
  import opened Wrappers

  /** A parsed JSON value. Numbers are integers here; an object is the map its parse
      produces (a repeated key keeps its last value). */
  datatype Json =
    | JNull
    | JBool(b: bool)
    | JNumber(n: int)
    | JString(s: string)
    | JArray(items: seq<Json>)
    | JObject(fields: map<string, Json>)

  /** `value[key]` on a parsed value: present only on an object holding that key. */
  function Property(v: Json, key: string): Option<Json> {
    if v.JObject? && key in v.fields then Some(v.fields[key]) else None
  }

  /** `value?.[key]` on a possibly missing value. */
  function PropertyOf(v: Option<Json>, key: string): Option<Json> {
    if v.Some? then Property(v.value, key) else None
  }

  /** JavaScript truthiness of a possibly missing JSON value: `undefined`, `null`,
      `false`, `0` and `""` are falsy; arrays and objects, even empty ones, are truthy. */
  predicate Truthy(v: Option<Json>) {
    match v
    case None => false
    case Some(JNull) => false
    case Some(JBool(b)) => b
    case Some(JNumber(n)) => n != 0
    case Some(JString(s)) => s != []
    case Some(JArray(_)) => true
    case Some(JObject(_)) => true
  }

  /** One part of a message; only its text matters to the server. */
  datatype Part = Part(text: Option<string>)

  /** A message: its parts (missing when the reply omits them) and its author. */
  datatype Content = Content(parts: Option<seq<Part>>, role: Option<string>)

  datatype Candidate = Candidate(content: Option<Content>)

  datatype GenerateContentRequest = GenerateContentRequest(contents: seq<Content>)

  datatype GenerateContentResponse = GenerateContentResponse(candidates: Option<seq<Candidate>>)

  /** How well the CV fits the job: a score, meant to lie in [0, 100], and a reason. */
  datatype Alignment = Alignment(score: int, explanation: Json)

  /** What an analysis reports. The lists hold whatever the model's reply put in them. */
  datatype AnalysisResult = AnalysisResult(
    strengths: seq<Json>,
    weaknesses: seq<Json>,
    alignment: Alignment,
    recommendations: seq<Json>)

  /** An uploaded file: its name, its MIME type, its size in bytes and its base64 text. */
  datatype FileUpload = FileUpload(name: string, mimeType: string, size: int, data: string)

  datatype AnalyzeProfileInput = AnalyzeProfileInput(jobDescription: FileUpload, cv: FileUpload)

  datatype AnalyzeProfileOutput = AnalyzeProfileOutput(
    success: bool,
    analysis: Option<AnalysisResult>,
    error: Option<string>)
}
