/** The extractor: `extract_contact_with_llm` in python/app.py. It checks the
    requested model against an allow-list, asks the provider for a JSON
    object, and projects that object onto `name`, `email` and `phone`,
    turning every failure into an HTTP error. */
module Extractor {
  import opened Wrappers
  import opened Json

  /** The model identifiers the service accepts (line 70). */
  const SupportedModels: seq<string> := ["gemini-2.5-flash", "gemini-2.5-flash-preview"]

  /** What one generation call gives back, with `json.loads` applied to the
      response text. */
  datatype ProviderOutcome =
      /** Building the model, generating or reading the response text raised;
          `cause` is `str()` of that exception. */
    | CallFailed(cause: string)
      /** The response text, decoded by `json.loads`: `None` when it raised
          `JSONDecodeError`. */
    | Replied(body: Option<JsonValue>)

  /** The dict returned on success: exactly the keys `name`, `email`, `phone`. */
  datatype Extraction = Extraction(name: JsonValue, email: JsonValue, phone: JsonValue)

  /** An `HTTPException`: a status code and a detail text. */
  datatype HttpError = HttpError(status: nat, detail: string)

  function DigitChar(d: nat): char
    requires d < 10
  {
    "0123456789"[d]
  }

  /** The decimal text of a status code. */
  function NatText(n: nat): (r: string)
    ensures r != []
  {
    if n < 10 then [DigitChar(n)] else NatText(n / 10) + [DigitChar(n % 10)]
  }

  /** `str(e)` of an `HTTPException`: Starlette renders it as
      `"<status>: <detail>"`. */
  function ExceptionText(e: HttpError): (r: string)
    ensures |r| > |e.detail| + 2
    ensures r[|r| - |e.detail| - 2..] == ": " + e.detail
    ensures e.status == 400 ==> r == "400: " + e.detail
  {
    assert e.status == 400 ==> NatText(e.status) == "400" by {
      assert NatText(4) == "4";
      assert NatText(40) == "40" by { assert NatText(40) == NatText(4) + [DigitChar(0)]; }
      assert NatText(400) == NatText(40) + [DigitChar(0)];
    }
    NatText(e.status) + ": " + e.detail
  }

  /** Line 90: the exception raised for a model outside the allow-list. */
  function UnsupportedModelError(llm: string): HttpError {
    HttpError(400, "Unsupported LLM: " + llm)
  }

  /** Line 95: what the catch-all handler re-raises for an exception whose
      text is `cause`. */
  function ExtractionFailed(cause: string): HttpError {
    HttpError(500, "LLM extraction failed: " + cause)
  }

  /** `str()` of the `AttributeError` that `result.get` raises when the
      decoded reply is not a dict (line 85). */
  function NoGetText(v: JsonValue): string {
    "'" + TypeName(v) + "' object has no attribute 'get'"
  }

  /** Line 93: what a `JSONDecodeError` becomes. */
  const MalformedResponse: HttpError := HttpError(500, "Failed to parse LLM response as JSON")

  /** `extract_contact_with_llm(text, llm)` with the provider given as
      `generate(model, text)`, the outcome of the one generation call for
      that model and text (the prompt is built from the text). The 400 for an
      unsupported model is raised inside the `try` and so is caught by the
      catch-all handler and re-raised as a 500. */
  function ExtractContact(text: string, llm: string, generate: (string, string) -> ProviderOutcome): (r: Result<Extraction, HttpError>)
    ensures r.Err? ==> r.error.status == 500
    ensures llm !in SupportedModels ==> r == Err(ExtractionFailed(ExceptionText(UnsupportedModelError(llm))))
    ensures llm in SupportedModels && generate(llm, text) == Replied(None) ==> r == Err(MalformedResponse)
    ensures llm in SupportedModels && generate(llm, text).CallFailed? ==> r == Err(ExtractionFailed(generate(llm, text).cause))
    ensures (llm in SupportedModels && generate(llm, text).Replied? && generate(llm, text).body.Some? && !generate(llm, text).body.value.JObject?)
      ==> r == Err(ExtractionFailed(NoGetText(generate(llm, text).body.value)))
    ensures r.Ok? <==> llm in SupportedModels && generate(llm, text).Replied? && generate(llm, text).body.Some? && generate(llm, text).body.value.JObject?
    ensures r.Ok? ==> forall key :: key in {"name", "email", "phone"} ==> Field(r.value, key) == (var m := generate(llm, text).body.value.fields; if key in m then m[key] else JNull)
  {
    if llm in SupportedModels then
      match generate(llm, text)
      case CallFailed(cause) => Err(ExtractionFailed(cause))
      case Replied(None) => Err(MalformedResponse)
      case Replied(Some(JObject(fields))) =>
        Ok(Extraction(Get(fields, "name"), Get(fields, "email"), Get(fields, "phone")))
      case Replied(Some(other)) =>
        Err(ExtractionFailed(NoGetText(other)))
    else
      Err(ExtractionFailed(ExceptionText(UnsupportedModelError(llm))))
  }

  /** The extraction's entry for one of its three keys. */
  function Field(e: Extraction, key: string): JsonValue
    requires key in {"name", "email", "phone"}
  {
    if key == "name" then e.name else if key == "email" then e.email else e.phone
  }

  /** Lines 70 and 89-95: a model outside the allow-list is refused without
      consulting the provider (the result is the same whatever it would have
      answered) and surfaces as a 500 whose detail begins with
      "LLM extraction failed: ", not as the 400 raised at line 90. */
  lemma UnsupportedModelIsServerError(text: string, llm: string, g1: (string, string) -> ProviderOutcome, g2: (string, string) -> ProviderOutcome)
    requires llm !in SupportedModels
    ensures ExtractContact(text, llm, g1) == ExtractContact(text, llm, g2)
    ensures ExtractContact(text, llm, g1).Err?
    ensures ExtractContact(text, llm, g1).error.status == 500
    ensures ExtractContact(text, llm, g1).error.detail == "LLM extraction failed: 400: Unsupported LLM: " + llm
  {
  }

  /** For a supported model the result depends only on the provider's answer
      for that model and this text. */
  lemma OnlyTheOneCallMatters(text: string, llm: string, g1: (string, string) -> ProviderOutcome, g2: (string, string) -> ProviderOutcome)
    requires g1(llm, text) == g2(llm, text)
    ensures ExtractContact(text, llm, g1) == ExtractContact(text, llm, g2)
  {
  }
}
