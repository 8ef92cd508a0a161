/** The reconciliation pipeline: `parse_contact` in python/app.py. It runs
    the extractor, then the matcher on the extracted name, and assembles the
    response. */
module Pipeline {
  import opened Wrappers
  import opened Json
  import opened Matcher
  import opened Extractor
  import opened PyStr

  /** The request body: the free text and the requested model. */
  datatype ParseRequest = ParseRequest(text: string, llm: string)

  /** The response body. The three extracted fields are the decoded JSON
      values, passed on verbatim. */
  datatype ParseResponse = ParseResponse(
    name: JsonValue,
    email: JsonValue,
    phone: JsonValue,
    foundInDatabase: bool,
    company: Option<string>)

  /** `parse_contact(request)`: an extraction error propagates unchanged and
      the store is never consulted; otherwise the extracted fields are
      returned as they are, together with the matcher's verdict on the
      extracted name. */
  function ParseContact(request: ParseRequest, generate: (string, string) -> ProviderOutcome, store: Store): (r: Result<ParseResponse, HttpError>)
    ensures ExtractContact(request.text, request.llm, generate).Err? ==> r == Err(ExtractContact(request.text, request.llm, generate).error)
    ensures r.Ok? <==> ExtractContact(request.text, request.llm, generate).Ok?
    ensures r.Ok? ==> var e := ExtractContact(request.text, request.llm, generate).value;
      && r.value.name == e.name && r.value.email == e.email && r.value.phone == e.phone
      && (r.value.foundInDatabase <==> Known(e.name, store))
      && (!r.value.foundInDatabase ==> r.value.company == None)
      && (r.value.foundInDatabase ==>
            (exists row :: row in store.rows
              && RowMatches(row, NameParts(e.name.s).value.0, NameParts(e.name.s).value.1)
              && r.value.company == row.companyName))
  {
    match ExtractContact(request.text, request.llm, generate)
    case Err(e) => Err(e)
    case Ok(extracted) =>
      var (found, company) := CheckContact(extracted.name, store);
      Ok(ParseResponse(extracted.name, extracted.email, extracted.phone, found, company))
  }

  /** Line 157: when extraction fails, the outcome is the same whatever the
      store holds or whether it is reachable at all, so the matcher is not
      run. */
  lemma ExtractionErrorSkipsStore(request: ParseRequest, generate: (string, string) -> ProviderOutcome, s1: Store, s2: Store)
    requires ExtractContact(request.text, request.llm, generate).Err?
    ensures ParseContact(request, generate, s1) == ParseContact(request, generate, s2)
    ensures ParseContact(request, generate, s1).Err?
  {
  }

  /** An unsupported model identifier ends the request with a 500 whose
      detail wraps the 400 raised at line 90, whatever the provider and the
      store would have done. */
  lemma UnsupportedModelEndsRequest(request: ParseRequest, generate: (string, string) -> ProviderOutcome, store: Store)
    requires request.llm !in SupportedModels
    ensures ParseContact(request, generate, store) == Err(HttpError(500, "LLM extraction failed: 400: Unsupported LLM: " + request.llm))
  {
    UnsupportedModelIsServerError(request.text, request.llm, generate, generate);
  }

  /** A store that cannot be reached or queried never fails the request: the
      extracted fields come back with `found_in_database` false and no
      company. */
  lemma StoreOutageIsAbsorbed(request: ParseRequest, generate: (string, string) -> ProviderOutcome, store: Store)
    requires ExtractContact(request.text, request.llm, generate).Ok?
    requires !store.Serving?
    ensures var e := ExtractContact(request.text, request.llm, generate).value;
      ParseContact(request, generate, store) == Ok(ParseResponse(e.name, e.email, e.phone, false, None))
  {
  }

  /** An extracted `null` name is never found and carries no company,
      whatever the store holds. */
  lemma NullNameNeverFound(request: ParseRequest, generate: (string, string) -> ProviderOutcome, store: Store)
    requires ExtractContact(request.text, request.llm, generate).Ok?
    requires ExtractContact(request.text, request.llm, generate).value.name == JNull
    ensures ParseContact(request, generate, store).Ok?
    ensures !ParseContact(request, generate, store).value.foundInDatabase
    ensures ParseContact(request, generate, store).value.company == None
  {
  }

  /** A worked request: the provider extracts "Jane Doe" with an email and
      no phone, and the store holds that contact in lower case with company
      "Acme". */
  lemma JaneDoeIsFound(generate: (string, string) -> ProviderOutcome)
    requires generate("gemini-2.5-flash", "Contact Jane Doe at jane@example.com")
      == Replied(Some(JObject(map["name" := JString("Jane Doe"), "email" := JString("jane@example.com"), "phone" := JNull])))
    ensures ParseContact(ParseRequest("Contact Jane Doe at jane@example.com", "gemini-2.5-flash"), generate,
                         Serving([ContactRow("jane", "doe", Some("Acme"))]))
         == Ok(ParseResponse(JString("Jane Doe"), JString("jane@example.com"), JNull, true, Some("Acme")))
  {
    var row := ContactRow("jane", "doe", Some("Acme"));
    var e := ExtractContact("Contact Jane Doe at jane@example.com", "gemini-2.5-flash", generate);
    assert e == Ok(Extraction(JString("Jane Doe"), JString("jane@example.com"), JNull));
    JaneDoeMatch("Jane Doe", row);
  }

  lemma JaneDoeMatch(name: string, row: ContactRow)
    requires name == "Jane Doe" && row == ContactRow("jane", "doe", Some("Acme"))
    ensures CheckContact(JString(name), Serving([row])) == (true, Some("Acme"))
  {
    JaneDoeSplit(name);
    JaneDoeRowMatches(row);
    assert FetchOne([row], "Jane", "Doe") == Some(row);
  }

  lemma JaneDoeRowMatches(row: ContactRow)
    requires row == ContactRow("jane", "doe", Some("Acme"))
    ensures RowMatches(row, "Jane", "Doe")
  {
    assert Lower("Jane") == "jane" && Lower("jane") == "jane";
    assert Lower("Doe") == "doe" && Lower("doe") == "doe";
  }

  lemma JaneDoeSplit(name: string)
    requires name == "Jane Doe"
    ensures NameParts(name) == Some(("Jane", "Doe"))
  {
    assert FirstRunSplit(name, "Jane", "Doe") by {
      assert name[..4] == "Jane";
      assert name[5..] == "Doe";
      assert name[4..5] == " ";
    }
    StripOfTrimmed(name);
    NamePartsCharacterized(name, "Jane", "Doe");
  }
}
