# Contact extraction and reconciliation, modelled in Dafny

This project models the core of the contact parser service in
`python/app.py`. The service takes free text and a model identifier. It asks
a language model to extract a contact's `name`, `email` and `phone` as a JSON
object, and then looks the extracted name up in a contacts table that is
left-joined to a companies table. It answers with the extracted fields,
`found_in_database`, and the contact's company.

The model is pure: datatypes, functions and lemmas. The source's three
functions are straight-line code with early returns and exception handlers,
and they hold no state between requests.

- `wrappers.dfy`: `Option` and `Result`.
- `json.dfy`: the values `json.loads` returns, Python truthiness (`not v`),
  the Python type names, and `dict.get`.
- `pystr.dfy`: the Python string built-ins the matcher uses. `IsSpace` is
  exactly the set of characters for which Python 3's `str.isspace` is true.
  `Strip` is `str.strip()`, and `SplitOnce` is `str.split(None, 1)`,
  following CPython's algorithm. `Lower` is the `LOWER` applied to both
  sides of the name comparison.
- `extractor.dfy`: `extract_contact_with_llm`. The provider is a parameter
  `generate(model, text)` that returns the outcome of the single generation
  call, with `json.loads` already applied to it. So "the provider is not
  consulted" is stated as "the result is the same whatever `generate` is".
- `matcher.dfy`: `check_contact_in_database`. The store is a parameter: it
  cannot be reached, or it fails the query, or it serves a sequence of joined
  rows in the order the database returns them. The internal result
  distinguishes `Matched`, `NotMatched` and `LookupFailed`; `CheckContact`
  collapses it into the `(found, company)` pair the source returns.
- `pipeline.dfy`: `parse_contact`. It composes the two and assembles the
  response.

Because every operation is a function, two calls with the same request,
provider outcome and store give the same response by construction.

Behaviour of the code worth knowing, all of it modelled as written:

- An unsupported model ends as a 500, not a 400. The `HTTPException(400)`
  raised at line 90 is inside the `try`. The catch-all handler at line 94
  re-raises it as a 500 with the detail
  `"LLM extraction failed: 400: Unsupported LLM: <llm>"`; Starlette renders
  `str()` of an `HTTPException` as `"<status>: <detail>"`.
- The lookup reports whichever matching row `fetchone` returns (lines
  117-125 have no ORDER BY). Nothing checks that only one row matches, so
  the model promises only "some matching row".
- A reply that decodes to a JSON value other than an object (a list, say)
  makes `result.get` at line 85 raise `AttributeError`. That error becomes
  the 500 `"LLM extraction failed: '<type>' object has no attribute 'get'"`,
  not the JSON parse error of line 93.
- The connection opened at line 103 is not closed on the early return at
  line 114 or when an exception occurs. Connections are not part of this
  model.

## Model

| member | source | states |
|---|---|---|
| `PyStr.Strip` | python/app.py:107 | `name.strip()` removes only whitespace and only at the ends: the result is empty exactly when the name is all whitespace; otherwise it begins and ends with non-whitespace and is a slice of the name between two whitespace-only runs |
| `PyStr.StripOfTrimmed` | python/app.py:107 | stripping a string with no whitespace at either end leaves it unchanged |
| `PyStr.StripIdempotent` | python/app.py:107 | stripping is idempotent: `Strip(Strip(s)) == Strip(s)` for every string |
| `PyStr.SplitOnce` | python/app.py:107 | `split(None, 1)` gives at most two parts, none exactly when the string is all whitespace, every part non-empty. The first part has no whitespace and sits in the input right after its leading whitespace. One part: only whitespace follows it. Two parts: a non-empty whitespace run follows the first part, and the second part starts with non-whitespace and runs to the end of the input |
| `PyStr.RecasingKeepsLower` | python/app.py:121-122 | any letter-casing of a name has the same `LOWER` form, so the comparison ignores case |
| `PyStr.IsSpace` | python/app.py:107 | the whitespace that `strip()` and `split()` remove is Python's: space, tab, newline and carriage return are whitespace; letters, digits, `-`, `.` and `'` are not |
| `PyStr.Lower` | python/app.py:121-122 | `LOWER` keeps the length and lower-cases each character on its own |
| `Json.Truthy` | python/app.py:99 | for a value of an `Optional[str]`, `not name` holds exactly for `None` and `""` |
| `Json.Get` | python/app.py:85-87 | `result.get(key)` is the stored value when the key is present and `None` when it is absent; a non-`None` result means the key is present |
| `Json.TypeName` | python/app.py:95 | the type name in an error text is never empty, and it is `dict` exactly for a JSON object |
| `Extractor.ExceptionText` | python/app.py:94-95 | `str()` of an `HTTPException` ends with `": " + detail`; for status 400 it is exactly `"400: " + detail` |
| `Matcher.RowMatches` | python/app.py:121-122 | the WHERE clause matches a row whose names equal the query names exactly, and it only matches names of the same lengths |
| `Matcher.FirstRunSplitUnique` | python/app.py:107-109 | a stripped name splits into (first token, rest after the first whitespace run) in only one way |
| `Matcher.SplitOfStripped` | python/app.py:107-112 | on a stripped non-empty name, `split(None, 1)` gives one part (the whole name) exactly when it has no whitespace; otherwise it splits at the first whitespace run with inner whitespace of the rest kept |
| `Matcher.NameParts` | python/app.py:107-114 | no (first, last) pair exactly when the name is all whitespace; otherwise the pair is the split of the stripped name, with `last == ""` for a single token |
| `Matcher.NamePartsCharacterized` | python/app.py:107-112 | in both directions, `NameParts` returns `(first, last)` exactly when that pair is the reference split of the stripped name: one token with an empty last name, or the first token and the rest after the first whitespace run |
| `Matcher.FetchOne` | python/app.py:117-125 | the fetched row is a stored row whose first and last names equal the split names under `LOWER`; no row is fetched exactly when no stored row matches |
| `Matcher.LookupContact` | python/app.py:98-137 | the lookup matches exactly when the name is a string whose split some stored row matches, and it reports that row's company; it fails only for a truthy name when the store is not serving or the name is not a string |
| `Matcher.CheckContact` | python/app.py:98-137 | `found` holds exactly when a stored row matches the split name case-insensitively, and `company` is then that row's joined company name (possibly `None`); not found never carries a company; an unreachable or failing store reads as `(False, None)` and never raises |
| `Matcher.NullOrEmptyNameShortCircuits` | python/app.py:99-100 | a `None` or empty name gives `(False, None)` even with an unreachable store, so no connection is attempted |
| `Matcher.WhitespaceOnlyNameSkipsQuery` | python/app.py:107-114 | a non-empty all-whitespace name gives `(False, None)` whatever the rows are and even when the query would fail, so the query is not run |
| `Matcher.AnyCasingIsFound` | python/app.py:117-131 | a stored contact whose first and last names are any letter-casing of the split name is found |
| `Matcher.SingleTokenMatchesEmptyLastName` | python/app.py:110-112 | a one-token name is looked up as (that token, `""`) and finds a stored contact with that first name in any casing and an empty last name |
| `Matcher.RowOrderIrrelevantWhenMatchesAgree` | python/app.py:117-125 | with no ORDER BY the row order is the database's choice; reordering the rows does not change the result when all matching rows share one company, in particular when at most one row matches |
| `Extractor.ExtractContact` | python/app.py:57-95 | every error is a 500. An unsupported model gives the wrapped 400 text. A failed provider call gives `"LLM extraction failed: " + cause`. An unparseable body gives "Failed to parse LLM response as JSON". A reply that decodes to a non-object gives the wrapped `AttributeError` text. Success happens exactly for a supported model whose reply decodes to a JSON object; each of `name`, `email`, `phone` is then that object's value, or `None` when the key is absent |
| `Extractor.UnsupportedModelIsServerError` | python/app.py:69-95 | a model outside `{"gemini-2.5-flash", "gemini-2.5-flash-preview"}` is refused with the same result whatever the provider would answer, as a 500 with detail `"LLM extraction failed: 400: Unsupported LLM: " + llm` |
| `Extractor.OnlyTheOneCallMatters` | python/app.py:70-88 | the result depends on the provider only through its single answer for the requested model and this text |
| `Pipeline.ParseContact` | python/app.py:155-168 | an extraction error propagates unchanged. Otherwise `name`, `email`, `phone` are the extracted values verbatim. `found_in_database` holds exactly when the store knows the extracted name, and `company` is then the company of a stored row matching the split name; not found carries no company |
| `Pipeline.ExtractionErrorSkipsStore` | python/app.py:157-160 | when extraction fails, the response does not depend on the store, so the matcher is not reached |
| `Pipeline.UnsupportedModelEndsRequest` | python/app.py:89-95 | an unsupported model ends every request as a 500 with the wrapped 400 detail, whatever the provider and the store |
| `Pipeline.StoreOutageIsAbsorbed` | python/app.py:135-137 | with an unreachable or failing store, a successful extraction still yields its fields, with `found_in_database` false and no company |
| `Pipeline.NullNameNeverFound` | python/app.py:160 | an extracted `null` name is never found and carries no company, whatever the store holds |
| `Pipeline.JaneDoeIsFound` | python/app.py:155-168 | a worked request: "Jane Doe" extracted with model "gemini-2.5-flash" and a store holding ("jane", "doe", "Acme") gives found with company "Acme", the email verbatim and a `null` phone |

## Left out

- The prompt text, the generation settings and the model call (lines 59-80) are not modelled. The provider is the parameter `generate(model, text)`, whose value is the outcome of the call.
- `json.loads` is not modelled: its result is part of the provider outcome. JSON `NaN` and `Infinity` have no representation. A `JSONDecodeError` raised by the generation call itself, rather than by `json.loads`, is not separated from other call failures.
- Connecting to the database, the cursor and the query round trip are not modelled. The store is a parameter. A failure to create a cursor is folded into the unreachable store. The connection is left open on the early return and on the exception path; that leak is not modelled.
- The `print` logging of lookup errors (line 136) is not modelled.
- `Lower`: only ASCII letters are lower-cased. The database's `LOWER` depends on its locale and also folds non-ASCII letters.
- `Matcher.FetchOne`: the model takes the first matching row of the sequence. The sequence stands for the database's unspecified row order. The contracts promise only "some matching row".
- The response holds the extracted JSON values as they are. Validation or coercion of non-string values when the response object is built (pydantic) is not modelled.
- The `/health` endpoint, the FastAPI and uvicorn wiring, and the environment configuration are not modelled (lines 11-54 and 140-174). They are plumbing.
- `python/checker/checker.py` is not part of this model. It is an HTTP test client.
- The Go server start-up files are not part of this model. They only read configuration.
