# Resume analyser backend: JSON salvage, prompt and record mapping

The backend takes an uploaded PDF résumé and extracts its text. It asks a
language model for a structured JSON description and stores one row per
résumé. This project models the pure logic inside `backend/server.js`, as
Dafny functions and lemmas:

- **Recovery** (`extractJSONFromText`). The model's reply is tried in a fixed order:
  - the whole text;
  - if that fails to parse, the span from the first `{` to the last `}` (when `last > first`);
  - only if that span exists and fails, the span from the first `[` to the last `]`.

  Every other route gives `null`. `JSON.parse` is kept abstract: it is the parameter
  `parse: string -> Option<Json>`, where `None` means "throws". So every property holds
  for any parser.
- **Prompt** (`buildPromptFromText`). The fixed template literal, including
  its leading and trailing whitespace and the `.trim()` applied to it. The
  résumé text appears unchanged between a fixed head and tail.
- **Mapping**. The parsed value becomes the row's columns:
  - JavaScript `||` defaults, with truthiness modelled exactly: `null`, `false`, `0`
    and `""` are falsy, and every array and object is truthy;
  - `rating` is kept only when it is a number;
  - `improvement_areas` is joined with `"; "`.
- **Upload decision**:
  - the PDF MIME filter;
  - the missing-file 400;
  - the prompt sent to the model;
  - the choice between a fallback row (file name and raw reply), a full row
    (mapped columns and the PDF text), and the 500 reply when mapping the
    value throws.

I/O is passed in as parameters:
- the PDF's extracted text (`pdfText`);
- the model call (`generate: string -> string`, from prompt to reply text);
- `JSON.parse` (`parse`);
- JavaScript's Number-to-String conversion (`numStr`).

Modules: `Wrappers` (Option, Result), `JsStrings` (indexOf, lastIndexOf, join,
trim), `Json` (values, truthiness, property reads, `||`, `String()`),
`Recovery`, `Prompt`, `ResumeMapping`, `UploadHandler`.

Behaviour of the code worth noting, all of it modelled:
- A file with the wrong MIME type is rejected by multer's `fileFilter`.
  multer hands the `Error` to Express's error handling, not to the route's
  `400 { error }` reply. The model returns `FilterRejected` and leaves the
  HTTP status to Express.
- `rating` keeps any JSON number. There is no 0–10 or integer check.
- The contact and summary columns copy any truthy value, not only strings.
  The list columns copy any truthy value, not only arrays.
- The bracket span is tried only after a brace span that exists and fails
  to parse. A reply with a parseable `[...]` but no `{` before a later `}`
  gives `null`.
- A recovered value that is falsy (`false`, `0`, `""`, or a reply that is
  the JSON text `null`) leads to the fallback row, the same as a failed
  recovery.
- `String(x)` and `join('; ')` on `improvement_areas` throw a TypeError
  when the value is an object with its own `toString` property, or an
  array holding one at any depth of nested arrays. `JSON.parse` can only
  make that property a plain, non-callable value, and the inherited
  `valueOf` returns the object itself. The catch-all then answers 500 with
  the exception's message, and no row is written.

## Model

| member | source | states |
|---|---|---|
| `JsStrings.IndexOf` | backend/server.js:66 | the result is -1 exactly when the character is absent; otherwise it is a position holding the character, with no earlier occurrence |
| `JsStrings.LastIndexOf` | backend/server.js:67 | -1 exactly when absent; otherwise a position holding the character, with no later occurrence |
| `Recovery.Span` | backend/server.js:66-68 | the chosen span is the outermost one (first opener, last closer, opener before closer); there is no span exactly when no opener comes before a later closer |
| `Recovery.OuterSpanUnique` | backend/server.js:66-67 | the outermost span is unique |
| `Recovery.SpanFindsOuter` | backend/server.js:66-69 | any outermost span is the one the index search selects |
| `Recovery.Extract` | backend/server.js:60-88 | a whole-text parse is returned unchanged with no span search; with no `{` before a later `}` the result is null; any non-null result is the parse of the whole text, of the outermost brace span, or (only after that span exists and fails) of the outermost bracket span |
| `Recovery.BracketAttempt` | backend/server.js:74-83 | a non-null result is the parse of the outermost `[`…`]` span |
| `Recovery.BraceSpanWins` | backend/server.js:66-71 | when the whole text fails and the outermost brace span parses, its value is returned |
| `Recovery.BraceFailureFallsThrough` | backend/server.js:72-78 | when the brace span exists and fails, the result is that of the bracket attempt |
| `Recovery.BracketSpanAfterBraceFailure` | backend/server.js:74-86 | after a failed brace span, the outermost bracket span's parse is returned, and null when no `[` precedes a later `]` |
| `Recovery.EmbeddedObject` | backend/server.js:66-71 | for `before + obj + after`, with no `{` in `before` and no `}` in `after`, the brace candidate is exactly `obj`, and a text that fails as a whole yields `parse(obj)` |
| `Recovery.BracketSpanAloneIsIgnored` | backend/server.js:66-86 | with no `{`, a parseable bracket span is not salvaged: the result is null |
| `JsStrings.TrimStart` | backend/server.js:123 | the result is the suffix left after removing only whitespace, and it does not start with whitespace |
| `JsStrings.TrimEnd` | backend/server.js:123 | the result is the prefix left after removing only whitespace, and it does not end with whitespace |
| `JsStrings.Trim` | backend/server.js:123 | the result occurs in the input with only whitespace before and after it, and neither of its ends is whitespace |
| `JsStrings.TrimAround` | backend/server.js:123 | trimming whitespace around a text with non-whitespace ends gives back exactly that text |
| `Prompt.PaddingTrims` | backend/server.js:93-123 | the template's three leading line breaks and its final line break and two spaces are exactly what `.trim()` removes |
| `Prompt.Template` | backend/server.js:93-122 | trimming the template literal leaves exactly the fixed head, the résumé text and the closing quotes |
| `Prompt.BuildPrompt` | backend/server.js:91-124 | the prompt is the fixed head, the résumé text unchanged, and the closing quotes; the résumé text can be cut back out of it at a fixed offset |
| `Prompt.BuildPromptInjective` | backend/server.js:119-122 | different résumé texts give different prompts |
| `Json.Truthy` | backend/server.js:158-186 | the falsy JSON values are exactly `null`, `false`, `0` and `""`; every array and object is truthy |
| `Json.IsNumber` | backend/server.js:184 | the test holds exactly when `typeof` gives `"number"` (undefined, null, strings, booleans, arrays and objects fail it) |
| `Json.Get` | backend/server.js:169-186 | a property read gives a value exactly for an own field of an object, and undefined otherwise |
| `Json.Or` | backend/server.js:169-183 | `v \|\| d` is `v` when `v` is truthy, and `d` otherwise |
| `Json.ToStr` | backend/server.js:185 | `String(j)` throws, with the TypeError message, exactly on an object with an own `toString` or an array holding one at any depth; otherwise null gives "null", a boolean "true" or "false", a number its formatting, a string itself, an array its element strings joined with `","`, and any other object "[object Object]" |
| `Json.ElemStrs` | backend/server.js:185 | join's element conversion throws exactly when some element is uncoercible; otherwise it gives one string per element, each the conversion of that element |
| `Json.ElemStr` | backend/server.js:185 | a null element becomes the empty string and any other element its `String()` conversion (a string itself); it throws exactly on an uncoercible element |
| `JsStrings.Join` | backend/server.js:185 | an empty array joins to `""`, a single element to itself, and the result starts with the first element |
| `JsStrings.JoinContainsParts` | backend/server.js:185 | every element occurs within the joined string |
| `JsStrings.SplitJoinRoundTrip` | backend/server.js:185 | splitting a `"; "`-joined text at `"; "` gives back the parts when none contains `;` |
| `ResumeMapping.Rating` | backend/server.js:184 | the rating is present exactly when `rating_out_of_10` is a JSON number, and then equals it |
| `ResumeMapping.Feedback` | backend/server.js:185 | null exactly when `improvement_areas` is missing or falsy; it throws exactly when the value is truthy and uncoercible; an array gives its element strings joined with `"; "` (`[]` gives `""`, not null); any other truthy value gives its `String()` form |
| `ResumeMapping.FeedbackSplitsBack` | backend/server.js:185 | an array of semicolon-free strings is stored so that splitting at `"; "` recovers the strings |
| `ResumeMapping.DefaultedRead` | backend/server.js:169-173 | reading `key` from `parsed[outer] \|\| {}` is the same as following the path `outer.key` |
| `ResumeMapping.NullableColumn` | backend/server.js:170-175 | a nullable column is null or a truthy value |
| `ResumeMapping.ListColumn` | backend/server.js:176-186 | a list column is never null or any other falsy value |
| `ResumeMapping.MapRecord` | backend/server.js:168-201 | the mapping throws, with the TypeError message, exactly when `ai_feedback.improvement_areas` is truthy and uncoercible; otherwise the stored file name is the upload's stored name and the raw text is the PDF text |
| `ResumeMapping.PersonalColumns` | backend/server.js:169-173 | in a mapped row, name, email, phone and linkedin are the truthy value at `personal.<field>`, and null when it is missing or falsy (`""` included) or when `personal` is missing, falsy or not an object |
| `ResumeMapping.TopLevelColumns` | backend/server.js:175-181 | in a mapped row, summary is null unless truthy; each list column is `[]` unless its field is truthy, and otherwise a copy |
| `ResumeMapping.FeedbackColumns` | backend/server.js:183-186 | rating, feedback and suggested skills are read through `ai_feedback`, which is treated as `{}` when missing or falsy; the mapping throws exactly when the feedback conversion does |
| `ResumeMapping.MapRecordWellFormed` | backend/server.js:169-186 | every mapped row has null-or-truthy scalar columns and truthy list columns |
| `ResumeMapping.NonObjectGivesDefaults` | backend/server.js:169-186 | a recovered value that is not an object, or is `{}`, yields the all-defaults row |
| `ResumeMapping.ToStringKeyThrows` | backend/server.js:183-185 | `{"ai_feedback":{"improvement_areas":{"toString":1}}}` cannot be mapped, nor can the same object inside an `improvement_areas` array |
| `UploadHandler.AcceptsFile` | backend/server.js:46-50 | a file passes the filter exactly when its declared type is `application/pdf`, character for character |
| `UploadHandler.FilterIsCaseSensitive` | backend/server.js:47 | a type that differs from `application/pdf` only in letter case is rejected, and so is `application/pdf` followed by anything (such as parameters) |
| `UploadHandler.Decide` | backend/server.js:157-205 | the fallback row is chosen exactly for a missing or falsy recovery and holds the stored name and the raw reply; the 500 reply comes exactly for a truthy value whose mapping throws; otherwise the full row holds the mapped columns and the PDF text, and the response is the parsed value |
| `UploadHandler.Route` | backend/server.js:127-209 | the request ends with a stored row or the 500 reply exactly when it carries a PDF; no file gives 400 "No file uploaded"; a non-PDF is rejected by the filter; a PDF's reply goes through recovery and the row choice |
| `UploadHandler.HandleUpload` | backend/server.js:127-157 | the model receives the fixed head, the PDF text unchanged, and the closing quotes, and the route works on its reply |
| `UploadHandler.ProseReplyIsSaved` | backend/server.js:157-165 | a prose reply without `{` is stored as a fallback row, with the warning and the raw reply in the response |
| `UploadHandler.StoresDecision` | backend/server.js:168-205 | a PDF whose reply recovers to a truthy value that maps without throwing stores the mapped full row and answers with the value |
| `UploadHandler.UncoercibleFeedbackFails` | backend/server.js:183-209 | a reply recovering to a value whose `improvement_areas` is uncoercible gets the 500 reply, with no row written |
| `UploadHandler.JaneReplyRecovers` | backend/server.js:60-71 | the reply `Sure! {...}` recovers the embedded object |
| `UploadHandler.JaneValueMaps` | backend/server.js:169-186 | `{personal:{name:"Jane"},summary:null}` maps to the all-defaults row with the name "Jane": every other scalar column null, every list column `[]`, no rating, no feedback |
| `UploadHandler.JaneReplyScenario` | backend/server.js:157-205 | the route for that reply stores exactly that row, with the stored file name and the PDF text, and answers with the value |

## Left out

- Express routing, CORS, JSON body parsing, static serving of uploads and
  `app.listen` (backend/server.js:12-17, 127, 234-239): HTTP framework.
- The catch-all `500 { error }` reply (backend/server.js:206-209) for
  exceptions from file, PDF, model and database I/O: none of that I/O is
  modelled. The TypeError from converting `improvement_areas` is modelled.
  Its message is the one V8 gives.
- multer disk storage, the `uploads` directory creation and the 8 MB size
  limit (backend/server.js:30-53): file-system and library behaviour. The
  stored file name is built from `Date.now()` and `Math.random()`, so it is
  nondeterministic. It enters as `UploadedFile.storedName`.
- The HTTP status Express produces for a filter rejection: framework
  behaviour.
- Reading the file, `pdf-parse` and `pdfData.text || ''`
  (backend/server.js:131-134): foreign library I/O. The extracted text is the
  parameter `pdfText`.
- The GoogleGenAI call with its model name, temperature and token limit,
  and taking the text out of the SDK's response (backend/server.js:139-154):
  network and foreign code. The model is the parameter `generate`, a
  function from prompt to reply text. It is pure, so `HandleUpload` applies
  it to the prompt even for a request the file checks reject. The source
  calls the model only after those checks, but the result does not depend
  on this.
- The SQL inserts and their returned `id` and `created_at`, the list
  endpoint with its ordering, the detail endpoint with its 404, and
  `backend/test_pg.js` (backend/server.js:161-164, 188-203, 212-232):
  database I/O. How PostgreSQL coerces the copied JSON values into its
  columns is also not modelled.
- `JSON.parse` itself: the abstract parameter `parse`.
- JavaScript's Number-to-String conversion: the abstract parameter `numStr`.
- Floating point: a JSON number is an opaque `real`, and no arithmetic is
  done on it. `-0` is treated as `0` (falsy, as in JavaScript). An overflowing
  literal such as `1e400` (JavaScript's `Infinity`) has no counterpart.
- Strings are sequences of Unicode scalar values, not UTF-16 code units.
  The positions `indexOf` returns then differ for characters outside the
  Basic Multilingual Plane, but the selected span text is the same.
- Property reads on non-object values are modelled as `undefined`. This is
  right for every property name the server reads. Inherited properties in
  general are not modelled.
- `frontend/src/App.jsx`: React UI state and HTTP calls.
