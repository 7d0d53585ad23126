/** The pure decisions of the `POST /api/upload` route: the PDF file filter,
    the missing-file check, the prompt sent to the model, and the choice
    between a fallback row (recovery failed), a full row, and the 500 reply
    when mapping the recovered value throws.  Reading the
    file, PDF text extraction, the model call and the SQL inserts are I/O:
    their results come in as parameters (`pdfText`, `generate`). */
module UploadHandler {
  import opened Wrappers
  import opened Json
  import opened Recovery
  import opened Prompt
  import opened ResumeMapping

  /** The part of an upload the route looks at: the name it was stored
      under and the MIME type the client declared. */
  datatype UploadedFile = UploadedFile(storedName: string, mimeType: string)

  const PdfMimeType: string := "application/pdf"
  const FilterErrorText: string := "Only PDF files are allowed"
  const NoFileErrorText: string := "No file uploaded"
  const WarningText: string := "Failed to parse JSON from LLM. Raw output saved."

  /** The upload filter: a file is accepted exactly when its declared type
      is "application/pdf", character for character. */
  predicate AcceptsFile(mimeType: string)
    ensures AcceptsFile(mimeType) <==>
      |mimeType| == |PdfMimeType| && forall i :: 0 <= i < |mimeType| ==> mimeType[i] == PdfMimeType[i]
  {
    mimeType == PdfMimeType
  }

  /** ASCII lower-casing, to describe the types that differ from the PDF
      type only in letter case. */
  function LowerAscii(s: string): (r: string)
    ensures |r| == |s|
    decreases |s|
  {
    if |s| == 0 then ""
    else [if 'A' <= s[0] <= 'Z' then (s[0] as int + 32) as char else s[0]] + LowerAscii(s[1..])
  }

  /** The comparison is case-sensitive and allows no parameters: a type
      that differs from "application/pdf" only in letter case, or that
      carries anything after it (such as "; charset=binary"), is
      rejected. */
  lemma FilterIsCaseSensitive()
    ensures AcceptsFile("application/pdf")
    ensures !AcceptsFile("application/PDF") && !AcceptsFile("Application/pdf")
    ensures forall m :: LowerAscii(m) == PdfMimeType && m != PdfMimeType ==> !AcceptsFile(m)
    ensures forall params :: |params| > 0 ==> !AcceptsFile(PdfMimeType + params)
  {
    assert "application/PDF"[12] != PdfMimeType[12];
    assert "Application/pdf"[0] != PdfMimeType[0];
  }

  /** The row written to the resumes table. */
  datatype Row =
    | FallbackRow(fileName: string, rawText: string)
    | FullRow(record: ResumeRecord)

  /** The reply body, without the identifier the database assigns. */
  datatype Response =
    | Degraded(warning: string, raw: string)
    | Saved(parsed: Json)

  /** How one request ends. */
  datatype Outcome =
    | FilterRejected(message: string)          // the filter's error goes to Express
    | BadRequest(status: int, error: string)   // no file in the request
    | ServerError(status: int, error: string)  // the catch-all reply; no row is written
    | Stored(row: Row, response: Response)

  /** The choice after recovery (`if (!parsed)`): a value that is missing or
      falsy (`null`, `false`, `0`, `""`) leads to a fallback row holding the
      stored file name and the model's raw reply; a truthy value leads to a
      full row that stores the PDF text, never the reply, unless mapping it
      throws, which the route answers with 500 before any row is written. */
  function Decide(recovered: Option<Json>, storedName: string, pdfText: string, reply: string,
                  numStr: real -> string): (o: Outcome)
    ensures o.Stored? || o.ServerError?
    ensures o.Stored? && o.row.FallbackRow? <==> !TruthyValue(recovered)
    ensures o.ServerError? <==> TruthyValue(recovered) && MappingThrows(recovered.value)
    ensures !TruthyValue(recovered) ==>
      o == Stored(FallbackRow(storedName, reply), Degraded(WarningText, reply))
    ensures o.ServerError? ==> o == ServerError(500, ToPrimitiveError)
    ensures o.Stored? && o.row.FullRow? ==>
      && Success(o.row.record) == MapRecord(recovered.value, storedName, pdfText, numStr)
      && o.row.record.rawText == pdfText && o.row.record.fileName == storedName
      && o.response == Saved(recovered.value)
  {
    if !TruthyValue(recovered) then
      Stored(FallbackRow(storedName, reply), Degraded(WarningText, reply))
    else
      match MapRecord(recovered.value, storedName, pdfText, numStr)
      case Failure(message) => ServerError(500, message)
      case Success(record) => Stored(FullRow(record), Saved(recovered.value))
  }

  /** The route once the model has answered with `reply` to the prompt
      built from `pdfText`: the file checks, then recovery and the
      fallback/full choice.  (The model is asked only after the file
      checks; `HandleUpload` supplies the reply.) */
  function Route(file: Option<UploadedFile>, pdfText: string, reply: string,
                 parse: Parser, numStr: real -> string): (o: Outcome)
    // A request carrying a PDF ends with a stored row or the 500 reply.
    ensures o.Stored? || o.ServerError? <==> file.Some? && AcceptsFile(file.value.mimeType)
    ensures file.None? ==> o == BadRequest(400, NoFileErrorText)
    ensures file.Some? && !AcceptsFile(file.value.mimeType) ==> o == FilterRejected(FilterErrorText)
    ensures file.Some? && AcceptsFile(file.value.mimeType) ==>
      o == Decide(Extract(parse, reply), file.value.storedName, pdfText, reply, numStr)
  {
    match file
    case None => BadRequest(400, NoFileErrorText)
    case Some(f) =>
      if !AcceptsFile(f.mimeType) then FilterRejected(FilterErrorText)
      else Decide(Extract(parse, reply), f.storedName, pdfText, reply, numStr)
  }

  /** The route, given the upload, the PDF's text, the model (`generate`, from
      prompt to reply text), the JSON parser and number formatting: the
      model is asked with the prompt built from the PDF text, and its reply
      is what recovery and the row choice work on. */
  function HandleUpload(file: Option<UploadedFile>, pdfText: string, generate: string -> string,
                        parse: Parser, numStr: real -> string): (o: Outcome)
    ensures var reply := generate(PromptHead + pdfText + PromptTail);
      o == Route(file, pdfText, reply, parse, numStr)
  {
    Route(file, pdfText, generate(BuildPrompt(pdfText)), parse, numStr)
  }

  /** A reply that is pure prose (no `{` and not JSON as a whole) is kept:
      the fallback row stores it, and the response carries the warning and
      the same text. */
  lemma ProseReplyIsSaved(file: UploadedFile, pdfText: string, reply: string,
                          parse: Parser, numStr: real -> string)
    requires AcceptsFile(file.mimeType)
    requires '{' !in reply
    requires parse(reply).None?
    ensures Route(Some(file), pdfText, reply, parse, numStr)
            == Stored(FallbackRow(file.storedName, reply), Degraded(WarningText, reply))
  {
    assert !HasPair(reply, '{', '}');
    assert Extract(parse, reply).None?;
  }

  /** The reply `Sure! {"personal":{"name":"Jane"},"summary":null}`: with a
      parser that reads the embedded object as such, the stored row has the
      name "Jane" and every other column at its default: NULL for the other
      contact columns, the summary, the rating and the feedback, `[]` for
      every list column, the stored file name, and the PDF text as its raw
      text. */
  lemma JaneReplyScenario(file: UploadedFile, pdfText: string, parse: Parser, numStr: real -> string)
    requires AcceptsFile(file.mimeType)
    requires parse(JaneReply).None?
    requires parse(JaneObject) == Some(JaneValue)
    ensures Route(Some(file), pdfText, JaneReply, parse, numStr)
            == Stored(FullRow(JaneRecord(file.storedName, pdfText)), Saved(JaneValue))
  {
    JaneReplyRecovers(parse);
    JaneValueMaps(file.storedName, pdfText, numStr);
  }

  /** A reply whose recovered value has an uncoercible `improvement_areas`
      gets the 500 reply, and no row is written. */
  lemma UncoercibleFeedbackFails(file: UploadedFile, pdfText: string, reply: string,
                                 parse: Parser, numStr: real -> string, areas: Json)
    requires AcceptsFile(file.mimeType)
    requires Extract(parse, reply) == Some(FeedbackHolding(areas))
    requires Uncoercible(areas)
    ensures Route(Some(file), pdfText, reply, parse, numStr) == ServerError(500, ToPrimitiveError)
  {
    FeedbackPath(areas);
  }

  /** For a PDF upload whose reply recovers to a truthy value that maps
      without throwing, the route stores the full row mapped from that value
      and answers with it. */
  lemma StoresDecision(file: UploadedFile, pdfText: string, reply: string,
                       parse: Parser, numStr: real -> string, recovered: Option<Json>)
    requires AcceptsFile(file.mimeType)
    requires Extract(parse, reply) == recovered && TruthyValue(recovered)
    requires MapRecord(recovered.value, file.storedName, pdfText, numStr).Success?
    ensures Route(Some(file), pdfText, reply, parse, numStr)
            == Stored(FullRow(MapRecord(recovered.value, file.storedName, pdfText, numStr).value),
                      Saved(recovered.value))
  {
  }

  lemma JaneReplyRecovers(parse: Parser)
    requires parse(JaneReply).None?
    requires parse(JaneObject) == Some(JaneValue)
    ensures Extract(parse, JaneReply) == Some(JaneValue)
  {
    assert JaneObject[0] == '{' && JaneObject[|JaneObject| - 1] == '}';
    assert '{' !in "Sure! " && '}' !in "";
    assert JaneReply == "Sure! " + JaneObject + "";
    EmbeddedObject(parse, "Sure! ", JaneObject, "");
  }

  lemma JaneValueMaps(storedName: string, pdfText: string, numStr: real -> string)
    ensures MapRecord(JaneValue, storedName, pdfText, numStr) == Success(JaneRecord(storedName, pdfText))
  {
    JaneKeys();
    var personal := JObject(map["name" := JString("Jane")]);
    assert Get(JaneValue, "personal") == Some(personal);
    assert Or(Get(JaneValue, "personal"), EmptyObject) == personal;
    assert Get(personal, "name") == Some(JString("Jane"));
    assert personal.fields.Keys == {"name"};
    assert Get(personal, "email") == None;
    assert Get(personal, "phone") == None;
    assert Get(personal, "linkedin") == None;
    assert Get(JaneValue, "summary") == Some(JNull);
    assert Get(JaneValue, "ai_feedback") == None;
    assert Get(JaneValue, "work_experience") == None;
    assert Get(JaneValue, "education") == None;
    assert Get(JaneValue, "projects") == None;
    assert Get(JaneValue, "certifications") == None;
    assert Get(JaneValue, "technical_skills") == None;
    assert Get(JaneValue, "soft_skills") == None;
  }

  lemma JaneKeys()
    ensures JaneValue.JObject? && JaneValue.fields.Keys == {"personal", "summary"}
  {
  }

  const JaneObject: string := "{\"personal\":{\"name\":\"Jane\"},\"summary\":null}"
  const JaneReply: string := "Sure! " + JaneObject
  /** The row for that value: the defaults, with the name "Jane". */
  function JaneRecord(fileName: string, pdfText: string): ResumeRecord {
    DefaultRecord(fileName, pdfText).(name := JString("Jane"))
  }

  const JaneValue: Json :=
    JObject(map["personal" := JObject(map["name" := JString("Jane")]), "summary" := JNull])
}
