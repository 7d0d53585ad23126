/** The mapping in the upload handler from the recovered JSON value to the
    columns of one stored resume, with JavaScript's `||` defaults,
    `typeof … === 'number'` for the rating and `join('; ')` for the
    feedback. */
module ResumeMapping {
  import opened Wrappers
  import opened JsStrings
  import opened Json

  /** The columns of a full resume row.  A nullable column holds `JNull` for
      SQL NULL and otherwise the value copied from the reply; a list column
      holds the copied value or `[]`. */
  datatype ResumeRecord = ResumeRecord(
    name: Json,
    email: Json,
    phone: Json,
    linkedin: Json,
    summary: Json,
    workExperience: Json,
    education: Json,
    projects: Json,
    certifications: Json,
    technicalSkills: Json,
    softSkills: Json,
    rating: Option<real>,
    feedback: Option<string>,
    suggestedSkills: Json,
    fileName: string,
    rawText: string)

  /** The rating column: the value of `rating_out_of_10` when it is a
      number, NULL for anything else (a numeric string included). */
  function Rating(v: Value): (r: Option<real>)
    ensures r.Some? <==> IsNumber(v)
    ensures r.Some? ==> v == Some(JNumber(r.value))
  {
    if IsNumber(v) then Some(v.value.n) else None
  }

  /** The feedback column: NULL when `improvement_areas` is missing or
      falsy; the elements joined with "; " when it is an array (so `[]`
      gives the empty string, not NULL); `String(v)` for any other truthy
      value.  The conversion throws a TypeError on an uncoercible value. */
  function Feedback(areas: Value, numStr: real -> string): (r: Result<Option<string>>)
    ensures r == Success(None) <==> !TruthyValue(areas)
    ensures r.Failure? <==> TruthyValue(areas) && Uncoercible(areas.value)
    ensures r.Failure? ==> r.error == ToPrimitiveError
    ensures areas == Some(EmptyArray) ==> r == Success(Some(""))
    ensures TruthyValue(areas) && areas.value.JArray? && r.Success? ==>
      r.value == Some(Join(ElemStrs(areas.value.elems, numStr).value, "; "))
    ensures TruthyValue(areas) && !areas.value.JArray? && r.Success? ==>
      r.value == Some(ToStr(areas.value, numStr).value)
  {
    if !TruthyValue(areas) then Success(None)
    else if areas.value.JArray? then
      match ElemStrs(areas.value.elems, numStr)
      case Failure(e) => Failure(e)
      case Success(strs) => Success(Some(Join(strs, "; ")))
    else
      match ToStr(areas.value, numStr)
      case Failure(e) => Failure(e)
      case Success(str) => Success(Some(str))
  }

  /** An array of strings none of which holds a semicolon is stored so that
      splitting the feedback at "; " gives the strings back. */
  lemma FeedbackSplitsBack(strs: seq<string>, numStr: real -> string)
    requires |strs| >= 1
    requires forall i :: 0 <= i < |strs| ==> ';' !in strs[i]
    ensures var areas := Some(JArray(seq(|strs|, i requires 0 <= i < |strs| => JString(strs[i]))));
      && Feedback(areas, numStr).Success? && Feedback(areas, numStr).value.Some?
      && SplitSemicolon(Feedback(areas, numStr).value.value) == strs
  {
    var elems := seq(|strs|, i requires 0 <= i < |strs| => JString(strs[i]));
    assert !exists i :: 0 <= i < |elems| && Uncoercible(elems[i]);
    var parts := ElemStrs(elems, numStr).value;
    assert parts == strs by {
      forall i | 0 <= i < |strs| ensures parts[i] == strs[i] {
        assert elems[i].JString?;
      }
    }
    SplitJoinRoundTrip(strs);
  }

  /** `parsed[outer] || {}` followed by `[key]` reads the same as the path
      `parsed.outer.key`: defaulting to `{}` only turns "absent or falsy"
      into "absent". */
  lemma DefaultedRead(parsed: Json, outer: string, key: string)
    ensures Get(Or(Get(parsed, outer), EmptyObject), key) == Path(parsed, [outer, key])
  {
    var p := Get(parsed, outer);
    if p.Some? {
      assert [outer, key][1..] == [key];
      assert Path(parsed, [outer, key]) == Path(p.value, [key]);
      if TruthyValue(p) {
        assert Get(Or(p, EmptyObject), key) == Get(p.value, key);
      } else {
        assert !p.value.JObject?;
      }
    }
  }

  /** A nullable column: `v || null`. */
  function NullableColumn(v: Value): (r: Json)
    ensures r == JNull || Truthy(r)
  {
    Or(v, JNull)
  }

  /** A list column: `v || []`. */
  function ListColumn(v: Value): (r: Json)
    ensures Truthy(r)
  {
    Or(v, EmptyArray)
  }

  /** The mapping throws exactly when `ai_feedback.improvement_areas` is
      truthy and uncoercible; no other column read can throw. */
  ghost predicate MappingThrows(parsed: Json) {
    var areas := Path(parsed, ["ai_feedback", "improvement_areas"]);
    TruthyValue(areas) && Uncoercible(areas.value)
  }

  /** The row for a recovered value (`parsed.personal || {}`, then each
      column with its default); `fileName` is the stored upload name and
      `pdfText` the text extracted from the PDF, not the model's reply.  The
      TypeError of the feedback conversion propagates. */
  function MapRecord(parsed: Json, fileName: string, pdfText: string, numStr: real -> string): (r: Result<ResumeRecord>)
    ensures r.Failure? <==> MappingThrows(parsed)
    ensures r.Failure? ==> r.error == ToPrimitiveError
    ensures r.Success? ==> r.value.fileName == fileName && r.value.rawText == pdfText
  {
    DefaultedRead(parsed, "ai_feedback", "improvement_areas");
    var personal := Or(Get(parsed, "personal"), EmptyObject);
    var aiFeedback := Or(Get(parsed, "ai_feedback"), EmptyObject);
    var feedback := Feedback(Get(aiFeedback, "improvement_areas"), numStr);
    if feedback.Failure? then Failure(feedback.error)
    else Success(ResumeRecord(
      name := NullableColumn(Get(personal, "name")),
      email := NullableColumn(Get(personal, "email")),
      phone := NullableColumn(Get(personal, "phone")),
      linkedin := NullableColumn(Get(personal, "linkedin")),
      summary := NullableColumn(Get(parsed, "summary")),
      workExperience := ListColumn(Get(parsed, "work_experience")),
      education := ListColumn(Get(parsed, "education")),
      projects := ListColumn(Get(parsed, "projects")),
      certifications := ListColumn(Get(parsed, "certifications")),
      technicalSkills := ListColumn(Get(parsed, "technical_skills")),
      softSkills := ListColumn(Get(parsed, "soft_skills")),
      rating := Rating(Get(aiFeedback, "rating_out_of_10")),
      feedback := feedback.value,
      suggestedSkills := ListColumn(Get(aiFeedback, "suggested_skills_to_learn")),
      fileName := fileName,
      rawText := pdfText))
  }

  /** The contact columns against the paths they are read from: each is the
      value at `personal.<field>` when that is truthy, and NULL when it is
      missing or falsy (`""` included), also when `personal` itself is
      missing, falsy or not an object. */
  lemma PersonalColumns(parsed: Json, fileName: string, pdfText: string, numStr: real -> string)
    ensures var r := MapRecord(parsed, fileName, pdfText, numStr);
      r.Success? ==>
      && r.value.name == Or(Path(parsed, ["personal", "name"]), JNull)
      && r.value.email == Or(Path(parsed, ["personal", "email"]), JNull)
      && r.value.phone == Or(Path(parsed, ["personal", "phone"]), JNull)
      && r.value.linkedin == Or(Path(parsed, ["personal", "linkedin"]), JNull)
  {
    DefaultedRead(parsed, "personal", "name");
    DefaultedRead(parsed, "personal", "email");
    DefaultedRead(parsed, "personal", "phone");
    DefaultedRead(parsed, "personal", "linkedin");
  }

  /** The top-level columns: the summary is NULL and each list column `[]`
      when its field is missing or falsy; otherwise the value is copied. */
  lemma TopLevelColumns(parsed: Json, fileName: string, pdfText: string, numStr: real -> string)
    ensures var r := MapRecord(parsed, fileName, pdfText, numStr);
      r.Success? ==>
      && r.value.summary == Or(Path(parsed, ["summary"]), JNull)
      && r.value.workExperience == Or(Path(parsed, ["work_experience"]), EmptyArray)
      && r.value.education == Or(Path(parsed, ["education"]), EmptyArray)
      && r.value.projects == Or(Path(parsed, ["projects"]), EmptyArray)
      && r.value.certifications == Or(Path(parsed, ["certifications"]), EmptyArray)
      && r.value.technicalSkills == Or(Path(parsed, ["technical_skills"]), EmptyArray)
      && r.value.softSkills == Or(Path(parsed, ["soft_skills"]), EmptyArray)
  {
  }

  /** The feedback columns, read from `ai_feedback` (treated as `{}` when
      missing or falsy): the rating exactly when `rating_out_of_10` is a
      number, the joined improvement areas, and the suggested skills or
      `[]`. */
  lemma FeedbackColumns(parsed: Json, fileName: string, pdfText: string, numStr: real -> string)
    ensures var r := MapRecord(parsed, fileName, pdfText, numStr);
      && (r.Failure? <==> Feedback(Path(parsed, ["ai_feedback", "improvement_areas"]), numStr).Failure?)
      && (r.Success? ==>
        && r.value.rating == Rating(Path(parsed, ["ai_feedback", "rating_out_of_10"]))
        && r.value.feedback == Feedback(Path(parsed, ["ai_feedback", "improvement_areas"]), numStr).value
        && r.value.suggestedSkills == Or(Path(parsed, ["ai_feedback", "suggested_skills_to_learn"]), EmptyArray))
  {
    DefaultedRead(parsed, "ai_feedback", "rating_out_of_10");
    DefaultedRead(parsed, "ai_feedback", "improvement_areas");
    DefaultedRead(parsed, "ai_feedback", "suggested_skills_to_learn");
  }

  /** A nullable column is NULL or a truthy value; a list column is never
      NULL (nor any other falsy value). */
  predicate WellFormed(r: ResumeRecord) {
    && (r.name == JNull || Truthy(r.name))
    && (r.email == JNull || Truthy(r.email))
    && (r.phone == JNull || Truthy(r.phone))
    && (r.linkedin == JNull || Truthy(r.linkedin))
    && (r.summary == JNull || Truthy(r.summary))
    && Truthy(r.workExperience) && Truthy(r.education) && Truthy(r.projects)
    && Truthy(r.certifications) && Truthy(r.technicalSkills) && Truthy(r.softSkills)
    && Truthy(r.suggestedSkills)
  }

  /** Every mapped record keeps those column invariants, whatever shape the
      recovered value has. */
  lemma MapRecordWellFormed(parsed: Json, fileName: string, pdfText: string, numStr: real -> string)
    ensures var r := MapRecord(parsed, fileName, pdfText, numStr);
      r.Success? ==> WellFormed(r.value)
  {
  }

  /** The record holding only defaults. */
  function DefaultRecord(fileName: string, pdfText: string): ResumeRecord {
    ResumeRecord(JNull, JNull, JNull, JNull, JNull,
                 EmptyArray, EmptyArray, EmptyArray, EmptyArray, EmptyArray, EmptyArray,
                 None, None, EmptyArray, fileName, pdfText)
  }

  /** A recovered value that is not an object (an array, a string, a
      number, `true`, `{}` included as an object with no fields) yields only
      defaults. */
  lemma NonObjectGivesDefaults(parsed: Json, fileName: string, pdfText: string, numStr: real -> string)
    requires !parsed.JObject? || parsed.fields == map[]
    ensures MapRecord(parsed, fileName, pdfText, numStr) == Success(DefaultRecord(fileName, pdfText))
  {
  }

  /** `{"ai_feedback":{"improvement_areas":{"toString":1}}}`: converting the
      object to a string throws, and so does the mapping.  The same holds
      when the object is an element of the array `improvement_areas`. */
  lemma ToStringKeyThrows(fileName: string, pdfText: string, numStr: real -> string)
    ensures MapRecord(FeedbackHolding(ToStringObject), fileName, pdfText, numStr)
            == Failure(ToPrimitiveError)
    ensures MapRecord(FeedbackHolding(JArray([JString("layout"), ToStringObject])), fileName, pdfText, numStr)
            == Failure(ToPrimitiveError)
  {
    var areas := JArray([JString("layout"), ToStringObject]);
    assert Uncoercible(areas.elems[1]);
    assert Path(FeedbackHolding(ToStringObject), ["ai_feedback", "improvement_areas"]) == Some(ToStringObject) by {
      FeedbackPath(ToStringObject);
    }
    assert Path(FeedbackHolding(areas), ["ai_feedback", "improvement_areas"]) == Some(areas) by {
      FeedbackPath(areas);
    }
  }

  /** An object whose own `toString` property is the number 1. */
  const ToStringObject: Json := JObject(map["toString" := JNumber(1.0)])

  /** `{"ai_feedback":{"improvement_areas": areas}}`. */
  function FeedbackHolding(areas: Json): Json {
    JObject(map["ai_feedback" := JObject(map["improvement_areas" := areas])])
  }

  lemma FeedbackPath(areas: Json)
    ensures Path(FeedbackHolding(areas), ["ai_feedback", "improvement_areas"]) == Some(areas)
  {
    var keys := ["ai_feedback", "improvement_areas"];
    assert keys[1..] == ["improvement_areas"] && keys[1..][1..] == [];
  }
}
