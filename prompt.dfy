/** `buildPromptFromText`: the fixed instruction template around the
    extracted resume text.  The source writes it as a template literal that
    begins with three line breaks and ends with a line break and two spaces,
    and trims the result. */
module Prompt {
  import opened JsStrings

  /** The template from its first `{` up to and including the line break
      after the opening triple quote: the target schema, the instructions
      and the "Resume text:" heading. */
  const PromptHead: string := "{" + PromptSchema

  /** The part of the head after its opening brace. */
  const PromptSchema: string :=
    "\n" +
    "  \"personal\": {\n" +
    "    \"name\": string | null,\n" +
    "    \"email\": string | null,\n" +
    "    \"phone\": string | null,\n" +
    "    \"linkedin\": string | null\n" +
    "  },\n" +
    "  \"summary\": string | null,\n" +
    "  \"work_experience\": [ { \"role\": string, \"company\": string, \"start\": string|null, \"end\": string|null, \"description\": string|null } ],\n" +
    "  \"education\": [ { \"degree\": string|null, \"institution\": string|null, \"start\": string|null, \"end\": string|null, \"notes\": string|null } ],\n" +
    "  \"projects\": [ { \"name\": string, \"description\": string|null, \"technologies\": [string] } ],\n" +
    "  \"certifications\": [ string ],\n" +
    "  \"technical_skills\": [ string ],\n" +
    "  \"soft_skills\": [ string ],\n" +
    "  \"ai_feedback\": {\n" +
    "    \"rating_out_of_10\": integer,\n" +
    "    \"improvement_areas\": [ string ],\n" +
    "    \"suggested_skills_to_learn\": [ string ]\n" +
    "  }\n" +
    "}\n" +
    "\n" +
    "Parse the resume below. Produce JSON values; for fields you cannot find, set null or empty arrays as appropriate. Keep fields consistent. Do NOT output any extra text.\n" +
    "\n" +
    "Resume text:\n" +
    "\"\"\"\n"

  /** What follows the resume text inside the trimmed template: a line
      break and the closing triple quote. */
  const PromptTail: string := "\n\"\"\""

  /** The whitespace the template literal has before and after. */
  const Leading: string := "\n\n\n"
  const Trailing: string := "\n  "

  lemma PaddingIsWhitespace()
    ensures AllWhitespace(Leading) && AllWhitespace(Trailing)
  {
  }

  /** The template literal before `.trim()` is applied: the head, the
      resume text and the tail, padded with whitespace that trimming
      removes exactly. */
  function Template(resumeText: string): (r: string)
    ensures Trim(r) == PromptHead + resumeText + PromptTail
  {
    HeadOpens();
    FramedEnds(PromptHead, resumeText, PromptTail);
    PaddingTrims(PromptHead + resumeText + PromptTail);
    Leading + (PromptHead + resumeText + PromptTail) + Trailing
  }

  lemma HeadOpens()
    ensures |PromptHead| > 0 && PromptHead[0] == '{'
  {
  }

  /** A text that starts with `{` and ends with a quote has non-whitespace
      ends, so trimming stops at both. */
  lemma FramedEnds(head: string, resumeText: string, tail: string)
    requires |head| > 0 && head[0] == '{' && |tail| > 0 && tail[|tail| - 1] == '"'
    ensures var m := head + resumeText + tail;
      && |m| > 0 && !IsJsWhitespace(m[0]) && !IsJsWhitespace(m[|m| - 1])
  {
    var m := head + resumeText + tail;
    assert m[0] == head[0] && m[|m| - 1] == tail[|tail| - 1];
  }

  /** Trimming removes exactly the leading and trailing padding of the
      template, whatever the resume text is. */
  lemma PaddingTrims(m: string)
    requires |m| > 0 && !IsJsWhitespace(m[0]) && !IsJsWhitespace(m[|m| - 1])
    ensures Trim(Leading + m + Trailing) == m
  {
    PaddingIsWhitespace();
    TrimAround(Leading, m, Trailing);
  }

  /** `buildPromptFromText(resumeText)`: the resume text is embedded
      unchanged (neither truncated nor sanitised) between the fixed head and
      tail, whatever it holds, even when it is empty or all whitespace. */
  function BuildPrompt(resumeText: string): (r: string)
    ensures r == PromptHead + resumeText + PromptTail
    ensures |r| == |PromptHead| + |resumeText| + |PromptTail|
    ensures r[|PromptHead|..|r| - |PromptTail|] == resumeText
  {
    Trim(Template(resumeText))
  }

  /** Different resume texts give different prompts: the text can be read
      back from the prompt. */
  lemma BuildPromptInjective(a: string, b: string)
    requires BuildPrompt(a) == BuildPrompt(b)
    ensures a == b
  {
  }
}
