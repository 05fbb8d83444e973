/** The instruction text that `analyzeResume` sends to every endpoint it
    tries: the résumé and the optional job description, both cut to a
    fixed length and with every double quote turned into a single quote,
    embedded in a fixed template that also describes the JSON object the
    model has to return. */
module Prompt {
  import opened JsString

  /** Characters of the résumé kept, and of the job description. */
  const ResumeLimit: nat := 10000
  const JobDescriptionLimit: nat := 3000

  function Min(a: int, b: int): int {
    if a <= b then a else b
  }

  /** `s.substring(0, n)` for n >= 0: the first n characters, or all of
      `s` when it is shorter. */
  function Truncate(s: string, n: nat): (r: string)
    ensures |r| == Min(|s|, n) && r <= s
  {
    s[..Min(|s|, n)]
  }

  function Neutralize(c: char): char {
    if c == '"' then '\'' else c
  }

  /** `s.replace(/"/g, "'")` */
  function ReplaceQuotes(s: string): (r: string)
    ensures |r| == |s|
    ensures forall i :: 0 <= i < |s| ==> r[i] == Neutralize(s[i])
  {
    if s == [] then [] else [Neutralize(s[0])] + ReplaceQuotes(s[1..])
  }

  /** The text embedded between the quotes of the template: cut to
      `limit` characters first, quotes replaced afterwards. */
  function Sanitize(s: string, limit: nat): (r: string)
    ensures |r| == Min(|s|, limit)
    ensures forall i :: 0 <= i < |r| ==> r[i] == Neutralize(s[i])
    ensures '"' !in r
  {
    ReplaceQuotes(Truncate(s, limit))
  }

  /** A text within the limit that holds no double quote is embedded
      exactly as it is. */
  lemma SanitizeKeepsShortText(s: string, limit: nat)
    requires |s| <= limit && '"' !in s
    ensures Sanitize(s, limit) == s
  {
    var r := Sanitize(s, limit);
    forall i | 0 <= i < |s| ensures r[i] == s[i] {
      assert s[i] != '"';
    }
  }

  /** `jobDescription ? … : ""` : undefined and the empty string are both
      falsy, so only a non-empty description counts as given. */
  predicate JobDescriptionGiven(jd: Option<string>) {
    jd.Some? && jd.value != ""
  }

  const Opening := "\n    Resume content: \""
  const AfterResume := "\"\n    "
  const JobDescriptionLabel := "Job Description: \""
  const Instructions :=
    "\n\n    Act as a senior technical recruiter. Analyze the resume.\n"
    + "    Return ONLY a valid JSON object:\n"
    + "    {\n"
    + "      \"detectedRole\": \"...\",\n"
    + "      \"matchPercentage\": 0-100,\n"
    + "      \"categoryScores\": [{\"name\": \"Technical\", \"score\": 0-100}, {\"name\": \"Experience\", \"score\": 0-100}, {\"name\": \"Education\", \"score\": 0-100}, {\"name\": \"Formatting\", \"score\": 0-100}],\n"
    + "      \"missingSkills\": [],\n"
    + "      \"jobRecommendations\": [],\n"
    + "      \"projectIdeas\": [],\n"
    + "      \"writingIssues\": [{\"issue\": \"...\", \"suggestion\": \"...\"}],\n"
    + "      \"missingPortions\": [],\n"
    + "      \"suggestions\": [],\n"
    + "      \"interviewQuestions\": [{\"question\": \"...\", \"rationale\": \"...\"}]\n"
    + "      "
  const SchemaFields := ", \"jdMatchScore\": 0-100, \"jdAnalysis\": \"...\""
  const Closing := "\n    }\n  "

  /** The `Job Description: "…"` line of the template, empty unless a
      description is given. */
  function JobDescriptionBlock(jd: Option<string>): string {
    if JobDescriptionGiven(jd)
    then JobDescriptionLabel + (Sanitize(jd.value, JobDescriptionLimit) + "\"")
    else ""
  }

  /** The `jdMatchScore` and `jdAnalysis` entries of the schema, empty
      unless a description is given. */
  function SchemaExtension(jd: Option<string>): string {
    if JobDescriptionGiven(jd) then SchemaFields else ""
  }

  /** The template with its three holes filled. */
  function Fill(resume: string, block: string, extension: string): string {
    Opening + (resume + (AfterResume + (block + (Instructions + (extension + Closing)))))
  }

  /** The template literal of `analyzeResume` (lines 37-56). */
  function BuildPrompt(text: string, jd: Option<string>): string {
    Fill(Sanitize(text, ResumeLimit), JobDescriptionBlock(jd), SchemaExtension(jd))
  }

  /** The lengths of the fixed parts of the template. */
  lemma TemplateLengths()
    ensures |Opening| == 22 && |AfterResume| == 6 && |JobDescriptionLabel| == 18
    ensures |Instructions| == 630 && |SchemaFields| == 44 && |Closing| == 9
  {
  }

  /** The prompt holds the fixed template, the kept résumé characters and,
      only when a description is given, the description block and the two
      extra schema entries. */
  lemma PromptLength(text: string, jd: Option<string>)
    ensures |BuildPrompt(text, jd)| == 667 + Min(|text|, ResumeLimit)
      + (if JobDescriptionGiven(jd) then 63 + Min(|jd.value|, JobDescriptionLimit) else 0)
  {
    TemplateLengths();
  }

  /** The description block and the two extra schema entries are there
      under exactly the same condition: a description that is given. */
  lemma DescriptionPartsGated(jd: Option<string>)
    ensures JobDescriptionBlock(jd) != [] <==> JobDescriptionGiven(jd)
    ensures SchemaExtension(jd) != [] <==> JobDescriptionGiven(jd)
  {
  }

  /** Passing an empty description gives the same prompt as leaving it
      out. */
  lemma EmptyDescriptionIgnored(text: string, jd: Option<string>)
    requires !JobDescriptionGiven(jd)
    ensures BuildPrompt(text, jd) == BuildPrompt(text, None)
  {
    assert JobDescriptionBlock(jd) == JobDescriptionBlock(None);
    assert SchemaExtension(jd) == SchemaExtension(None);
  }

  /** `s`, cut to `limit` characters and with each double quote turned
      into a single one, sits in `p` from position `start` on, between two
      double quotes, and holds no double quote itself: nothing in `s` can
      end the quoted text early. */
  predicate QuotedAt(p: string, start: nat, s: string, limit: nat) {
    var n := Min(|s|, limit);
    && 0 < start && start + n < |p|
    && p[start - 1] == '"' && p[start + n] == '"'
    && (forall i :: 0 <= i < n ==> p[start + i] == Neutralize(s[i]))
    && (forall k :: start <= k < start + n ==> p[k] != '"')
  }

  /** Sanitized text put between a closing quote and an opening one is
      quoted there. */
  lemma SanitizedIsQuoted(pre: string, s: string, limit: nat, post: string)
    requires pre != [] && pre[|pre| - 1] == '"' && post != [] && post[0] == '"'
    ensures QuotedAt(pre + (Sanitize(s, limit) + post), |pre|, s, limit)
  {
    var seg := Sanitize(s, limit);
    var p := pre + (seg + post);
    assert p[|pre| - 1] == pre[|pre| - 1];
    assert p[|pre| + |seg|] == post[0];
    assert forall i :: 0 <= i < |seg| ==> p[|pre| + i] == seg[i];
  }

  lemma RegroupThree(a: string, b: string, c: string, y: string)
    ensures a + (b + (c + y)) == (a + b + c) + y
  {
  }

  lemma RegroupBlock(pre: string, l: string, j: string, q: string, x: string)
    ensures pre + ((l + (j + q)) + x) == (pre + l) + (j + (q + x))
    ensures ((pre + l) + (j + (q + x)))[|pre|..|pre| + |l|] == l
  {
    var p := (pre + l) + (j + (q + x));
    assert forall i :: 0 <= i < |l| ==> p[|pre|..|pre| + |l|][i] == l[i];
  }

  lemma PrefixOfConcat(a: string, y: string)
    ensures (a + y)[..|a|] == a
  {
  }

  /** The résumé follows the opening line of the template and is quoted
      there. */
  lemma ResumeEmbedded(text: string, jd: Option<string>)
    ensures BuildPrompt(text, jd)[..22] == Opening
    ensures QuotedAt(BuildPrompt(text, jd), 22, text, ResumeLimit)
  {
    var rest := AfterResume + (JobDescriptionBlock(jd) + (Instructions + (SchemaExtension(jd) + Closing)));
    TemplateLengths();
    PrefixOfConcat(Opening, Sanitize(text, ResumeLimit) + rest);
    SanitizedIsQuoted(Opening, text, ResumeLimit, rest);
  }

  /** A given description follows its label, which comes right after the
      résumé line, and is quoted there. */
  lemma JobDescriptionEmbedded(text: string, jd: Option<string>)
    requires JobDescriptionGiven(jd)
    ensures OccursAt(BuildPrompt(text, jd), JobDescriptionLabel, 28 + Min(|text|, ResumeLimit))
    ensures QuotedAt(BuildPrompt(text, jd), 46 + Min(|text|, ResumeLimit), jd.value, JobDescriptionLimit)
  {
    var r, j := Sanitize(text, ResumeLimit), Sanitize(jd.value, JobDescriptionLimit);
    var x := Instructions + (SchemaFields + Closing);
    var pre := Opening + r + AfterResume;
    TemplateLengths();
    RegroupThree(Opening, r, AfterResume, JobDescriptionBlock(jd) + x);
    RegroupBlock(pre, JobDescriptionLabel, j, "\"", x);
    SanitizedIsQuoted(pre + JobDescriptionLabel, jd.value, JobDescriptionLimit, "\"" + x);
  }

  lemma RegroupFour(a: string, b: string, c: string, d: string, y: string)
    ensures a + (b + (c + (d + y))) == (a + b + c + d) + y
  {
  }

  /** With a description, the schema ends with the `jdMatchScore` and
      `jdAnalysis` entries, right before its closing brace. */
  lemma PromptEndingWithDescription(text: string, jd: Option<string>)
    requires JobDescriptionGiven(jd)
    ensures EndsWith(BuildPrompt(text, jd), Instructions + (SchemaFields + Closing))
  {
    var r, b := Sanitize(text, ResumeLimit), JobDescriptionBlock(jd);
    RegroupFour(Opening, r, AfterResume, b, Instructions + (SchemaFields + Closing));
    EndsWithConcat(Opening + r + AfterResume + b, Instructions + (SchemaFields + Closing));
  }

  /** Without one, the last entry of the fixed schema is followed directly
      by the closing brace. */
  lemma PromptEndingWithoutDescription(text: string, jd: Option<string>)
    requires !JobDescriptionGiven(jd)
    ensures EndsWith(BuildPrompt(text, jd), Instructions + Closing)
  {
    var r := Sanitize(text, ResumeLimit);
    assert SchemaExtension(jd) + Closing == Closing;
    RegroupFour(Opening, r, AfterResume, [], Instructions + Closing);
    EndsWithConcat(Opening + r + AfterResume + [], Instructions + Closing);
  }
}
