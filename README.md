# Résumé analysis client: a verified model of `analyzeResume`

`analyzeResume(text, apiKey, jobDescription?)` in `src/utils/gemini.ts` asks a
generative-AI service to review a résumé. It does three things in sequence.

1. It builds one instruction text, the prompt. The prompt embeds the résumé
   and, optionally, a job description. Each is cut to a fixed length, and
   every double quote in it becomes a single quote.
2. It tries fourteen endpoints in a fixed order: seven models, each under
   API version `v1` and then `v1beta`. It stops at the first usable answer.
   It also stops when an error mentions the API key. After the last
   endpoint it throws a "capacity reached" error.
3. Before parsing an answer, it cleans it. One regular expression
   removes a Markdown code fence, and then the text is trimmed.

The model has four modules, one file each:

- `js_string.dfy` (`JsString`) holds the JavaScript string primitives the
  client relies on: `trim`, with its ECMAScript whitespace set, and
  `includes`, both characterised by lemmas. It also holds the `Option`
  type that stands for `undefined`.
- `prompt.dfy` (`Prompt`) holds the prompt template and its sanitisation.
  It proves where the résumé and the job description sit in the prompt,
  and that they are quoted there safely. It proves which parts of the
  template depend on the job description, and the prompt's exact length.
- `fence.dfy` (`Fence`) holds a literal model of the global,
  non-multiline `replace`: a left-to-right scan of the regular expression's
  alternatives. A closed form, `StripFences`, is proved equal to that scan.
  Lemmas pin down which fences are removed and which stay.
- `fallback.dfy` (`Fallback`) holds the endpoint grid, the URL, and what
  one reply does to the loop (`Classify`). `Run` is the specification of
  the whole search. The imperative nested loops (`AnalyzeResume`,
  `TryEndpoints`, `TryVersions`) are proved to compute `Run`. They also
  make exactly the planned requests, in order, up to the first decisive
  attempt.

I/O is represented by parameters. A `Session` carries the network as a
function from request to reply, and `JSON.parse` as a function from text to
verdict. `RequestsDistinct` shows that treating the network as a function
loses nothing: no request is ever sent twice.

Behaviour of the code worth noting:

- The `catch` at line 103 rethrows every exception whose message contains
  `"API Key"`, not only the invalid-key error of line 98. So
  `Outcome.Raised` carries the message.
- `jdMatchScore` and `jdAnalysis` are only asked for in the prompt; the
  code does not check that they are in the result. The model proves the
  prompt side.
- A fenced body cleans like the same body without a fence
  (`FenceTransparent`), while `Clean` itself is not idempotent on nested
  fences.
- Fences are removed only at the very start and the very end of the raw
  text. The `KeepsOpening` and `KeepsClosing` lemmas show the cases where a
  fence stays.

## Model

| member | source | states |
|---|---|---|
| JsString.IsWhitespace | src/utils/gemini.ts:89 | no contract of its own: the ECMAScript WhiteSpace and LineTerminator code points that `trim` removes; used by every `Trim` lemma |
| JsString.TrimStart | src/utils/gemini.ts:89 | no contract of its own: `trimStart`; `TrimStartFacts` states what it keeps and what it drops |
| JsString.TrimEnd | src/utils/gemini.ts:89 | no contract of its own: `trimEnd`; `TrimEndFacts` states what it keeps and what it drops |
| JsString.Trim | src/utils/gemini.ts:89 | no contract of its own: `trim`; `TrimCharacterization` states that it gives exactly the text surrounded by whitespace that neither starts nor ends with whitespace |
| JsString.TrimStartFacts | src/utils/gemini.ts:89 | the start-trimmed text is the suffix that begins at the first non-whitespace character, and everything before it is whitespace |
| JsString.TrimEndFacts | src/utils/gemini.ts:89 | the end-trimmed text is the prefix that ends at the last non-whitespace character, and everything after it is whitespace |
| JsString.TrimCharacterization | src/utils/gemini.ts:89 | `trim(s) == mid` exactly when `s` is `mid` surrounded by whitespace, with `mid` neither starting nor ending with whitespace |
| JsString.TrimDropsTrailingWhitespace | src/utils/gemini.ts:89 | whitespace appended to a text does not change what `trim` returns |
| JsString.Includes | src/utils/gemini.ts:97 | `includes(s, p)` holds exactly when `p` occurs in `s` at some position |
| Prompt.Truncate | src/utils/gemini.ts:38 | `substring(0, n)` is the prefix of `s` whose length is the smaller of `n` and the length of `s` |
| Prompt.ReplaceQuotes | src/utils/gemini.ts:38 | `replace(/"/g, "'")` keeps the length and maps each character: `"` becomes `'`, every other character stays |
| Prompt.Sanitize | src/utils/gemini.ts:38-39 | the embedded text keeps as many characters as the limit allows, each the quote-neutralised character at the same position of the original, and no `"` |
| Prompt.SanitizeKeepsShortText | src/utils/gemini.ts:38 | a text within the limit and without `"` is embedded unchanged |
| Prompt.JobDescriptionGiven | src/utils/gemini.ts:39 | no contract of its own: the truthiness test `jobDescription ? … : ""`; `EmptyDescriptionIgnored` states that a missing and an empty description behave alike |
| Prompt.JobDescriptionBlock | src/utils/gemini.ts:39 | no contract of its own: the description line; `DescriptionPartsGated` and `JobDescriptionEmbedded` state when it is present and what it holds |
| Prompt.SchemaExtension | src/utils/gemini.ts:54 | no contract of its own: the two extra schema entries; `DescriptionPartsGated` and `PromptEndingWithDescription` state when they are present |
| Prompt.Fill | src/utils/gemini.ts:37-56 | no contract of its own: the template with its three holes; `TemplateLengths` states the lengths of its fixed pieces |
| Prompt.BuildPrompt | src/utils/gemini.ts:37-56 | no contract of its own: the prompt; `ResumeEmbedded` and `JobDescriptionEmbedded` state where the parts sit and `PromptLength` its exact length |
| Prompt.TemplateLengths | src/utils/gemini.ts:37-56 | the fixed pieces of the template have lengths 22, 6, 18, 630, 44 and 9 |
| Prompt.PromptLength | src/utils/gemini.ts:37-56 | the prompt length is 667 plus the kept résumé characters, plus 63 and the kept description characters when a description is given |
| Prompt.DescriptionPartsGated | src/utils/gemini.ts:39-54 | the description block is non-empty iff a non-empty description is given, and so are the two extra schema entries |
| Prompt.EmptyDescriptionIgnored | src/utils/gemini.ts:39-54 | an empty or missing description gives the same prompt |
| Prompt.ResumeEmbedded | src/utils/gemini.ts:37-38 | the prompt opens with the résumé line, and the sanitised résumé sits between two `"` with no `"` inside |
| Prompt.JobDescriptionEmbedded | src/utils/gemini.ts:39 | with a description, its label follows the résumé line directly, and the sanitised description is quoted right after the label |
| Prompt.PromptEndingWithDescription | src/utils/gemini.ts:53-56 | with a description, the prompt ends with the instructions, the `jdMatchScore`/`jdAnalysis` entries and the closing brace |
| Prompt.PromptEndingWithoutDescription | src/utils/gemini.ts:53-56 | without one, the instructions are followed directly by the closing brace |
| Fence.MatchAt | src/utils/gemini.ts:89 | a match of the alternation removes 0, 4 or 8 characters and never runs past the end |
| Fence.ReplaceAllFrom | src/utils/gemini.ts:89 | no contract of its own: the global `replace` as a left-to-right scan; `ReplaceAllIsStripFences` states what it removes |
| Fence.StripFences | src/utils/gemini.ts:89 | a closed form of what the expression removes: one opening fence and then one closing fence at the end; never longer than its input |
| Fence.Clean | src/utils/gemini.ts:89 | no contract of its own: `replace` then `trim`; `CleanFenced` and `CleanUnfenced` and the `Keeps` lemmas state what it gives |
| Fence.ReplaceAllIsStripFences | src/utils/gemini.ts:89 | the regular-expression scan removes exactly one opening fence at the start and then one closing fence at the very end |
| Fence.CleanUnfenced | src/utils/gemini.ts:89 | a text with no fence at either end is only trimmed |
| Fence.CleanFenced | src/utils/gemini.ts:89 | a body `b` between an opening fence, with or without the `json` tag, and a closing fence cleans to `trim(b)` |
| Fence.FenceTransparent | src/utils/gemini.ts:89 | a body without fences cleans the same with or without a surrounding fence |
| Fence.CleanClosingOnly | src/utils/gemini.ts:89 | a text that does not start with an opening fence loses only its closing fence |
| Fence.LeadingWhitespaceKeepsOpening | src/utils/gemini.ts:89 | any non-empty whitespace before either opening fence keeps that fence up to its line break in the cleaned text; only the closing fence goes |
| Fence.TrailingWhitespaceKeepsClosing | src/utils/gemini.ts:89 | any non-empty whitespace after the closing fence keeps its backquotes at the end of the cleaned text; either opening fence still goes |
| Fence.UpperCaseTagKeepsOpening | src/utils/gemini.ts:89 | an upper-case `JSON` tag is not matched; the opening fence stays |
| Fallback.ThrownMessage | src/utils/gemini.ts:103-109 | a run throws exactly when it does not return |
| Fallback.ErrorMessage | src/utils/gemini.ts:93 | the error message of the body when it is present and non-empty, otherwise the status text |
| Fallback.InvalidKeyMessageMentionsKey | src/utils/gemini.ts:98 | the invalid-key error message contains `"API Key"` |
| Fallback.Caught | src/utils/gemini.ts:102-104 | the catch rethrows exactly the exceptions whose message contains `"API Key"`, with that message, and never returns |
| Fallback.Classify | src/utils/gemini.ts:84-105 | every exception that one attempt lets escape mentions the API key |
| Fallback.ClassifyCases | src/utils/gemini.ts:84-105 | only a non-empty text that parses after cleaning is returned, and it is returned cleaned; a parse error is caught like any other exception; a response that is not ok stops the loop iff it is a 403 whose message contains `"API Key"`, and then with the invalid-key error |
| Fallback.SilentFailuresFallThrough | src/utils/gemini.ts:97-104 | non-403 failures, and exceptions not mentioning the key, send the loop on |
| Fallback.RequestAt | src/utils/gemini.ts:76-81 | every attempt sends the same prompt |
| Fallback.Planned | src/utils/gemini.ts:59-73 | there are exactly fourteen planned requests |
| Fallback.AttemptOrder | src/utils/gemini.ts:59-76 | attempt `2m + v` asks model `m` under version `v`, at the URL built from them and the key |
| Fallback.UrlDetermines | src/utils/gemini.ts:76 | the URL determines the model and the version |
| Fallback.Url | src/utils/gemini.ts:76 | no contract of its own: the REST address; `UrlDetermines` states that it determines the model and the version |
| Fallback.RequestsDistinct | src/utils/gemini.ts:59-76 | no two attempts send the same request |
| Fallback.StepAt | src/utils/gemini.ts:74-105 | no contract of its own: the reply to attempt `k` classified; `StepsAt` and `ClassifyCases` state what it is |
| Fallback.Steps | src/utils/gemini.ts:70-106 | there is one step per planned attempt |
| Fallback.Run | src/utils/gemini.ts:70-109 | a returned answer comes from a returning attempt at or after the start; a rethrown message comes from a throwing attempt |
| Fallback.FirstDecisive | src/utils/gemini.ts:70-107 | the first attempt from `k` on that does not send the loop on; every attempt before it does |
| Fallback.DecidedAt | src/utils/gemini.ts:70-107 | a decisive attempt after only failed ones decides the run |
| Fallback.ExhaustedFrom | src/utils/gemini.ts:109 | when every remaining attempt sends the loop on, the capacity error is thrown |
| Fallback.RunIsFirstDecisive | src/utils/gemini.ts:70-109 | the run ends as its first decisive attempt says, or with the capacity error if there is none |
| Fallback.Execute | src/utils/gemini.ts:70-109 | no contract of its own: the run of a session; `RunIsFirstDecisive` and `OutcomeIsFirst` state how it ends |
| Fallback.Analyze | src/utils/gemini.ts:36-110 | no contract of its own: the whole call as a function; `AnalyzeResume` is proved to compute it |
| Fallback.ExhaustedIff | src/utils/gemini.ts:109 | the capacity error is thrown iff every one of the fourteen attempts sent the loop on |
| Fallback.OutcomeIsFirst | src/utils/gemini.ts:84-104 | a returned answer is from the first usable attempt, and a rethrown error is from the first decisive one |
| Fallback.RaisedMentionsKey | src/utils/gemini.ts:97-103 | every exception that escapes the search mentions the API key |
| Fallback.InvalidKeyStops | src/utils/gemini.ts:97-98 | a 403 mentioning the key, after only failed attempts, ends the run with the invalid-key error, whatever later endpoints would answer |
| Fallback.FencedFirstAnswerWins | src/utils/gemini.ts:84-90 | a first reply that wraps a parsable body in a `json` fence returns the trimmed body from attempt 0 |
| Fallback.Attempt | src/utils/gemini.ts:74-105 | one pass of the inner body makes the planned request for model `m` and version `v` and yields that attempt's step |
| Fallback.Advance | src/utils/gemini.ts:73-106 | a failed attempt keeps the run undecided with one more request made; a decisive one decides the run at that attempt |
| Fallback.TryVersions | src/utils/gemini.ts:73-106 | the inner loop makes the next planned requests in order and either stops the run where it is decided or leaves it undecided after both versions |
| Fallback.TryEndpoints | src/utils/gemini.ts:70-109 | the nested loops end as `Run` says; the requests made are the planned ones, in order, up to the first decisive attempt, or all fourteen |
| Fallback.DecidedEnd | src/utils/gemini.ts:90-103 | a run decided by its last attempt ends there, and a returned answer comes from that attempt |
| Fallback.ExhaustedEnd | src/utils/gemini.ts:109 | a run still undecided after fourteen attempts throws the capacity error |
| Fallback.AnalyzeResume | src/utils/gemini.ts:36-110 | the call ends as the specification of its session says, after between one and fourteen requests, exactly the planned ones up to the first decisive attempt |

## Left out

- `fetch` and the HTTP exchange are represented by the `network` function of the session. The request headers and the `JSON.stringify` framing of the body are left out: a `Request` carries only the URL and the prompt.
- `response.json()` and its `.catch(() => ({}))` fallback are left out. An ok reply carries `candidates[0].content.parts[0].text`, with `None` when that field is missing. A reply that is not ok carries its `error.message`, with `None` when the body has no `error` or no message, or could not be read. A body that parses to `null` is different: `data.candidates` at line 86 or `errData.error` at line 93 throws a `TypeError`, which the `catch` at line 102 absorbs; the session represents such a reply as `Threw` with that error's message.
- Non-string values of the text field or of `error.message` are left out. These include non-empty arrays, which `||` and `!` would treat as truthy.
- `JSON.parse` is represented by the `parse` function of the session, which accepts a text or rejects it with a message. The parsed value itself is not modelled: `Outcome.Returned` carries the cleaned text that `JSON.parse` accepted. Nothing about the returned `AnalysisResult` is claimed, because the code does not validate it.
- Exceptions are modelled by their message only. A thrown object without a `message` becomes `Threw(None)`. A thrown `null` or `undefined` is not modelled: `e.message` at line 103 would itself throw, and that error would leave `analyzeResume` uncaught.
- Console logging (lines 75, 95 and 104) has no effect on the result and is left out.
- `async`/`await` is left out: the attempts are strictly sequential, so the model runs them as an ordinary loop.
- A Dafny `char` is a Unicode scalar value, so a JavaScript string whose characters lie outside the Basic Multilingual Plane cannot be represented code unit by code unit: such a character is two UTF-16 code units in JavaScript and one `char` here. Splitting a surrogate pair at line 38 is not modelled.
- Prompt.Truncate: proved for text without characters outside the Basic Multilingual Plane; for other text `substring` counts UTF-16 code units and the model counts characters.
- Prompt.Sanitize: the same restriction as `Truncate`, whose prefix it neutralises.
- Prompt.PromptLength: the lengths are counted in characters, which equal UTF-16 code units only for text within the Basic Multilingual Plane.
- Fence.MatchAt: the fourth alternative of the expression repeats the second, so it can never be the first to match, and it is not modelled.
- `src/utils/pdfParser.ts` and the React components are not part of this model: they are library wrappers and presentation code.
