/** The fallback strategy of `analyzeResume`: every model of a fixed list
    is tried with both API versions, in order, until one endpoint returns a
    text that parses as JSON, an error mentioning the API key stops the
    search, or all fourteen endpoints have been tried. */
module Fallback {
  import opened JsString
  import Fence
  import Prompt

  /** The models, most preferred first (lines 59-67). */
  const Models: seq<string> := [
    "gemini-2.5-flash",
    "gemini-2.5-pro",
    "gemini-2.0-flash",
    "gemini-2.0-flash-001",
    "gemini-1.5-flash",
    "gemini-1.5-pro",
    "gemini-pro"
  ]

  /** The API versions tried for each model (line 71). */
  const Versions: seq<string> := ["v1", "v1beta"]

  /** One attempt per model and version. */
  const AttemptCount: nat := 14

  const Endpoint := "https://generativelanguage.googleapis.com/"
  const KeyMarker := "API Key"
  /** "Invalid API Key. Please check your credentials." */
  const InvalidKeyMessage := "Invalid " + KeyMarker + ". Please check your credentials."
  const CapacityMessage := "AI capacity reached or region mismatch. Please try again in 1 minute."

  /** The REST address of one model under one API version (line 76). */
  function Url(model: string, version: string, apiKey: string): string {
    Endpoint + (version + ("/models/" + (model + (":generateContent?key=" + apiKey))))
  }

  /** A POST to `url` whose body carries `prompt` as its only text part. */
  datatype Request = Request(url: string, prompt: string)

  /** What one call to `fetch` comes to:
      an `ok` response, with the text of the first part of the first
      candidate if the body has one;
      a response that is not `ok`, with its status, the `error.message` of
      its body if it has one, and its status text;
      or an exception thrown by `fetch` or by reading the body, with its
      message if it has one. */
  datatype Reply =
    | Answered(text: Option<string>)
    | Refused(status: int, errorMessage: Option<string>, statusText: string)
    | Threw(message: Option<string>)

  /** What `JSON.parse` does with a text: accept it, or throw a
      `SyntaxError` carrying a message. */
  datatype ParseVerdict = Parsed | SyntaxError(message: string)

  /** What the body of the inner loop does with one reply: go on to the
      next endpoint, return the parsed text, or let an exception escape. */
  datatype Step = Next | Return(cleaned: string) | Raise(message: string)

  /** How `analyzeResume` ends: it returns what `JSON.parse` made of the
      cleaned text of attempt `attempt`, it rethrows an exception, or it
      throws the capacity error after the last endpoint. */
  datatype Outcome = Returned(attempt: nat, cleaned: string) | Raised(message: string) | Exhausted

  /** The environment of one run: the key and the prompt, and the behaviour
      of the network and of the JSON parser, which the program does not
      control. The network is a function of the request; this loses
      nothing because no two attempts send the same request
      (`RequestsDistinct`). */
  datatype Session = Session(
    apiKey: string,
    prompt: string,
    network: Request -> Reply,
    parse: string -> ParseVerdict)

  /** The message thrown by a run that ends in `o`. */
  function ThrownMessage(o: Outcome): (m: Option<string>)
    ensures m.None? <==> o.Returned?
  {
    match o
    case Returned(_, _) => None
    case Raised(message) => Some(message)
    case Exhausted => Some(CapacityMessage)
  }

  /** `errData.error?.message || response.statusText`: a missing or empty
      message falls back to the status text. */
  function ErrorMessage(errorMessage: Option<string>, statusText: string): (m: string)
    ensures m == statusText || (errorMessage.Some? && m == errorMessage.value != "")
    ensures errorMessage.Some? && errorMessage.value != "" ==> m == errorMessage.value
  {
    if errorMessage.Some? && errorMessage.value != "" then errorMessage.value else statusText
  }

  lemma InvalidKeyMessageMentionsKey()
    ensures Includes(InvalidKeyMessage, KeyMarker)
  {
    IncludesBetween("Invalid ", KeyMarker, ". Please check your credentials.");
  }

  /** The `catch` block: an exception whose message mentions the API key
      is rethrown, any other one is logged and the loop goes on. */
  function Caught(message: Option<string>): (r: Step)
    ensures r.Raise? <==> message.Some? && Includes(message.value, KeyMarker)
    ensures r.Raise? ==> r.message == message.value
    ensures !r.Return?
  {
    if message.Some? && Includes(message.value, KeyMarker) then Raise(message.value) else Next
  }

  /** The body of the inner loop applied to one reply (lines 84-105). */
  function Classify(reply: Reply, parse: string -> ParseVerdict): (r: Step)
    ensures r.Raise? ==> Includes(r.message, KeyMarker)
  {
    match reply
    case Answered(text) =>
      if text.None? || text.value == "" then Next
      else
        var cleaned := Fence.Clean(text.value);
        (match parse(cleaned)
         case Parsed => Return(cleaned)
         case SyntaxError(m) => Caught(Some(m)))
    case Refused(status, errorMessage, statusText) =>
      if status == 403 && Includes(ErrorMessage(errorMessage, statusText), KeyMarker) then
        // the invalid-key error is thrown inside the `try`, so the `catch`
        // sees it first
        InvalidKeyMessageMentionsKey();
        Caught(Some(InvalidKeyMessage))
      else Next
    case Threw(message) => Caught(message)
  }

  /** What each kind of reply does to the loop: only a non-empty text that
      parses after cleaning is returned; a parse error, like any other
      exception, escapes only if its message mentions the API key; a
      response that is not `ok` stops the loop only as a 403 whose message
      mentions the key, and then with the invalid-key error. */
  lemma ClassifyCases(reply: Reply, parse: string -> ParseVerdict)
    ensures var r := Classify(reply, parse);
      && (r.Return? <==>
          (reply.Answered? && reply.text.Some? && reply.text.value != ""
           && parse(Fence.Clean(reply.text.value)) == Parsed))
      && (r.Return? ==> r.cleaned == Fence.Clean(reply.text.value))
      && (reply.Answered? && reply.text.Some? && reply.text.value != "" ==>
          (match parse(Fence.Clean(reply.text.value))
           case Parsed => r == Return(Fence.Clean(reply.text.value))
           case SyntaxError(m) => r == Caught(Some(m))))
      && (reply.Answered? && (reply.text.None? || reply.text.value == "") ==> r == Next)
      && (reply.Refused? ==>
          (r != Next <==> reply.status == 403 && Includes(ErrorMessage(reply.errorMessage, reply.statusText), KeyMarker)))
      && (reply.Refused? && r != Next ==> r == Raise(InvalidKeyMessage))
      && (reply.Threw? ==> r == Caught(reply.message))
  {
    InvalidKeyMessageMentionsKey();
  }

  /** The request of attempt `k`: models in their order, and for each model
      `v1` before `v1beta`. */
  function RequestAt(s: Session, k: nat): (q: Request)
    requires k < AttemptCount
    ensures q.prompt == s.prompt
  {
    Request(Url(Models[k / 2], Versions[k % 2], s.apiKey), s.prompt)
  }

  /** The requests of all attempts, in the order they are made. */
  function Planned(s: Session): (p: seq<Request>)
    ensures |p| == AttemptCount
  {
    seq(AttemptCount, k requires 0 <= k < AttemptCount => RequestAt(s, k))
  }

  /** Attempt `2m + v` asks model `m` under version `v`: every model is
      tried under both versions, `v1` first, before the next model. */
  lemma AttemptOrder(s: Session, m: nat, v: nat)
    requires m < |Models| && v < |Versions|
    ensures 2 * m + v < AttemptCount
    ensures Planned(s)[2 * m + v] == RequestAt(s, 2 * m + v)
    ensures RequestAt(s, 2 * m + v).url == Url(Models[m], Versions[v], s.apiKey)
  {
    assert (2 * m + v) / 2 == m && (2 * m + v) % 2 == v;
  }

  /** What attempt `k` does to the loop. */
  function StepAt(s: Session, k: nat): Step
    requires k < AttemptCount
  {
    Classify(s.network(RequestAt(s, k)), s.parse)
  }

  /** The step of every attempt, in order. */
  function Steps(s: Session): (steps: seq<Step>)
    ensures |steps| == AttemptCount
  {
    seq(AttemptCount, k requires 0 <= k < AttemptCount => StepAt(s, k))
  }

  lemma StepsAt(s: Session, k: nat)
    requires k < AttemptCount
    ensures Steps(s)[k] == Classify(s.network(RequestAt(s, k)), s.parse)
  {
  }

  /** The loop from attempt `k` on, given what each attempt does. */
  function Run(steps: seq<Step>, k: nat): (o: Outcome)
    requires k <= |steps|
    ensures o.Returned? ==> k <= o.attempt < |steps| && steps[o.attempt] == Return(o.cleaned)
    ensures o.Raised? ==> exists j :: k <= j < |steps| && steps[j] == Raise(o.message)
    decreases |steps| - k
  {
    if k == |steps| then Exhausted
    else
      match steps[k]
      case Next => Run(steps, k + 1)
      case Return(cleaned) => Returned(k, cleaned)
      case Raise(message) => Raised(message)
  }

  /** How a run with session `s` ends. */
  function Execute(s: Session): Outcome {
    Run(Steps(s), 0)
  }

  /** The session of a call: every attempt sends the same prompt. */
  function SessionOf(text: string, apiKey: string, jobDescription: Option<string>,
                     network: Request -> Reply, parse: string -> ParseVerdict): Session
  {
    Session(apiKey, Prompt.BuildPrompt(text, jobDescription), network, parse)
  }

  /** What `analyzeResume(text, apiKey, jobDescription)` does. */
  function Analyze(text: string, apiKey: string, jobDescription: Option<string>,
                   network: Request -> Reply, parse: string -> ParseVerdict): Outcome
  {
    Execute(SessionOf(text, apiKey, jobDescription, network, parse))
  }

  /** The first attempt from `k` on that does not send the loop on, or
      `|steps|` when there is none. */
  function FirstDecisive(steps: seq<Step>, k: nat): (d: nat)
    requires k <= |steps|
    ensures k <= d <= |steps|
    ensures forall j :: k <= j < d ==> steps[j] == Next
    ensures d < |steps| ==> steps[d] != Next
    decreases |steps| - k
  {
    if k == |steps| || steps[k] != Next then k else FirstDecisive(steps, k + 1)
  }

  /** What a decisive step at attempt `k` makes of the run. */
  function Decision(k: nat, step: Step): Outcome
    requires step != Next
  {
    match step
    case Return(cleaned) => Returned(k, cleaned)
    case Raise(message) => Raised(message)
  }

  /** An attempt that stops the loop, after attempts that all sent it on,
      decides the run. */
  lemma {:induction false} DecidedAt(steps: seq<Step>, k: nat, d: nat)
    requires k <= d < |steps|
    requires forall j :: k <= j < d ==> steps[j] == Next
    requires steps[d] != Next
    ensures Run(steps, k) == Decision(d, steps[d])
    decreases d - k
  {
    if k < d {
      DecidedAt(steps, k + 1, d);
    }
  }

  /** When every attempt from `k` on sends the loop on, the run throws the
      capacity error. */
  lemma {:induction false} ExhaustedFrom(steps: seq<Step>, k: nat)
    requires k <= |steps|
    requires forall j :: k <= j < |steps| ==> steps[j] == Next
    ensures Run(steps, k) == Exhausted
    decreases |steps| - k
  {
    if k < |steps| {
      ExhaustedFrom(steps, k + 1);
    }
  }

  /** The run is decided by the first attempt that stops the loop, and runs
      out exactly when there is none. */
  lemma RunIsFirstDecisive(steps: seq<Step>)
    ensures var d := FirstDecisive(steps, 0);
      Run(steps, 0) == if d == |steps| then Exhausted else Decision(d, steps[d])
  {
    var d := FirstDecisive(steps, 0);
    if d == |steps| {
      ExhaustedFrom(steps, 0);
    } else {
      DecidedAt(steps, 0, d);
    }
  }

  /** The capacity error is thrown exactly when every attempt sent the
      loop on. */
  lemma ExhaustedIff(steps: seq<Step>)
    ensures Run(steps, 0) == Exhausted <==> forall k :: 0 <= k < |steps| ==> steps[k] == Next
  {
    RunIsFirstDecisive(steps);
  }

  /** A run that returns, returns the first usable answer: every earlier
      attempt sent the loop on. An exception that escapes is the one of
      the first attempt that did not. */
  lemma OutcomeIsFirst(steps: seq<Step>)
    ensures Run(steps, 0).Returned? ==> forall j :: 0 <= j < Run(steps, 0).attempt ==> steps[j] == Next
    ensures Run(steps, 0).Raised? ==>
      var d := FirstDecisive(steps, 0);
      d < |steps| && steps[d] == Raise(Run(steps, 0).message)
  {
    RunIsFirstDecisive(steps);
  }

  /** Every exception that escapes the loop mentions the API key. */
  lemma RaisedMentionsKey(s: Session)
    ensures Execute(s).Raised? ==> Includes(Execute(s).message, KeyMarker)
  {
    var steps := Steps(s);
    if Execute(s).Raised? {
      var j :| 0 <= j < |steps| && steps[j] == Raise(Execute(s).message);
      StepsAt(s, j);
    }
  }

  /** A 403 whose message mentions the API key, after nothing but failed
      attempts, ends the run with the invalid-key error, whatever the later
      endpoints would have answered. */
  lemma InvalidKeyStops(s: Session, k: nat)
    requires k < AttemptCount
    requires forall j :: 0 <= j < k ==> Steps(s)[j] == Next
    requires var reply := s.network(RequestAt(s, k));
      reply.Refused? && reply.status == 403
      && Includes(ErrorMessage(reply.errorMessage, reply.statusText), KeyMarker)
    ensures Execute(s) == Raised(InvalidKeyMessage)
  {
    InvalidKeyMessageMentionsKey();
    StepsAt(s, k);
    DecidedAt(Steps(s), 0, k);
  }

  /** Failures that do not mention the API key (quota errors, missing
      models, network errors) only move the loop on. */
  lemma SilentFailuresFallThrough(reply: Reply, parse: string -> ParseVerdict)
    requires || (reply.Refused? && reply.status != 403)
             || (reply.Threw? && (reply.message.None? || !Includes(reply.message.value, KeyMarker)))
    ensures Classify(reply, parse) == Next
  {
  }

  /** A first reply that wraps a parsable body in a `json` fence is the
      result: the run returns the trimmed body from attempt 0. */
  lemma FencedFirstAnswerWins(s: Session, body: string)
    requires s.network(RequestAt(s, 0)) == Answered(Some(Fence.JsonOpen + body + Fence.Close))
    requires s.parse(Trim(body)) == Parsed
    ensures Execute(s) == Returned(0, Trim(body))
  {
    FencedAnswerReturned(body, s.parse);
    StepsAt(s, 0);
    DecidedAt(Steps(s), 0, 0);
  }

  /** A reply that wraps a parsable body in a `json` fence returns the
      trimmed body. */
  lemma FencedAnswerReturned(body: string, parse: string -> ParseVerdict)
    requires parse(Trim(body)) == Parsed
    ensures Classify(Answered(Some(Fence.JsonOpen + body + Fence.Close)), parse) == Return(Trim(body))
  {
    var text := Fence.JsonOpen + body + Fence.Close;
    Fence.CleanFenced(body);
    assert text[0] == '`';
  }

  lemma CancelPrefix(a: string, x: string, y: string)
    requires a + x == a + y
    ensures x == y
  {
    assert x == (a + x)[|a|..];
  }

  lemma CancelSuffix(x: string, y: string, q: string)
    requires x + q == y + q
    ensures x == y
  {
    assert x == (x + q)[..|x|];
  }

  /** The third character after the endpoint tells the versions apart. */
  lemma VersionMarker(v: string, rest: string)
    requires v in Versions && rest != [] && rest[0] == '/'
    ensures (v + rest)[2] == if v == "v1" then '/' else 'b'
  {
  }

  /** Each model and version has its own address: the address determines
      both. */
  lemma UrlDetermines(m1: string, v1: string, m2: string, v2: string, apiKey: string)
    requires v1 in Versions && v2 in Versions
    requires Url(m1, v1, apiKey) == Url(m2, v2, apiKey)
    ensures m1 == m2 && v1 == v2
  {
    var q := ":generateContent?key=" + apiKey;
    var t1, t2 := v1 + ("/models/" + (m1 + q)), v2 + ("/models/" + (m2 + q));
    CancelPrefix(Endpoint, t1, t2);
    VersionMarker(v1, "/models/" + (m1 + q));
    VersionMarker(v2, "/models/" + (m2 + q));
    CancelPrefix(v1, "/models/" + (m1 + q), "/models/" + (m2 + q));
    CancelPrefix("/models/", m1 + q, m2 + q);
    CancelSuffix(m1, m2, q);
  }

  lemma ModelsDistinct()
    ensures forall a, b :: 0 <= a < b < |Models| ==> Models[a] != Models[b]
  {
    assert Models[0][9] != Models[2][9];
    assert Models[0][7] != Models[4][7] && Models[2][7] != Models[4][7] && Models[1][7] != Models[5][7];
  }

  /** No two attempts send the same request. */
  lemma RequestsDistinct(s: Session, i: nat, j: nat)
    requires i < AttemptCount && j < AttemptCount && i != j
    ensures RequestAt(s, i) != RequestAt(s, j)
  {
    if RequestAt(s, i) == RequestAt(s, j) {
      UrlDetermines(Models[i / 2], Versions[i % 2], Models[j / 2], Versions[j % 2], s.apiKey);
      ModelsDistinct();
    }
  }

  /** One pass of the body of the inner loop: the request for model `m`
      under version `v`, and what its reply does to the loop. */
  method Attempt(s: Session, m: nat, v: nat) returns (request: Request, step: Step)
    requires m < |Models| && v < |Versions|
    ensures 2 * m + v < AttemptCount
    ensures request == Planned(s)[2 * m + v] && step == Steps(s)[2 * m + v]
  {
    request := Request(Url(Models[m], Versions[v], s.apiKey), s.prompt);
    AttemptOrder(s, m, v);
    step := Classify(s.network(request), s.parse);
    StepsAt(s, 2 * m + v);
  }

  lemma TakeOneMore(p: seq<Request>, n: nat)
    requires n < |p|
    ensures p[..n] + [p[n]] == p[..n + 1]
  {
  }

  /** The first `|attempts|` planned requests have been sent, and each of
      them sent the loop on: the run is decided by what comes after. */
  predicate Undecided(s: Session, attempts: seq<Request>) {
    && |attempts| <= AttemptCount
    && attempts == Planned(s)[..|attempts|]
    && FirstDecisive(Steps(s), 0) == FirstDecisive(Steps(s), |attempts|)
    && Run(Steps(s), 0) == Run(Steps(s), |attempts|)
  }

  /** What one more attempt does to an undecided run. */
  lemma Advance(s: Session, attempts: seq<Request>, step: Step)
    requires Undecided(s, attempts) && |attempts| < AttemptCount
    requires step == Steps(s)[|attempts|]
    ensures step == Next ==> Undecided(s, attempts + [Planned(s)[|attempts|]])
    ensures step != Next ==>
      && attempts + [Planned(s)[|attempts|]] == Planned(s)[..|attempts| + 1]
      && FirstDecisive(Steps(s), 0) == |attempts|
      && Run(Steps(s), 0) == Decision(|attempts|, step)
  {
    var n, plan := |attempts|, Planned(s);
    TakeOneMore(plan, n);
    if step != Next {
      DecidedAt(Steps(s), n, n);
    }
  }

  /** The inner loop of lines 73-106 for model `m`: both versions in
      order, after the `2m` attempts of the earlier models, stopping at the
      first reply that returns or throws. `stop` is how the whole run ends
      when this model decides it. */
  method TryVersions(s: Session, m: nat, before: seq<Request>) returns (stop: Option<Outcome>, attempts: seq<Request>)
    requires m < |Models| && |before| == 2 * m && Undecided(s, before)
    ensures |before| < |attempts| <= |before| + |Versions|
    ensures stop.None? ==> |attempts| == |before| + |Versions| && Undecided(s, attempts)
    ensures stop.Some? ==>
      && attempts == Planned(s)[..|attempts|]
      && FirstDecisive(Steps(s), 0) == |attempts| - 1
      && stop.value == Run(Steps(s), 0)
  {
    attempts := before;
    var v := 0;
    while v < |Versions|
      invariant 0 <= v <= |Versions| && |attempts| == 2 * m + v
      invariant Undecided(s, attempts)
    {
      var request, step := Attempt(s, m, v);
      Advance(s, attempts, step);
      attempts := attempts + [request];
      if step != Next {
        return Some(Decision(|attempts| - 1, step)), attempts;
      }
      v := v + 1;
    }
    stop := None;
  }

  /** The outer loop of lines 70-107: the models in order, until one of
      them decides the run; the capacity error after the last one. The
      attempts made are the planned ones up to the first that does not
      send the loop on, or all of them. */
  method TryEndpoints(s: Session) returns (outcome: Outcome, attempts: seq<Request>)
    ensures outcome == Execute(s)
    ensures |attempts| == Prompt.Min(FirstDecisive(Steps(s), 0) + 1, AttemptCount)
    ensures attempts == Planned(s)[..|attempts|]
    ensures outcome.Returned? ==> outcome.attempt == |attempts| - 1
    ensures outcome.Exhausted? ==> |attempts| == AttemptCount
  {
    attempts := [];
    var m := 0;
    while m < |Models|
      invariant 0 <= m <= |Models| && |attempts| == 2 * m
      invariant Undecided(s, attempts)
    {
      var stop;
      stop, attempts := TryVersions(s, m, attempts);
      if stop.Some? {
        DecidedEnd(s, attempts, stop.value);
        return stop.value, attempts;
      }
      m := m + 1;
    }
    ExhaustedEnd(s, attempts);
    outcome := Exhausted;
  }

  /** A run decided by its last attempt ends as that attempt says. */
  lemma DecidedEnd(s: Session, attempts: seq<Request>, outcome: Outcome)
    requires 0 < |attempts| <= AttemptCount
    requires FirstDecisive(Steps(s), 0) == |attempts| - 1 && outcome == Run(Steps(s), 0)
    ensures outcome == Execute(s) && !outcome.Exhausted?
    ensures |attempts| == Prompt.Min(FirstDecisive(Steps(s), 0) + 1, AttemptCount)
    ensures outcome.Returned? ==> outcome.attempt == |attempts| - 1
  {
    RunIsFirstDecisive(Steps(s));
  }

  /** A run still undecided after every attempt throws the capacity
      error. */
  lemma ExhaustedEnd(s: Session, attempts: seq<Request>)
    requires Undecided(s, attempts) && |attempts| == AttemptCount
    ensures Execute(s) == Exhausted
    ensures |attempts| == Prompt.Min(FirstDecisive(Steps(s), 0) + 1, AttemptCount)
  {
  }

  /** `analyzeResume`: build the prompt, then try the endpoints with it. */
  method AnalyzeResume(text: string, apiKey: string, jobDescription: Option<string>,
                       network: Request -> Reply, parse: string -> ParseVerdict)
    returns (outcome: Outcome, attempts: seq<Request>)
    ensures outcome == Analyze(text, apiKey, jobDescription, network, parse)
    ensures 0 < |attempts| <= AttemptCount
    ensures var s := SessionOf(text, apiKey, jobDescription, network, parse);
      && |attempts| == Prompt.Min(FirstDecisive(Steps(s), 0) + 1, AttemptCount)
      && attempts == Planned(s)[..|attempts|]
    ensures outcome.Returned? ==> outcome.attempt == |attempts| - 1
    ensures outcome.Exhausted? ==> |attempts| == AttemptCount
  {
    var prompt := Prompt.BuildPrompt(text, jobDescription);
    outcome, attempts := TryEndpoints(Session(apiKey, prompt, network, parse));
  }
}
