/** The client side of the repository (chatgpt_client.py): the `P:` directive
    lines are picked out of the prompt list, the chat request is built as an
    ordered list of role-tagged messages, the remote answer (or the exception
    it raised) becomes a success/failure record, and the records are folded
    into a count of successful requests and a sum of tokens. The remote call
    is a parameter: whatever it returns or raises. */
module ChatClient {
  import opened Wrappers
  import opened Text
  import opened Lists

  // ---------------------------------------------------------------------------
  // process_prompt_lines: the directives sent to the model.

  /** What one raw prompt line contributes: `Q:` and `A:` lines are only
      displayed, a `P:` line gives its body stripped again, anything else
      (comments, blank lines, a lower-case `p:`) is ignored. */
  function DirectiveOf(raw: string): Option<string> {
    var p := Strip(raw);
    if StartsWith(p, "Q:") || StartsWith(p, "A:") then None
    else if StartsWith(p, "P:") then Some(Strip(p[2..]))
    else None
  }

  /** The directives of a list of prompt lines, in line order. */
  function PromptDirectives(prompts: seq<string>): seq<string> {
    FilterMap(prompts, DirectiveOf)
  }

  method ProcessPromptLines(prompts: seq<string>) returns (llmPrompts: seq<string>)
    ensures llmPrompts == PromptDirectives(prompts)
  {
    llmPrompts := [];
    for i := 0 to |prompts|
      invariant llmPrompts == PromptDirectives(prompts[..i])
    {
      assert prompts[..i + 1] == prompts[..i] + [prompts[i]];
      FilterMapSnoc(prompts[..i], prompts[i], DirectiveOf);
      var prompt := Strip(prompts[i]);
      if StartsWith(prompt, "Q:") || StartsWith(prompt, "A:") {
        // displayed only
      } else if StartsWith(prompt, "P:") {
        var cleanPrompt := Strip(prompt[2..]);
        llmPrompts := llmPrompts + [cleanPrompt];
      }
    }
    assert prompts[..|prompts|] == prompts;
  }

  /** A line gives a directive exactly when, once stripped, it starts with
      `P:`; the directive is the rest of the stripped line, itself stripped,
      so it has no whitespace at either end (and is empty for a bare `P:`). */
  lemma DirectiveOfSpec(raw: string)
    ensures DirectiveOf(raw).Some? <==> StartsWith(Strip(raw), "P:")
    ensures DirectiveOf(raw).Some? ==>
      DirectiveOf(raw).value == Strip(Strip(raw)[2..]) && IsStripped(DirectiveOf(raw).value)
  {
    var p := Strip(raw);
    if StartsWith(p, "P:") {
      assert p[0] == 'P';
      assert !StartsWith(p, "Q:") by { assert p[..2][0] == 'P'; }
      assert !StartsWith(p, "A:") by { assert p[..2][0] == 'P'; }
    }
  }

  /** Exactly one directive per line that starts with `P:` once stripped, in
      line order, and each of them stripped: `idx` lists those lines. */
  lemma PromptDirectivesProvenance(prompts: seq<string>) returns (idx: seq<nat>)
    ensures |idx| == |PromptDirectives(prompts)| <= |prompts|
    ensures forall k :: 0 <= k < |idx| ==>
      idx[k] < |prompts| && StartsWith(Strip(prompts[idx[k]]), "P:") &&
      PromptDirectives(prompts)[k] == Strip(Strip(prompts[idx[k]])[2..])
    ensures forall k, l :: 0 <= k < l < |idx| ==> idx[k] < idx[l]
    ensures forall i :: 0 <= i < |prompts| && StartsWith(Strip(prompts[i]), "P:") ==> i in idx
    ensures forall k :: 0 <= k < |idx| ==> IsStripped(PromptDirectives(prompts)[k])
  {
    idx := FilterMapProvenance(prompts, DirectiveOf);
    forall k | 0 <= k < |idx| ensures
      StartsWith(Strip(prompts[idx[k]]), "P:") &&
      PromptDirectives(prompts)[k] == Strip(Strip(prompts[idx[k]])[2..]) &&
      IsStripped(PromptDirectives(prompts)[k])
    {
      DirectiveOfSpec(prompts[idx[k]]);
    }
    forall i | 0 <= i < |prompts| && StartsWith(Strip(prompts[i]), "P:") ensures i in idx {
      DirectiveOfSpec(prompts[i]);
    }
  }

  /** The number of directives is the number of lines that start with `P:`
      once stripped. */
  lemma PromptDirectivesCount(prompts: seq<string>)
    ensures |PromptDirectives(prompts)| == CountSome(prompts, DirectiveOf)
  {
    FilterMapCount(prompts, DirectiveOf);
  }

  /** Directive extraction works line by line. */
  lemma PromptDirectivesAppend(a: seq<string>, b: seq<string>)
    ensures PromptDirectives(a + b) == PromptDirectives(a) + PromptDirectives(b)
  {
    FilterMapAppend(a, b, DirectiveOf);
  }

  /** A bare `P:` gives the empty prompt. */
  lemma BareDirective()
    ensures DirectiveOf("P:") == Some("")
  {
    StripStripped("P:");
    assert "P:"[2..] == "";
    StripStripped("");
  }

  /** A `P:` line, padded at either end and between prefix and body, gives
      its body. */
  lemma PaddedDirective(a: string, ws: string, body: string, b: string)
    requires AllSpace(a) && AllSpace(ws) && AllSpace(b) && IsStripped(body) && body != []
    ensures DirectiveOf(a + "P:" + ws + body + b) == Some(body)
  {
    var prefix := "P:";
    var rest := ws + body;
    var line := prefix + rest;
    assert line[0] == 'P' && line[|line| - 1] == body[|body| - 1];
    assert a + "P:" + ws + body + b == a + line + b;
    StripUnique(a, line, b);
    assert StartsWith(line, "P:");
    DirectiveOfSpec(a + line + b);
    assert line[|prefix|..] == rest;
    assert rest + [] == rest;
    StripUnique(ws, body, []);
  }

  /** A display line gives no directive. */
  lemma DisplayLineNoDirective()
    ensures DirectiveOf("Q: What is X?") == None
  {
    StripStripped("Q: What is X?");
    assert "Q: What is X?"[..2] == "Q:";
  }

  /** A lower-case `p:` is not a directive. */
  lemma LowerCaseNoDirective()
    ensures DirectiveOf("p: lower") == None
  {
    var p := "p: lower";
    StripStripped(p);
    assert p[..2] == "p:";
    assert p[..2] != "Q:" && p[..2] != "A:" && p[..2] != "P:";
  }

  // ---------------------------------------------------------------------------
  // The request: an optional system message, then the user messages.

  datatype Role = System | User

  /** One `{"role": ..., "content": ...}` entry of the request. */
  datatype ChatMessage = ChatMessage(role: Role, content: string)

  /** Python truthiness of an optional string, as in `if system_message:` and
      `api_key or ...`: neither `None` nor the empty string. */
  predicate Truthy(s: Option<string>) {
    s.Some? && s.value != ""
  }

  /** The leading system entry, when there is one. */
  function SystemPrefix(system: Option<string>): seq<ChatMessage> {
    if Truthy(system) then [ChatMessage(System, system.value)] else []
  }

  /** One user entry per prompt, in order. */
  function UserMessages(prompts: seq<string>): seq<ChatMessage> {
    if prompts == [] then []
    else UserMessages(prompts[..|prompts| - 1]) + [ChatMessage(User, prompts[|prompts| - 1])]
  }

  /** The whole request of a conversation. */
  function ConversationMessages(prompts: seq<string>, system: Option<string>): seq<ChatMessage> {
    SystemPrefix(system) + UserMessages(prompts)
  }

  /** The user entries carry the prompts, in order, and nothing else. */
  lemma {:induction false} UserMessagesSpec(prompts: seq<string>)
    ensures |UserMessages(prompts)| == |prompts|
    ensures forall i :: 0 <= i < |prompts| ==> UserMessages(prompts)[i] == ChatMessage(User, prompts[i])
  {
    if prompts != [] {
      UserMessagesSpec(prompts[..|prompts| - 1]);
    }
  }

  /** The request has one entry per prompt plus one for a non-empty system
      message; that entry comes first, and the user entries reproduce the
      prompts in order after it. */
  lemma ConversationShape(prompts: seq<string>, system: Option<string>)
    ensures var ms, s := ConversationMessages(prompts, system), |SystemPrefix(system)|;
      && |ms| == |prompts| + (if Truthy(system) then 1 else 0)
      && (Truthy(system) ==> ms[0] == ChatMessage(System, system.value))
      && (forall i :: 0 <= i < |prompts| ==> ms[s + i] == ChatMessage(User, prompts[i]))
      && (forall i :: 0 <= i < |ms| ==> (ms[i].role == System <==> Truthy(system) && i == 0))
  {
    UserMessagesSpec(prompts);
  }

  /** `send_prompt`'s request: one or two entries, the last the user prompt. */
  lemma SinglePromptShape(prompt: string, system: Option<string>)
    ensures var ms := ConversationMessages([prompt], system);
      && (|ms| == 1 || |ms| == 2)
      && ms[|ms| - 1] == ChatMessage(User, prompt)
      && (|ms| == 2 <==> Truthy(system))
  {
    ConversationShape([prompt], system);
  }

  /** The messages of `send_prompt`, built by successive appends. */
  method BuildPromptMessages(prompt: string, system: Option<string>) returns (messages: seq<ChatMessage>)
    ensures messages == ConversationMessages([prompt], system)
  {
    messages := [];
    if Truthy(system) {
      messages := messages + [ChatMessage(System, system.value)];
    }
    messages := messages + [ChatMessage(User, prompt)];
    assert UserMessages([prompt]) == [ChatMessage(User, prompt)] by {
      assert [prompt][..0] == [];
    }
  }

  /** The messages of `process_prompts_as_conversation`, built by successive
      appends. */
  method BuildConversationMessages(prompts: seq<string>, system: Option<string>) returns (messages: seq<ChatMessage>)
    ensures messages == ConversationMessages(prompts, system)
  {
    messages := [];
    if Truthy(system) {
      messages := messages + [ChatMessage(System, system.value)];
    }
    for i := 0 to |prompts|
      invariant messages == SystemPrefix(system) + UserMessages(prompts[..i])
    {
      assert prompts[..i + 1][..i] == prompts[..i];
      messages := messages + [ChatMessage(User, prompts[i])];
    }
    assert prompts[..|prompts|] == prompts;
  }

  // ---------------------------------------------------------------------------
  // The client and its requests.

  const DefaultModel: string := "gpt-3.5-turbo"
  const MissingKeyError: string :=
    "OpenAI API key is required. Set OPENAI_API_KEY environment variable or pass api_key parameter."

  /** The configured client; its fields are not changed after construction. */
  datatype Client = Client(apiKey: string, model: string)

  /** `ChatGPTClient(api_key, model)`: the given key, else the one in the
      environment (`envKey`); without a non-empty key the constructor raises
      `ValueError`. `model` is `None` when the argument is omitted, and the
      client then uses `gpt-3.5-turbo`. */
  function NewClient(apiKey: Option<string>, envKey: Option<string>, model: Option<string>): (r: Result<Client, string>)
    ensures r.Success? <==> Truthy(apiKey) || Truthy(envKey)
    ensures r.Success? ==> r.value.apiKey != ""
    ensures r.Success? && model.Some? ==> r.value.model == model.value
    ensures r.Success? && model.None? ==> r.value.model == DefaultModel
    ensures r.Success? && Truthy(apiKey) ==> r.value.apiKey == apiKey.value
    ensures r.Success? && !Truthy(apiKey) ==> r.value.apiKey == envKey.value
    ensures r.Failure? ==> r.error == MissingKeyError
  {
    var key := if Truthy(apiKey) then apiKey else envKey;
    if !Truthy(key) then Failure(MissingKeyError)
    else Success(Client(key.value, if model.Some? then model.value else DefaultModel))
  }

  /** The arguments of `chat.completions.create`. */
  datatype Request = Request(model: string, messages: seq<ChatMessage>, temperature: int, maxTokens: nat,
                             topP: int, frequencyPenalty: int, presencePenalty: int, seed: int)

  const SingleMaxTokens: nat := 1000
  const ConversationMaxTokens: nat := 2000

  /** A deterministic request: temperature 0, top_p 1, no penalties, seed 42. */
  function RequestFor(model: string, messages: seq<ChatMessage>, maxTokens: nat): Request {
    Request(model, messages, 0, maxTokens, 1, 0, 0, 42)
  }

  // ---------------------------------------------------------------------------
  // The remote answer and the result record.

  datatype Usage = Usage(promptTokens: nat, completionTokens: nat, totalTokens: nat)

  /** What the remote call did: raised an exception with this text, or
      returned these choices' message contents and this usage (`None` when the
      response carries none). */
  datatype CallOutcome = Raised(message: string) | Returned(choices: seq<Option<string>>, usage: Option<Usage>)

  /** `str(e)` of the `IndexError` from `response.choices[0]` on no choices. */
  const NoChoiceError: string := "list index out of range"
  /** `str(e)` of the `AttributeError` from `response.usage.prompt_tokens`. */
  const NoUsageError: string := "'NoneType' object has no attribute 'prompt_tokens'"

  /** The returned dictionary; `input` is the `prompt` (a string) or the
      `prompts` (a list) it was made for. */
  datatype ResultRecord<P> = ResultRecord(input: P, response: Option<string>, model: string,
                                          usage: Option<Usage>, success: bool, error: Option<string>)

  /** The record for an outcome. Every exception in the `try` block becomes a
      failure: the call's own, or the one raised while reading the answer. */
  function ResultOf<P>(input: P, model: string, outcome: CallOutcome): ResultRecord<P> {
    match outcome
    case Raised(msg) => ResultRecord(input, None, model, None, false, Some(msg))
    case Returned(choices, usage) =>
      if choices == [] then ResultRecord(input, None, model, None, false, Some(NoChoiceError))
      else if usage.None? then ResultRecord(input, None, model, None, false, Some(NoUsageError))
      else ResultRecord(input, choices[0], model, usage, true, None)
  }

  /** The two shapes a record can take. */
  predicate WellShaped<P>(r: ResultRecord<P>) {
    && (!r.success ==> r.response.None? && r.usage.None? && r.error.Some?)
    && (r.success ==> r.error.None? && r.usage.Some?)
  }

  /** Every record is well shaped and names its input and model; it is a
      success exactly when the call returned a first choice and a usage, and
      then carries that choice's content and that usage; a raised exception's
      text is the error. */
  lemma ResultOfSpec<P>(input: P, model: string, outcome: CallOutcome)
    ensures var r := ResultOf(input, model, outcome);
      && WellShaped(r) && r.input == input && r.model == model
      && (r.success <==> outcome.Returned? && outcome.choices != [] && outcome.usage.Some?)
      && (r.success ==> r.response == outcome.choices[0] && r.usage == outcome.usage)
      && (outcome.Raised? ==> r.error == Some(outcome.message))
  {
  }

  /** `send_prompt`: the request sent, and the record made from what `call`
      did with it. */
  method SendPrompt(client: Client, prompt: string, system: Option<string>, call: Request -> CallOutcome)
    returns (request: Request, result: ResultRecord<string>)
    ensures request == RequestFor(client.model, ConversationMessages([prompt], system), SingleMaxTokens)
    ensures result == ResultOf(prompt, client.model, call(request))
  {
    var messages := BuildPromptMessages(prompt, system);
    request := RequestFor(client.model, messages, SingleMaxTokens);
    result := ResultOf(prompt, client.model, call(request));
  }

  /** `process_prompts_as_conversation`: all prompts in one request. */
  method ProcessPromptsAsConversation(client: Client, prompts: seq<string>, system: Option<string>,
                                      call: Request -> CallOutcome)
    returns (request: Request, result: ResultRecord<seq<string>>)
    ensures request == RequestFor(client.model, ConversationMessages(prompts, system), ConversationMaxTokens)
    ensures result == ResultOf(prompts, client.model, call(request))
  {
    var messages := BuildConversationMessages(prompts, system);
    request := RequestFor(client.model, messages, ConversationMaxTokens);
    result := ResultOf(prompts, client.model, call(request));
  }

  // ---------------------------------------------------------------------------
  // print_results: the summary counts.

  /** Every successful record carries its usage, as the records made by
      `ResultOf` do; `print_results` would raise on one that does not. */
  predicate UsageOnSuccess<P>(results: seq<ResultRecord<P>>) {
    forall i :: 0 <= i < |results| && results[i].success ==> results[i].usage.Some?
  }

  /** The number of successful records. */
  function SuccessCount<P>(results: seq<ResultRecord<P>>): nat {
    if results == [] then 0
    else SuccessCount(results[..|results| - 1]) + (if results[|results| - 1].success then 1 else 0)
  }

  /** The tokens of the successful records. */
  function TokenSum<P>(results: seq<ResultRecord<P>>): nat
    requires UsageOnSuccess(results)
  {
    if results == [] then 0
    else
      var last := results[|results| - 1];
      TokenSum(results[..|results| - 1]) + (if last.success then last.usage.value.totalTokens else 0)
  }

  method PrintResults(results: seq<ResultRecord<string>>) returns (successfulRequests: nat, totalTokens: nat)
    requires UsageOnSuccess(results)
    ensures successfulRequests == SuccessCount(results)
    ensures totalTokens == TokenSum(results)
  {
    totalTokens := 0;
    successfulRequests := 0;
    for i := 0 to |results|
      invariant successfulRequests == SuccessCount(results[..i])
      invariant totalTokens == TokenSum(results[..i])
    {
      assert results[..i + 1][..i] == results[..i];
      var result := results[i];
      if result.success {
        totalTokens := totalTokens + result.usage.value.totalTokens;
        successfulRequests := successfulRequests + 1;
      }
    }
    assert results[..|results|] == results;
  }

  /** The successful records, in order. */
  function Successes<P>(results: seq<ResultRecord<P>>): seq<ResultRecord<P>> {
    FilterMap(results, (r: ResultRecord<P>) => if r.success then Some(r) else None)
  }

  /** The tokens of a list of records that all carry a usage. */
  function AllTokens<P>(results: seq<ResultRecord<P>>): nat
    requires forall i :: 0 <= i < |results| ==> results[i].usage.Some?
  {
    if results == [] then 0
    else AllTokens(results[..|results| - 1]) + results[|results| - 1].usage.value.totalTokens
  }

  lemma {:induction false} AllTokensAppend<P>(a: seq<ResultRecord<P>>, b: seq<ResultRecord<P>>)
    requires forall i :: 0 <= i < |a| ==> a[i].usage.Some?
    requires forall i :: 0 <= i < |b| ==> b[i].usage.Some?
    ensures forall i :: 0 <= i < |a + b| ==> (a + b)[i].usage.Some?
    ensures AllTokens(a + b) == AllTokens(a) + AllTokens(b)
    decreases |b|
  {
    if b == [] {
      assert a + b == a;
    } else {
      var c := a + b;
      assert c[..|c| - 1] == a + b[..|b| - 1];
      AllTokensAppend(a, b[..|b| - 1]);
    }
  }

  /** The counts are those of the successful records alone: their number,
      and the sum of their tokens; hence at most one success per record. */
  lemma {:induction false} SummaryOverSuccesses<P>(results: seq<ResultRecord<P>>)
    requires UsageOnSuccess(results)
    ensures var s := Successes(results);
      && SuccessCount(results) == |s| <= |results|
      && (forall i :: 0 <= i < |s| ==> s[i].success && s[i].usage.Some?)
      && TokenSum(results) == AllTokens(s)
  {
    var f := (r: ResultRecord<P>) => if r.success then Some(r) else None;
    if results != [] {
      var init := results[..|results| - 1];
      var last := results[|results| - 1];
      assert UsageOnSuccess(init) by {
        assert forall i :: 0 <= i < |init| ==> init[i] == results[i];
      }
      SummaryOverSuccesses(init);
      FilterMapSnoc(init, last, f);
      assert results == init + [last];
      var extra := if last.success then [last] else [];
      AllTokensAppend(Successes(init), extra);
      assert last.success ==> AllTokens(extra) == last.usage.value.totalTokens by {
        if last.success {
          assert extra[..0] == [];
        }
      }
    }
  }

  /** At most one success per record. */
  lemma {:induction false} SuccessCountBound<P>(results: seq<ResultRecord<P>>)
    ensures SuccessCount(results) <= |results|
  {
    if results != [] {
      SuccessCountBound(results[..|results| - 1]);
    }
  }

  /** Every request succeeds exactly when the count is the number of records. */
  lemma {:induction false} AllSucceeded<P>(results: seq<ResultRecord<P>>)
    ensures SuccessCount(results) == |results| <==> forall i :: 0 <= i < |results| ==> results[i].success
  {
    if results != [] {
      var init := results[..|results| - 1];
      AllSucceeded(init);
      SuccessCountBound(init);
      assert forall i :: 0 <= i < |init| ==> init[i] == results[i];
    }
  }

  /** The counts of two lists of records add up. */
  lemma {:induction false} SummaryAppend<P>(a: seq<ResultRecord<P>>, b: seq<ResultRecord<P>>)
    requires UsageOnSuccess(a) && UsageOnSuccess(b)
    ensures UsageOnSuccess(a + b)
    ensures SuccessCount(a + b) == SuccessCount(a) + SuccessCount(b)
    ensures TokenSum(a + b) == TokenSum(a) + TokenSum(b)
    decreases |b|
  {
    if b == [] {
      assert a + b == a;
    } else {
      var c := a + b;
      var initB := b[..|b| - 1];
      assert c[..|c| - 1] == a + initB;
      assert UsageOnSuccess(initB) by {
        assert forall i :: 0 <= i < |initB| ==> initB[i] == b[i];
      }
      SummaryAppend(a, initB);
    }
  }

  /** Well-shaped records, which are what `ResultOf` makes for `send_prompt`,
      meet the fold's precondition: every success carries a usage. */
  lemma RecordsSummarisable<P>(results: seq<ResultRecord<P>>)
    requires forall i :: 0 <= i < |results| ==> WellShaped(results[i])
    ensures UsageOnSuccess(results)
  {
  }
}
