/** The collaborators every service calls but whose code is not part of this
    model — the LLM client, model router, prompt renderer, tokenizer — as
    uninterpreted functions, and the usage bookkeeping the batch loops share. */
module Gateway {
  import opened Results
  import opened CommonSchema
  import opened ResourceSchema

  type Token = nat

  /** A reply's `usage` dict: a key may be missing and a present value may be null. */
  type Usage = map<string, Option<int>>

  /** The part of the client's result envelope the services read. */
  datatype Reply = Reply(text: string, latencyMs: nat, usage: Usage)

  /** The prompt templates the services render. */
  datatype Template = FewShotV1 | CotReasoningV1 | TotReasoningV1 | OverflowSummarizeV1 | JsonExtractV1

  /** The generation defaults `render` returns with a template (`spec`). */
  datatype GenerationSpec = GenerationSpec(temperature: Option<real>, maxTokens: Option<int>)

  /** The parameters a service hands to `render`; the rendered wording is not
      modelled, so a prompt is identified by its template and parameters. */
  datatype Prompt =
    | FewShotPrompt(query: string)
    | CotPrompt(incidentText: string)
    | TotPrompt(startingLocation: string, incidents: seq<ScoredIncident>,
                travelTimes: Option<map<string, map<string, int>>>)
    | SummarizePrompt(budget: int, context: string)
    | JsonExtractPrompt(text: string)

  function TemplateOf(p: Prompt): Template {
    match p
    case FewShotPrompt(_) => FewShotV1
    case CotPrompt(_) => CotReasoningV1
    case TotPrompt(_, _, _) => TotReasoningV1
    case SummarizePrompt(_, _) => OverflowSummarizeV1
    case JsonExtractPrompt(_) => JsonExtractV1
  }

  /** One call as the client receives it. The model is `pick_model(provider,
      task, tier)`, which the provider and the prompt's template determine. */
  datatype ChatRequest = ChatRequest(
    provider: Provider,
    prompt: Prompt,
    temperature: Option<real>,
    maxTokens: Option<int>)

  /** `LLMClient.chat`, `LLMClient.json_chat` and the template defaults of
      `render`. A Failure carries `str(e)` of the exception the client raised. */
  datatype Llm = Llm(
    chat: ChatRequest -> Result<Reply, string>,
    jsonChat: ChatRequest -> Result<Reply, string>,
    defaults: Template -> GenerationSpec)

  /** `pick_encoding(...).encode` / `.decode` and `count_text_tokens` for the
      provider's general model. `count` and `encode` are separate functions:
      nothing visible promises `count(t) == |encode(t)|`. */
  datatype Tokenizer = Tokenizer(
    encode: (Provider, string) -> seq<Token>,
    decode: (Provider, seq<Token>) -> string,
    count: (Provider, string) -> nat)

  /** The exceptions the services let escape to their callers. */
  datatype ServiceError =
    | ProviderError(message: string)     // raised by the client's call
    | IndexError                         // `split()[0]` on an all-whitespace piece
    | UnknownStrategy(strategy: string)  // ValueError of check_and_filter_spam

  /** The keys of every batch's `total_tokens` dict. */
  const UsageKeys: set<string> := {"prompt_tokens", "completion_tokens", "total_tokens"}

  /** What one reply adds to a total: `usage.get(key, 0) or 0` when `key in
      usage`, nothing otherwise; a null value counts as 0. */
  function Contribution(u: Usage, key: string): int {
    if key in u && u[key].Some? then u[key].value else 0
  }

  /** One key's value summed over the usages of a batch, in call order. */
  function KeySum(us: seq<Usage>, key: string): int {
    if |us| == 0 then 0 else KeySum(us[..|us| - 1], key) + Contribution(us[|us| - 1], key)
  }

  /** A batch's `total_tokens`: exactly the three keys, each summed over the calls. */
  function TokenTotals(us: seq<Usage>): (t: map<string, int>)
    ensures t.Keys == UsageKeys
    ensures forall k :: k in UsageKeys ==> t[k] == KeySum(us, k)
  {
    map k | k in UsageKeys :: KeySum(us, k)
  }

  /** One pass of the loops' `for key in total_tokens: if key in usage: ...`. */
  function AddUsage(totals: map<string, int>, u: Usage): (r: map<string, int>)
    ensures r.Keys == totals.Keys
  {
    map k | k in totals :: totals[k] + Contribution(u, k)
  }

  /** Accumulating a reply into the running totals gives the totals of the
      longer batch. */
  lemma AddUsageStep(us: seq<Usage>, u: Usage)
    ensures AddUsage(TokenTotals(us), u) == TokenTotals(us + [u])
  {
    var us' := us + [u];
    assert us'[..|us'| - 1] == us;
  }

  /** Totals split over concatenated batches. */
  lemma {:induction false} KeySumAppend(a: seq<Usage>, b: seq<Usage>, key: string)
    ensures KeySum(a + b, key) == KeySum(a, key) + KeySum(b, key)
    decreases |b|
  {
    if |b| > 0 {
      var b' := b[..|b| - 1];
      assert (a + b)[..|a + b| - 1] == a + b';
      KeySumAppend(a, b', key);
    } else {
      assert a + b == a;
    }
  }

  /** A call that reported an empty usage (a failed extraction) leaves every
      total unchanged. */
  lemma EmptyUsageAddsNothing(us: seq<Usage>)
    ensures TokenTotals(us + [map[]]) == TokenTotals(us)
  {
    var us' := us + [map[]];
    assert us'[..|us'| - 1] == us;
  }

  /** A null usage value counts exactly as a missing key. */
  lemma NullCountsAsMissing(us: seq<Usage>, u: Usage, key: string)
    ensures TokenTotals(us + [u[key := None]]) == TokenTotals(us + [u - {key}])
  {
    var a := us + [u[key := None]];
    var b := us + [u - {key}];
    assert a[..|a| - 1] == us && b[..|b| - 1] == us;
    forall k | k in UsageKeys
      ensures KeySum(a, k) == KeySum(b, k)
    {
      assert Contribution(u[key := None], k) == Contribution(u - {key}, k);
    }
  }

  /** Keys outside the three totals never influence them. */
  lemma OtherKeysIgnored(us: seq<Usage>, u: Usage, key: string, v: Option<int>)
    requires key !in UsageKeys
    ensures TokenTotals(us + [u[key := v]]) == TokenTotals(us + [u])
  {
    var a := us + [u[key := v]];
    var b := us + [u];
    assert a[..|a| - 1] == us && b[..|b| - 1] == us;
    forall k | k in UsageKeys
      ensures KeySum(a, k) == KeySum(b, k)
    {
      assert Contribution(u[key := v], k) == Contribution(u, k);
    }
  }

  /** A finished call of a batch: its result and the latency and usage reported with it. */
  datatype Call<T> = Call(value: T, latencyMs: nat, usage: Usage)

  function Values<T>(calls: seq<Call<T>>): (vs: seq<T>)
    ensures |vs| == |calls|
    ensures forall i :: 0 <= i < |calls| ==> vs[i] == calls[i].value
  {
    seq(|calls|, i requires 0 <= i < |calls| => calls[i].value)
  }

  function Usages<T>(calls: seq<Call<T>>): (us: seq<Usage>)
    ensures |us| == |calls|
    ensures forall i :: 0 <= i < |calls| ==> us[i] == calls[i].usage
  {
    seq(|calls|, i requires 0 <= i < |calls| => calls[i].usage)
  }

  /** Sum of the latencies of a batch, in call order. */
  function TotalLatency<T>(calls: seq<Call<T>>): nat {
    if |calls| == 0 then 0 else TotalLatency(calls[..|calls| - 1]) + calls[|calls| - 1].latencyMs
  }

  /** The per-item calls of a batch loop, in order, stopping at the first call
      that raises. */
  function Each<A, T>(f: A -> Result<Call<T>, ServiceError>, xs: seq<A>): (r: Result<seq<Call<T>>, ServiceError>)
    ensures r.Success? <==> forall i :: 0 <= i < |xs| ==> f(xs[i]).Success?
    ensures r.Success? ==> |r.value| == |xs| && forall i :: 0 <= i < |xs| ==> f(xs[i]) == Success(r.value[i])
    ensures r.Failure? ==> exists i :: 0 <= i < |xs| && f(xs[i]) == Failure(r.error) && forall j :: 0 <= j < i ==> f(xs[j]).Success?
  {
    if |xs| == 0 then Success([])
    else
      var head :- f(xs[0]);
      var tail :- Each(f, xs[1..]);
      assert forall i :: 1 <= i < |xs| ==> xs[i] == xs[1..][i - 1];
      Success([head] + tail)
  }

  /** What score_incidents_batch and classify_batch return: the results in input
      order, the summed latency and the token totals. */
  datatype Batch<T> = Batch(values: seq<T>, totalLatencyMs: nat, totalTokens: map<string, int>)

  /** `calls` are the successful calls of the first `|calls|` items. */
  ghost predicate CallsSoFar<A, T>(f: A -> Result<Call<T>, ServiceError>, xs: seq<A>, calls: seq<Call<T>>) {
    |calls| <= |xs| && forall j :: 0 <= j < |calls| ==> f(xs[j]) == Success(calls[j])
  }

  /** The batch stops with the error of the first item whose call raises. */
  lemma EachFailsAt<A, T>(f: A -> Result<Call<T>, ServiceError>, xs: seq<A>, calls: seq<Call<T>>)
    requires CallsSoFar(f, xs, calls) && |calls| < |xs| && f(xs[|calls|]).Failure?
    ensures Each(f, xs) == Failure(f(xs[|calls|]).error)
  {
    var i := |calls|;
    var e := Each(f, xs);
    if e.Failure? {
      var k :| 0 <= k < |xs| && f(xs[k]) == Failure(e.error) && forall j :: 0 <= j < k ==> f(xs[j]).Success?;
      assert !(k < i) && !(i < k);
    }
  }

  /** A batch whose every item succeeded returns exactly those calls. */
  lemma EachAllSucceed<A, T>(f: A -> Result<Call<T>, ServiceError>, xs: seq<A>, calls: seq<Call<T>>)
    requires CallsSoFar(f, xs, calls) && |calls| == |xs|
    ensures Each(f, xs) == Success(calls)
  {
    var e := Each(f, xs);
    assert forall i :: 0 <= i < |xs| ==> f(xs[i]).Success?;
    assert e.Success?;
    forall i | 0 <= i < |xs|
      ensures e.value[i] == calls[i]
    {
      assert f(xs[i]) == Success(e.value[i]) && f(xs[i]) == Success(calls[i]);
    }
    assert |e.value| == |calls|;
    assert e.value == calls;
  }

  lemma CallsSoFarStep<A, T>(f: A -> Result<Call<T>, ServiceError>, xs: seq<A>, calls: seq<Call<T>>, c: Call<T>)
    requires CallsSoFar(f, xs, calls) && |calls| < |xs| && f(xs[|calls|]) == Success(c)
    ensures CallsSoFar(f, xs, calls + [c])
  {
  }

  /** Appending a call appends its value, adds its latency and folds in its usage. */
  lemma BatchTotalsStep<T>(calls: seq<Call<T>>, c: Call<T>)
    ensures Values(calls + [c]) == Values(calls) + [c.value]
    ensures TotalLatency(calls + [c]) == TotalLatency(calls) + c.latencyMs
    ensures TokenTotals(Usages(calls + [c])) == AddUsage(TokenTotals(Usages(calls)), c.usage)
  {
    assert Usages(calls + [c]) == Usages(calls) + [c.usage];
    AddUsageStep(Usages(calls), c.usage);
    assert (calls + [c])[..|calls|] == calls;
  }

  /** The loop shared by score_incidents_batch and classify_batch: call each
      item in turn, append the result, add the latency and fold the usage into
      the three totals; an exception from any call ends the batch. */
  method RunBatch<A, T>(f: A -> Result<Call<T>, ServiceError>, xs: seq<A>) returns (r: Result<Batch<T>, ServiceError>)
    ensures r.Success? <==> Each(f, xs).Success?
    ensures r.Failure? ==> r.error == Each(f, xs).error
    ensures r.Success? ==>
      var calls := Each(f, xs).value;
      && r.value.values == Values(calls)
      && r.value.totalLatencyMs == TotalLatency(calls)
      && r.value.totalTokens == TokenTotals(Usages(calls))
  {
    var values: seq<T> := [];
    var latency: nat := 0;
    var totals := map k | k in UsageKeys :: 0;
    ghost var calls: seq<Call<T>> := [];
    assert totals == TokenTotals(Usages(calls));
    var i := 0;
    while i < |xs|
      invariant i == |calls| && CallsSoFar(f, xs, calls)
      invariant values == Values(calls)
      invariant latency == TotalLatency(calls)
      invariant totals == TokenTotals(Usages(calls))
    {
      var out := f(xs[i]);
      if out.Failure? {
        EachFailsAt(f, xs, calls);
        return Failure(out.error);
      }
      var c := out.value;
      BatchTotalsStep(calls, c);
      CallsSoFarStep(f, xs, calls, c);
      calls := calls + [c];
      values := values + [c.value];
      latency := latency + c.latencyMs;
      totals := AddUsage(totals, c.usage);
      i := i + 1;
    }
    EachAllSucceed(f, xs, calls);
    r := Success(Batch(values, latency, totals));
  }
}
