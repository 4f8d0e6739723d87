/** Structured extraction of crisis events from news
    (src/app/services/news_processing_service.py): one JSON-mode call per
    item, the markdown fence stripper, schema validation, and the batch
    counters. */
module NewsProcessing {
  import opened Results
  import opened PyStr
  import opened CommonSchema
  import opened NewsSchema
  import opened Gateway

  /** `CrisisEvent.model_validate_json`: the event, or `str(e)` of the
      validation error. */
  type Validator = string -> Result<CrisisEvent, string>

  /** A validator that honours the schema's `victim_count >= 0`. */
  ghost predicate SoundValidator(validate: Validator) {
    forall text :: validate(text).Success? ==> ValidCrisisEvent(validate(text).value)
  }

  const Fence: string := "```"

  /** The JSON-mode call: the provider may be overridden, the template's own
      temperature and max_tokens are always used. */
  function ExtractRequest(llm: Llm, serviceProvider: Provider, text: string, config: Option<ProviderConfig>)
    : (req: ChatRequest)
    ensures req.provider == EffectiveProvider(config, serviceProvider)
    ensures req.prompt == JsonExtractPrompt(text)
    ensures req.temperature == llm.defaults(JsonExtractV1).temperature
    ensures req.maxTokens == llm.defaults(JsonExtractV1).maxTokens
  {
    var spec := llm.defaults(JsonExtractV1);
    ChatRequest(EffectiveProvider(config, serviceProvider), JsonExtractPrompt(text), spec.temperature, spec.maxTokens)
  }

  /** The fenced piece without a leading `json` tag. */
  function Untag(piece: string): string {
    if StartsWith(piece, "json") then piece[4..] else piece
  }

  /** The fenced piece after the tag removal, with the trailing-fence
      removal the source performs. */
  function FencedBody(piece: string): string {
    var untagged := Untag(piece);
    if EndsWith(untagged, Fence) then untagged[..|untagged| - 3] else untagged
  }

  /** The clean-up before validation: strip the reply; when it opens with a
      fence, keep the text between the first two fences, drop a `json` tag,
      and strip again. */
  function CleanJson(text: string): (json: string)
    ensures IsStripped(json)
    ensures !StartsWith(Strip(text), Fence) ==> json == Strip(text)
  {
    var t := Strip(text);
    if StartsWith(t, Fence) then Strip(FencedBody(Split(t, Fence)[1])) else t
  }

  /** A text opening with a fence splits into at least two pieces. */
  lemma OpeningFenceSplits(t: string)
    requires StartsWith(t, Fence)
    ensures |Split(t, Fence)| >= 2
  {
    assert OccursAt(t, Fence, 0);
  }

  /** A piece free of fences stays free once untagged, so it cannot end with one. */
  lemma UntaggedNoFence(piece: string)
    requires !Contains(piece, Fence)
    ensures !EndsWith(Untag(piece), Fence)
    ensures FencedBody(piece) == Untag(piece)
  {
    if StartsWith(piece, "json") {
      SuffixFree(piece, 4, Fence);
    }
    if EndsWith(Untag(piece), Fence) {
      EndsWithContains(Untag(piece), Fence);
    }
  }

  /** The trailing-fence removal can never apply: the piece lies before the
      second fence, so it holds no fence and cannot end with one. */
  lemma TrailingFenceDead(text: string)
    requires StartsWith(Strip(text), Fence)
    ensures var piece := Split(Strip(text), Fence)[1];
      && !EndsWith(Untag(piece), Fence)
      && CleanJson(text) == Strip(Untag(piece))
  {
    OpeningFenceSplits(Strip(text));
    SplitSecondFree(Strip(text), Fence);
    UntaggedNoFence(Split(Strip(text), Fence)[1]);
  }

  /** The piece between the first two fences of `fence + piece + fence + rest`. */
  lemma FencedSecondPiece(piece: string, rest: string)
    requires !Contains(piece, Fence) && (|piece| == 0 || piece[|piece| - 1] != '`')
    ensures |Split(Fence + (piece + (Fence + rest)), Fence)| >= 2
    ensures Split(Fence + (piece + (Fence + rest)), Fence)[1] == piece
  {
    SplitAtStart(Fence, piece + (Fence + rest));
    SplitAfterFree(piece, Fence, rest);
    assert piece + (Fence + rest) == piece + Fence + rest;
  }

  /** A fenced text ending in a non-space character is already stripped. */
  lemma FencedStripped(piece: string, rest: string)
    requires |rest| == 0 || !IsSpace(rest[|rest| - 1])
    ensures Strip(Fence + (piece + (Fence + rest))) == Fence + (piece + (Fence + rest))
    ensures StartsWith(Fence + (piece + (Fence + rest)), Fence)
  {
    var t := Fence + (piece + (Fence + rest));
    assert t[0] == '`';
    assert t[|t| - 1] == if |rest| == 0 then '`' else rest[|rest| - 1];
    StripIdentity(t);
  }

  /** A fence-wrapped reply `fence + piece + fence + rest` validates the piece
      alone, untagged and stripped; anything after the closing fence is ignored. */
  lemma FencedPiece(piece: string, rest: string)
    requires !Contains(piece, Fence) && (|piece| == 0 || piece[|piece| - 1] != '`')
    requires |rest| == 0 || !IsSpace(rest[|rest| - 1])
    ensures CleanJson(Fence + (piece + (Fence + rest))) == Strip(Untag(piece))
  {
    var t := Fence + (piece + (Fence + rest));
    FencedStripped(piece, rest);
    assert Strip(t) == t;
    FencedSecondPiece(piece, rest);
    assert Split(Strip(t), Fence)[1] == piece;
    TrailingFenceDead(t);
  }

  /** The usual shape of a fenced reply, "```json" + body + "```", yields the
      stripped body. */
  lemma FencedJson(body: string)
    requires !Contains(body, Fence) && (|body| == 0 || body[|body| - 1] != '`')
    ensures CleanJson(Fence + ("json" + body + Fence)) == Strip(body)
  {
    var piece := "json" + body;
    assert Fence + (piece + (Fence + "")) == Fence + ("json" + body + Fence);
    assert piece[..4] == "json" && piece[4..] == body;
    assert Untag(piece) == body;
    NotContainsMissingChar("json", Fence, '`');
    AppendFree("json", body, Fence);
    FencedPiece(piece, "");
  }

  /** What extract_crisis_event returns: (event, success, error, latency_ms, usage). */
  datatype Extraction = Extraction(
    event: Option<CrisisEvent>,
    success: bool,
    error: Option<string>,
    latencyMs: nat,
    usage: Usage)

  /** extract_crisis_event: any error, from the client or from validation,
      is caught and reported with zero latency and an empty usage. */
  function ExtractCrisisEvent(llm: Llm, validate: Validator, serviceProvider: Provider, item: NewsItem,
                              config: Option<ProviderConfig>): (r: Extraction)
    ensures r.success <==> r.event.Some?
    ensures r.success <==> r.error.None?
    ensures !r.success ==> r.latencyMs == 0 && r.usage == map[]
    ensures var reply := llm.jsonChat(ExtractRequest(llm, serviceProvider, item.text, config));
      && (reply.Failure? ==> r.error == Some("Failed to extract event: " + reply.error))
      && (reply.Success? ==>
            var v := validate(CleanJson(reply.value.text));
            && (r.success <==> v.Success?)
            && (v.Success? ==> r == Extraction(Some(v.value), true, None, reply.value.latencyMs, reply.value.usage))
            && (v.Failure? ==> r.error == Some("Failed to extract event: " + v.error)))
  {
    var reply := llm.jsonChat(ExtractRequest(llm, serviceProvider, item.text, config));
    if reply.Failure? then Extraction(None, false, Some("Failed to extract event: " + reply.error), 0, map[])
    else match validate(CleanJson(reply.value.text))
      case Failure(e) => Extraction(None, false, Some("Failed to extract event: " + e), 0, map[])
      case Success(event) => Extraction(Some(event), true, None, reply.value.latencyMs, reply.value.usage)
  }

  /** The override's temperature and max_tokens never reach the extraction call. */
  lemma ExtractIgnoresOverrides(llm: Llm, validate: Validator, serviceProvider: Provider, item: NewsItem,
                                c: ProviderConfig, temperature: Option<real>, maxTokens: Option<int>)
    ensures ExtractCrisisEvent(llm, validate, serviceProvider, item, Some(c))
         == ExtractCrisisEvent(llm, validate, serviceProvider, item, Some(c.(temperature := temperature, maxTokens := maxTokens)))
  {
  }

  /** A successful extraction carries exactly what the validator accepted
      from the cleaned reply, so with a sound validator it satisfies the
      schema; a failed one carries no event at all. */
  lemma ExtractedEventValid(llm: Llm, validate: Validator, serviceProvider: Provider, item: NewsItem,
                            config: Option<ProviderConfig>)
    requires SoundValidator(validate)
    ensures var r := ExtractCrisisEvent(llm, validate, serviceProvider, item, config);
      var reply := llm.jsonChat(ExtractRequest(llm, serviceProvider, item.text, config));
      && (r.success ==> reply.Success? && validate(CleanJson(reply.value.text)) == Success(r.event.value))
      && (r.success ==> ValidCrisisEvent(r.event.value))
      && (!r.success ==> r.event.None?)
  {
  }

  function ExtractCall(llm: Llm, validate: Validator, serviceProvider: Provider, config: Option<ProviderConfig>)
    : NewsItem -> Extraction
  {
    item => ExtractCrisisEvent(llm, validate, serviceProvider, item, config)
  }

  /** The extractions of a batch, item by item. */
  function Extractions(extract: NewsItem -> Extraction, items: seq<NewsItem>): (xs: seq<Extraction>)
    ensures |xs| == |items|
    ensures forall i :: 0 <= i < |items| ==> xs[i] == extract(items[i])
  {
    seq(|items|, i requires 0 <= i < |items| => extract(items[i]))
  }

  /** The loop's `if success and event`: a returned event is always truthy. */
  predicate Kept(x: Extraction) {
    x.success && x.event.Some?
  }

  /** The events the loop keeps, in item order. */
  function Successes(xs: seq<Extraction>): seq<CrisisEvent> {
    if |xs| == 0 then []
    else
      var last := xs[|xs| - 1];
      Successes(xs[..|xs| - 1]) + (if Kept(last) then [last.event.value] else [])
  }

  /** How many extractions report success. */
  function SuccessCount(xs: seq<Extraction>): nat {
    if |xs| == 0 then 0 else SuccessCount(xs[1..]) + (if xs[0].success then 1 else 0)
  }

  /** An extraction as a call of the shared batch bookkeeping: its event,
      with the latency and usage it reported. */
  function AsCall(x: Extraction): Call<Option<CrisisEvent>> {
    Call(x.event, x.latencyMs, x.usage)
  }

  function AsCalls(xs: seq<Extraction>): (cs: seq<Call<Option<CrisisEvent>>>)
    ensures |cs| == |xs|
    ensures forall i :: 0 <= i < |xs| ==> cs[i] == AsCall(xs[i])
  {
    seq(|xs|, i requires 0 <= i < |xs| => AsCall(xs[i]))
  }

  /** Extractions as extract_crisis_event shapes them: success exactly when an event came back. */
  predicate WellShaped(xs: seq<Extraction>) {
    forall i :: 0 <= i < |xs| ==> (xs[i].success <==> xs[i].event.Some?)
  }

  lemma {:induction false} SuccessCountAppend(xs: seq<Extraction>, x: Extraction)
    ensures SuccessCount(xs + [x]) == SuccessCount(xs) + (if x.success then 1 else 0)
    decreases |xs|
  {
    if |xs| == 0 {
      assert (xs + [x])[1..] == [];
    } else {
      assert (xs + [x])[1..] == xs[1..] + [x];
      SuccessCountAppend(xs[1..], x);
    }
  }

  /** Of well-shaped extractions, the loop keeps exactly the successful ones. */
  lemma {:induction false} KeptAreSuccesses(xs: seq<Extraction>)
    requires WellShaped(xs)
    ensures |Successes(xs)| == SuccessCount(xs)
    decreases |xs|
  {
    if |xs| > 0 {
      var init := xs[..|xs| - 1];
      assert WellShaped(init) by {
        forall i | 0 <= i < |init|
          ensures init[i].success <==> init[i].event.Some?
        {
          assert init[i] == xs[i];
        }
      }
      KeptAreSuccesses(init);
      SuccessCountAppend(init, xs[|xs| - 1]);
      assert init + [xs[|xs| - 1]] == xs;
    }
  }

  /** Every event the loop keeps is one of the extracted events. */
  lemma {:induction false} SuccessesFromExtractions(xs: seq<Extraction>, k: int)
    requires 0 <= k < |Successes(xs)|
    ensures exists i :: 0 <= i < |xs| && xs[i].event == Some(Successes(xs)[k])
    decreases |xs|
  {
    var init := xs[..|xs| - 1];
    if k < |Successes(init)| {
      SuccessesFromExtractions(init, k);
      var i :| 0 <= i < |init| && init[i].event == Some(Successes(init)[k]);
      assert xs[i] == init[i];
    } else {
      assert xs[|xs| - 1].event == Some(Successes(xs)[k]);
    }
  }

  /** One more item extends each of the batch's running aggregates. */
  lemma BatchStep(xs: seq<Extraction>, i: nat)
    requires i < |xs|
    ensures Successes(xs[..i + 1]) == Successes(xs[..i]) + (if Kept(xs[i]) then [xs[i].event.value] else [])
    ensures TotalLatency(AsCalls(xs[..i + 1])) == TotalLatency(AsCalls(xs[..i])) + xs[i].latencyMs
    ensures TokenTotals(Usages(AsCalls(xs[..i + 1]))) == AddUsage(TokenTotals(Usages(AsCalls(xs[..i]))), xs[i].usage)
  {
    assert xs[..i + 1][..i] == xs[..i];
    assert AsCalls(xs[..i + 1]) == AsCalls(xs[..i]) + [AsCall(xs[i])];
    BatchTotalsStep(AsCalls(xs[..i]), AsCall(xs[i]));
  }

  /** Before the first item every aggregate is empty. */
  lemma BatchStart(xs: seq<Extraction>)
    ensures Successes(xs[..0]) == [] && TotalLatency(AsCalls(xs[..0])) == 0
    ensures TokenTotals(Usages(AsCalls(xs[..0]))) == map k | k in UsageKeys :: 0
  {
    assert xs[..0] == [];
    assert Usages(AsCalls(xs[..0])) == [];
  }

  /** What process_news_batch returns. */
  datatype NewsBatch = NewsBatch(
    events: seq<CrisisEvent>,
    totalProcessed: nat,
    successful: nat,
    failed: nat,
    successRate: real,
    totalLatencyMs: nat,
    totalTokens: map<string, int>)

  /** successful / total_processed, or 0.0 for an empty batch. */
  function SuccessRate(successful: nat, total: nat): (rate: real)
    requires successful <= total
    ensures ValidSuccessRate(rate)
    ensures total > 0 ==> rate * (total as real) == successful as real
    ensures total == 0 ==> rate == 0.0
    ensures total > 0 && successful == total ==> rate == 1.0
    ensures successful == 0 ==> rate == 0.0
  {
    if total > 0 then successful as real / total as real else 0.0
  }

  /** The loop of process_news_batch over any per-item extraction: keep the
      kept events, count successes and failures, sum latencies and fold usages. */
  method TallyNews(extract: NewsItem -> Extraction, items: seq<NewsItem>) returns (r: NewsBatch)
    ensures var xs := Extractions(extract, items);
      && r.events == Successes(xs)
      && r.totalLatencyMs == TotalLatency(AsCalls(xs))
      && r.totalTokens == TokenTotals(Usages(AsCalls(xs)))
    ensures r.totalProcessed == |items| && r.successful + r.failed == |items|
    ensures r.successful == |r.events|
    ensures r.successRate == SuccessRate(r.successful, r.totalProcessed)
  {
    ghost var xs := Extractions(extract, items);
    var events: seq<CrisisEvent> := [];
    var successful: nat := 0;
    var failed: nat := 0;
    var latency: nat := 0;
    var totals := map k | k in UsageKeys :: 0;
    BatchStart(xs);
    var i := 0;
    while i < |items|
      invariant 0 <= i <= |items| && |xs| == |items|
      invariant events == Successes(xs[..i])
      invariant successful == |events| && successful + failed == i
      invariant latency == TotalLatency(AsCalls(xs[..i]))
      invariant totals == TokenTotals(Usages(AsCalls(xs[..i])))
    {
      var x := extract(items[i]);
      assert x == xs[i];
      BatchStep(xs, i);
      if x.success && x.event.Some? {
        events := events + [x.event.value];
        successful := successful + 1;
      } else {
        failed := failed + 1;
      }
      latency := latency + x.latencyMs;
      totals := AddUsage(totals, x.usage);
      i := i + 1;
    }
    assert xs[..|items|] == xs;
    r := NewsBatch(events, |items|, successful, failed, SuccessRate(successful, |items|), latency, totals);
  }

  /** The extractions of the service are well shaped. */
  lemma ExtractionsWellShaped(llm: Llm, validate: Validator, serviceProvider: Provider, items: seq<NewsItem>,
                              config: Option<ProviderConfig>)
    ensures WellShaped(Extractions(ExtractCall(llm, validate, serviceProvider, config), items))
  {
    var xs := Extractions(ExtractCall(llm, validate, serviceProvider, config), items);
    forall i | 0 <= i < |xs|
      ensures xs[i].success <==> xs[i].event.Some?
    {
      assert xs[i] == ExtractCrisisEvent(llm, validate, serviceProvider, items[i], config);
    }
  }

  /** process_news_batch: every item is extracted; failures are counted, not
      raised; the kept events, the summed latency and the token totals cover
      the whole batch. */
  method ProcessNewsBatch(llm: Llm, validate: Validator, serviceProvider: Provider, items: seq<NewsItem>,
                          config: Option<ProviderConfig>) returns (r: NewsBatch)
    ensures var xs := Extractions(ExtractCall(llm, validate, serviceProvider, config), items);
      && r.events == Successes(xs)
      && r.successful == SuccessCount(xs)
      && r.totalLatencyMs == TotalLatency(AsCalls(xs))
      && r.totalTokens == TokenTotals(Usages(AsCalls(xs)))
    ensures r.totalProcessed == |items| && r.successful + r.failed == |items|
    ensures r.successful == |r.events|
    ensures r.successRate == SuccessRate(r.successful, r.totalProcessed) && ValidSuccessRate(r.successRate)
  {
    r := TallyNews(ExtractCall(llm, validate, serviceProvider, config), items);
    ExtractionsWellShaped(llm, validate, serviceProvider, items, config);
    KeptAreSuccesses(Extractions(ExtractCall(llm, validate, serviceProvider, config), items));
  }

  /** A failed extraction adds nothing to the latency or the token totals. */
  lemma FailedItemAddsNothing(xs: seq<Extraction>, x: Extraction)
    requires !x.success && x.latencyMs == 0 && x.usage == map[]
    ensures TotalLatency(AsCalls(xs + [x])) == TotalLatency(AsCalls(xs))
    ensures TokenTotals(Usages(AsCalls(xs + [x]))) == TokenTotals(Usages(AsCalls(xs)))
    ensures Successes(xs + [x]) == Successes(xs)
  {
    assert (xs + [x])[..|xs|] == xs;
    assert AsCalls(xs + [x]) == AsCalls(xs) + [AsCall(x)];
    assert Usages(AsCalls(xs + [x])) == Usages(AsCalls(xs)) + [map[]];
    EmptyUsageAddsNothing(Usages(AsCalls(xs)));
    assert AsCalls(xs + [x])[..|xs|] == AsCalls(xs);
  }

  /** With a sound validator every event a batch keeps satisfies the schema. */
  lemma BatchEventsValid(llm: Llm, validate: Validator, serviceProvider: Provider, items: seq<NewsItem>,
                         config: Option<ProviderConfig>)
    requires SoundValidator(validate)
    ensures var events := Successes(Extractions(ExtractCall(llm, validate, serviceProvider, config), items));
      forall k :: 0 <= k < |events| ==> ValidCrisisEvent(events[k])
  {
    var xs := Extractions(ExtractCall(llm, validate, serviceProvider, config), items);
    forall k | 0 <= k < |Successes(xs)|
      ensures ValidCrisisEvent(Successes(xs)[k])
    {
      SuccessesFromExtractions(xs, k);
      var i :| 0 <= i < |xs| && xs[i].event == Some(Successes(xs)[k]);
      assert xs[i] == ExtractCrisisEvent(llm, validate, serviceProvider, items[i], config);
      ExtractedEventValid(llm, validate, serviceProvider, items[i], config);
    }
  }
}
