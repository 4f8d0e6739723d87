/** Token-budget spam filtering (src/app/services/token_management_service.py):
    a message within budget passes unchanged; one over budget is cut to its
    first tokens or summarized by the model, or rejected when the strategy is
    unknown. */
module TokenManagement {
  import opened Results
  import opened PyStr
  import opened CommonSchema
  import opened TokenSchema
  import opened Gateway
  import Classification

  /** The marker appended to a truncated message. */
  const TruncationMarker: string := "... [TRUNCATED]"

  /** Python's `tokens[:n]`: a negative `n` counts from the end and an `n`
      past the end keeps everything. */
  function SliceTo<T>(s: seq<T>, n: int): (r: seq<T>)
    ensures |r| <= |s| && r == s[..|r|]
    ensures n >= 0 ==> |r| == if n <= |s| then n else |s|
    ensures n < 0 ==> |r| == if |s| + n >= 0 then |s| + n else 0
  {
    if n >= 0 then (if n <= |s| then s[..n] else s)
    else if |s| + n >= 0 then s[..|s| + n]
    else []
  }

  /** Slicing twice with the same non-negative bound slices once. */
  lemma SliceToIdempotent<T>(s: seq<T>, n: int)
    requires n >= 0
    ensures SliceTo(SliceTo(s, n), n) == SliceTo(s, n)
  {
  }

  /** A negative bound is not idempotent: slicing again drops more. */
  lemma SliceToNegativeShrinks<T>(s: seq<T>, n: int)
    requires n < 0 && |s| + n > 0
    ensures |SliceTo(SliceTo(s, n), n)| < |SliceTo(s, n)|
  {
  }

  /** _truncate_message: keep the first `maxTokens` tokens of the encoding,
      decode them and append the marker; the original count is the length of
      the encoding, the processed count a fresh count of the result. */
  function Truncate(tok: Tokenizer, provider: Provider, message: string, maxTokens: int): (r: SpamFilterResult)
    ensures r.status == BlockedTruncated && r.action == "Truncated"
    ensures r.originalTokenCount == |tok.encode(provider, message)|
    ensures EndsWith(r.processedMessage, TruncationMarker)
    ensures r.processedMessage[..|r.processedMessage| - |TruncationMarker|]
         == tok.decode(provider, SliceTo(tok.encode(provider, message), maxTokens))
    ensures r.processedTokenCount == tok.count(provider, r.processedMessage)
    ensures r.tokensSaved == r.originalTokenCount - r.processedTokenCount
  {
    var tokens := tok.encode(provider, message);
    var truncated := tok.decode(provider, SliceTo(tokens, maxTokens)) + TruncationMarker;
    var processed := tok.count(provider, truncated);
    SpamFilterResult(BlockedTruncated, |tokens|, processed, truncated, "Truncated", |tokens| - processed)
  }

  /** The summarize call's temperature: the override's temperature whenever an
      override is given, even an unset one; otherwise the template default,
      with an unset or zero default sent as 0.0. */
  function SummarizeTemperature(config: Option<ProviderConfig>, spec: GenerationSpec): (t: Option<real>)
    ensures config.Some? ==> t == config.value.temperature
    ensures config.None? ==> t.Some?
    ensures config.None? && spec.temperature.Some? ==> t == spec.temperature
    ensures config.None? && spec.temperature.None? ==> t == Some(0.0)
  {
    if config.Some? then config.value.temperature
    else if spec.temperature.Some? && spec.temperature.value != 0.0 then spec.temperature
    else Some(0.0)
  }

  /** Unlike classification, an override that leaves the temperature unset
      sends no temperature at all instead of falling back to the default. */
  lemma SummarizeDropsDefault(c: ProviderConfig, spec: GenerationSpec)
    requires c.temperature.None? && spec.temperature.Some?
    ensures SummarizeTemperature(Some(c), spec) == None
    ensures Classification.EffectiveTemperature(Some(c), spec) == spec.temperature
  {
  }

  /** The summarize call: the overflow template with a context budget of
      `maxTokens - 50`, the message as context, and `maxTokens` as the reply limit. */
  function SummarizeRequest(llm: Llm, provider: Provider, message: string, maxTokens: int, config: Option<ProviderConfig>)
    : (req: ChatRequest)
    ensures req.provider == provider
    ensures req.prompt == SummarizePrompt(maxTokens - 50, message)
    ensures req.temperature == SummarizeTemperature(config, llm.defaults(OverflowSummarizeV1))
    ensures req.maxTokens == Some(maxTokens)
  {
    ChatRequest(provider, SummarizePrompt(maxTokens - 50, message),
                SummarizeTemperature(config, llm.defaults(OverflowSummarizeV1)), Some(maxTokens))
  }

  /** The smallest budget a request may carry leaves the summary prompt a
      negative context budget. */
  lemma SummarizeBudgetNegative(llm: Llm, provider: Provider, message: string, config: Option<ProviderConfig>)
    requires 1 <= |message| <= 100000
    ensures ValidTokenCheckRequest(TokenCheckRequest(message, 10, "summarize", None))
    ensures SummarizeRequest(llm, provider, message, 10, config).prompt.budget == -40
  {
  }

  /** _summarize_message: the stripped reply and its count; a client error
      propagates. */
  function Summarize(llm: Llm, tok: Tokenizer, provider: Provider, message: string, maxTokens: int,
                     config: Option<ProviderConfig>): (r: Result<SpamFilterResult, ServiceError>)
    ensures var reply := llm.chat(SummarizeRequest(llm, provider, message, maxTokens, config));
      && (reply.Failure? <==> r.Failure?)
      && (reply.Failure? ==> r.error == ProviderError(reply.error))
      && (reply.Success? ==> r.value.processedMessage == Strip(reply.value.text))
    ensures r.Success? ==>
      && r.value.status == Summarized && r.value.action == "Intelligently Summarized"
      && r.value.originalTokenCount == tok.count(provider, message)
      && r.value.processedTokenCount == tok.count(provider, r.value.processedMessage)
      && r.value.tokensSaved == r.value.originalTokenCount - r.value.processedTokenCount
      && IsStripped(r.value.processedMessage)
  {
    var original := tok.count(provider, message);
    var reply := llm.chat(SummarizeRequest(llm, provider, message, maxTokens, config));
    if reply.Failure? then Failure(ProviderError(reply.error))
    else
      var summary := Strip(reply.value.text);
      var processed := tok.count(provider, summary);
      Success(SpamFilterResult(Summarized, original, processed, summary, "Intelligently Summarized", original - processed))
  }

  /** check_and_filter_spam (without its latency): within budget the message is
      accepted as it is whatever the strategy; over budget the strategy
      decides, and an unknown one raises. */
  function CheckAndFilterSpam(llm: Llm, tok: Tokenizer, serviceProvider: Provider, message: string, maxTokens: int,
                              strategy: string, config: Option<ProviderConfig>): (r: Result<SpamFilterResult, ServiceError>)
    ensures var provider := EffectiveProvider(config, serviceProvider);
      var n := tok.count(provider, message);
      && (n <= maxTokens ==> r == Success(SpamFilterResult(Accepted, n, n, message, "None", 0)))
      && (n > maxTokens && strategy == "truncate" ==> r == Success(Truncate(tok, provider, message, maxTokens)))
      && (n > maxTokens && strategy == "summarize" ==> r == Summarize(llm, tok, provider, message, maxTokens, config))
      && (n > maxTokens && strategy != "truncate" && strategy != "summarize" ==> r == Failure(UnknownStrategy(strategy)))
  {
    var provider := EffectiveProvider(config, serviceProvider);
    var n := tok.count(provider, message);
    if n <= maxTokens then Success(SpamFilterResult(Accepted, n, n, message, "None", 0))
    else if strategy == "truncate" then Success(Truncate(tok, provider, message, maxTokens))
    else if strategy == "summarize" then Summarize(llm, tok, provider, message, maxTokens, config)
    else Failure(UnknownStrategy(strategy))
  }

  /** The action a result reports is fixed by its status. */
  predicate ActionMatchesStatus(r: SpamFilterResult) {
    match r.status
    case Accepted => r.action == "None"
    case BlockedTruncated => r.action == "Truncated"
    case Summarized => r.action == "Intelligently Summarized"
  }

  /** Every result pairs its status with the matching action, and reports
      as saved exactly the difference of its two counts. */
  lemma FilterResultConsistent(llm: Llm, tok: Tokenizer, serviceProvider: Provider, message: string, maxTokens: int,
                               strategy: string, config: Option<ProviderConfig>)
    ensures var r := CheckAndFilterSpam(llm, tok, serviceProvider, message, maxTokens, strategy, config);
      r.Success? ==>
        && ActionMatchesStatus(r.value)
        && r.value.tokensSaved == r.value.originalTokenCount - r.value.processedTokenCount
  {
  }

  /** A message is accepted exactly when its count is within budget. */
  lemma AcceptedIffWithinBudget(llm: Llm, tok: Tokenizer, serviceProvider: Provider, message: string, maxTokens: int,
                                strategy: string, config: Option<ProviderConfig>)
    ensures var r := CheckAndFilterSpam(llm, tok, serviceProvider, message, maxTokens, strategy, config);
      r.Success? ==>
        (r.value.status == Accepted <==> tok.count(EffectiveProvider(config, serviceProvider), message) <= maxTokens)
  {
  }

  /** Within budget the strategy, the model and the override's generation
      settings play no part. */
  lemma WithinBudgetIgnoresStrategy(llm1: Llm, llm2: Llm, tok: Tokenizer, serviceProvider: Provider, message: string,
                                    maxTokens: int, s1: string, s2: string, config: Option<ProviderConfig>)
    requires tok.count(EffectiveProvider(config, serviceProvider), message) <= maxTokens
    ensures CheckAndFilterSpam(llm1, tok, serviceProvider, message, maxTokens, s1, config)
         == CheckAndFilterSpam(llm2, tok, serviceProvider, message, maxTokens, s2, config)
    ensures CheckAndFilterSpam(llm1, tok, serviceProvider, message, maxTokens, s1, config).value.processedMessage == message
  {
  }

  /** Truncation never calls the model and never fails. */
  lemma TruncateIgnoresModel(llm1: Llm, llm2: Llm, tok: Tokenizer, serviceProvider: Provider, message: string,
                             maxTokens: int, config: Option<ProviderConfig>)
    ensures CheckAndFilterSpam(llm1, tok, serviceProvider, message, maxTokens, "truncate", config)
         == CheckAndFilterSpam(llm2, tok, serviceProvider, message, maxTokens, "truncate", config)
    ensures CheckAndFilterSpam(llm1, tok, serviceProvider, message, maxTokens, "truncate", config).Success?
  {
  }

  /** A request that passed validation is never rejected for its strategy; it
      fails only when the summarizing call does. */
  lemma ValidRequestFailsOnlyInModel(llm: Llm, tok: Tokenizer, serviceProvider: Provider, req: TokenCheckRequest)
    requires ValidTokenCheckRequest(req)
    ensures var r := CheckAndFilterSpam(llm, tok, serviceProvider, req.message, req.maxTokens, req.strategy, req.providerConfig);
      r.Failure? ==> r.error.ProviderError? && req.strategy == "summarize"
  {
  }

  /** With a tokenizer whose count is the length of its encoding, a truncated
      message kept exactly `maxTokens` of its tokens, fewer than it had. */
  lemma TruncateKeepsBudget(tok: Tokenizer, provider: Provider, message: string, maxTokens: int)
    requires tok.count(provider, message) == |tok.encode(provider, message)|
    requires 0 <= maxTokens < tok.count(provider, message)
    ensures var kept := SliceTo(tok.encode(provider, message), maxTokens);
      && |kept| == maxTokens < Truncate(tok, provider, message, maxTokens).originalTokenCount
      && kept == tok.encode(provider, message)[..maxTokens]
  {
  }
}
