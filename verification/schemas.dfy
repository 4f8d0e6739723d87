/** Shapes shared by every request: which provider to call and the optional
    generation overrides (src/app/schemas/common.py). */
module CommonSchema {
  import opened Results

  /** The `provider` literal. */
  datatype Provider = OpenAI | Google | Groq

  function ProviderName(p: Provider): string {
    match p
    case OpenAI => "openai"
    case Google => "google"
    case Groq => "groq"
  }

  /** Validation of the `provider` literal: exactly the three names are accepted. */
  function ParseProvider(name: string): (r: Option<Provider>)
    ensures r.Some? ==> ProviderName(r.value) == name
    ensures r.None? ==> forall p: Provider :: ProviderName(p) != name
  {
    if name == "openai" then Some(OpenAI)
    else if name == "google" then Some(Google)
    else if name == "groq" then Some(Groq)
    else None
  }

  /** `ProviderConfig`: a None temperature or max_tokens means "use the prompt
      template's default". */
  datatype ProviderConfig = ProviderConfig(provider: Provider, temperature: Option<real>, maxTokens: Option<int>)

  /** `ProviderConfig()` with every field left at its default. */
  const DefaultProviderConfig: ProviderConfig := ProviderConfig(Groq, None, None)

  /** The field constraints: temperature in [0.0, 2.0], max_tokens > 0. */
  predicate ValidProviderConfig(c: ProviderConfig) {
    && (c.temperature.Some? ==> 0.0 <= c.temperature.value <= 2.0)
    && (c.maxTokens.Some? ==> c.maxTokens.value > 0)
  }

  /** The default configuration is a valid one that calls groq and overrides nothing. */
  lemma DefaultProviderConfigValid()
    ensures ValidProviderConfig(DefaultProviderConfig)
    ensures DefaultProviderConfig.provider == Groq
    ensures DefaultProviderConfig.temperature.None? && DefaultProviderConfig.maxTokens.None?
  {
  }

  /** `provider_config.provider if provider_config else self.provider`; a
      pydantic model is always truthy, so only an absent config falls back. */
  function EffectiveProvider(config: Option<ProviderConfig>, serviceProvider: Provider): (p: Provider)
    ensures config.Some? ==> p == config.value.provider
    ensures config.None? ==> p == serviceProvider
  {
    if config.Some? then config.value.provider else serviceProvider
  }
}

/** Result and request shapes of message classification
    (src/app/schemas/classification.py). */
module ClassificationSchema {
  import opened Results

  /** The `intent` literal. */
  datatype Intent = Rescue | Supply | Info | Other

  /** The `priority` literal. */
  datatype Priority = High | Low

  function IntentName(i: Intent): string {
    match i
    case Rescue => "Rescue"
    case Supply => "Supply"
    case Info => "Info"
    case Other => "Other"
  }

  function PriorityName(p: Priority): string {
    match p
    case High => "High"
    case Low => "Low"
  }

  /** `ClassificationResult`; `district` is free text ("None" when absent). */
  datatype ClassificationResult = ClassificationResult(
    message: string,
    district: string,
    intent: Intent,
    priority: Priority,
    rawOutput: string,
    confidence: Option<real>)

  /** The numeric bound of the result: confidence, when present, is in [0, 1]. */
  predicate ValidClassificationResult(r: ClassificationResult) {
    r.confidence.Some? ==> 0.0 <= r.confidence.value <= 1.0
  }

  /** `MessageClassificationRequest.message`: 1 to 5000 characters. */
  predicate ValidClassificationMessage(message: string) {
    1 <= |message| <= 5000
  }
}

/** Incident and route shapes of resource allocation
    (src/app/schemas/resource_allocation.py). */
module ResourceSchema {
  import opened Results

  /** `IncidentData`. */
  datatype IncidentData = IncidentData(
    location: string,
    description: string,
    peopleAffected: Option<int>,
    needType: Option<string>,
    ageInfo: Option<string>)

  /** `IncidentData(location=..., description=...)`: the optional fields default to None. */
  function NewIncident(location: string, description: string): (r: IncidentData)
    ensures r.location == location && r.description == description
    ensures r.peopleAffected.None? && r.needType.None? && r.ageInfo.None?
  {
    IncidentData(location, description, None, None, None)
  }

  /** `ScoredIncident`. */
  datatype ScoredIncident = ScoredIncident(incident: IncidentData, score: int, reasoning: string)

  /** `score` is constrained to 0..10. */
  predicate ValidScoredIncident(s: ScoredIncident) {
    0 <= s.score <= 10
  }

  /** `PriorityScoreRequest.incidents`: 1 to 20 incidents. */
  predicate ValidPriorityScoreRequest(incidents: seq<IncidentData>) {
    1 <= |incidents| <= 20
  }

  /** `RouteOptimizationRequest`. */
  datatype RouteRequest = RouteRequest(
    scoredIncidents: seq<ScoredIncident>,
    startingLocation: string,
    travelTimes: Option<map<string, map<string, int>>>)

  const DefaultStartingLocation: string := "Ragama"

  /** A route request built from scored incidents alone, every other field defaulted. */
  function NewRouteRequest(scored: seq<ScoredIncident>): (r: RouteRequest)
    ensures r.scoredIncidents == scored
    ensures r.startingLocation == "Ragama" && r.travelTimes.None?
  {
    RouteRequest(scored, DefaultStartingLocation, None)
  }

  /** 2 to 10 scored incidents, each with a score in range. */
  predicate ValidRouteRequest(r: RouteRequest) {
    && 2 <= |r.scoredIncidents| <= 10
    && forall i :: 0 <= i < |r.scoredIncidents| ==> ValidScoredIncident(r.scoredIncidents[i])
  }
}

/** Spam-filter shapes of token management (src/app/schemas/token_management.py). */
module TokenSchema {
  import opened Results
  import opened CommonSchema

  /** The `status` literal. */
  datatype FilterStatus = Accepted | BlockedTruncated | Summarized

  function StatusName(s: FilterStatus): string {
    match s
    case Accepted => "ACCEPTED"
    case BlockedTruncated => "BLOCKED/TRUNCATED"
    case Summarized => "SUMMARIZED"
  }

  /** `SpamFilterResult`. */
  datatype SpamFilterResult = SpamFilterResult(
    status: FilterStatus,
    originalTokenCount: int,
    processedTokenCount: int,
    processedMessage: string,
    action: string,
    tokensSaved: int)

  /** `TokenCheckRequest`; `strategy` is kept as text so that the service's
      rejection of an unknown strategy can be stated. */
  datatype TokenCheckRequest = TokenCheckRequest(
    message: string,
    maxTokens: int,
    strategy: string,
    providerConfig: Option<ProviderConfig>)

  /** A request for `message` with every other field defaulted. */
  function NewTokenCheckRequest(message: string): (r: TokenCheckRequest)
    ensures r.message == message && r.maxTokens == 150 && r.strategy == "truncate"
    ensures r.providerConfig.None?
  {
    TokenCheckRequest(message, 150, "truncate", None)
  }

  /** message of 1..100000 characters, max_tokens in [10, 10000], a known strategy. */
  predicate ValidTokenCheckRequest(r: TokenCheckRequest) {
    && 1 <= |r.message| <= 100000
    && 10 <= r.maxTokens <= 10000
    && (r.strategy == "truncate" || r.strategy == "summarize")
    && (r.providerConfig.Some? ==> ValidProviderConfig(r.providerConfig.value))
  }

  /** A defaulted request is valid exactly when its message has an admissible length. */
  lemma NewTokenCheckRequestValid(message: string)
    ensures ValidTokenCheckRequest(NewTokenCheckRequest(message)) <==> 1 <= |message| <= 100000
  {
  }
}

/** Crisis-event and news shapes of structured extraction
    (src/app/schemas/news_processing.py). */
module NewsSchema {
  import opened Results

  /** The `district` literal, `OtherDistrict` standing for "Other". */
  datatype District = Colombo | Gampaha | Kandy | Kalutara | Galle | Matara | Ratnapura | OtherDistrict

  function DistrictName(d: District): string {
    match d
    case Colombo => "Colombo"
    case Gampaha => "Gampaha"
    case Kandy => "Kandy"
    case Kalutara => "Kalutara"
    case Galle => "Galle"
    case Matara => "Matara"
    case Ratnapura => "Ratnapura"
    case OtherDistrict => "Other"
  }

  /** The `status` literal. */
  datatype EventStatus = Critical | Warning | Stable

  /** `CrisisEvent`; the flood level is carried, never computed with. */
  datatype CrisisEvent = CrisisEvent(
    district: District,
    floodLevelMeters: Option<real>,
    victimCount: int,
    mainNeed: string,
    status: EventStatus)

  /** `victim_count` is constrained to be >= 0. */
  predicate ValidCrisisEvent(e: CrisisEvent) {
    e.victimCount >= 0
  }

  /** `CrisisEvent` built without a victim count: it defaults to 0, which is valid. */
  function NewCrisisEvent(district: District, mainNeed: string, status: EventStatus): (e: CrisisEvent)
    ensures e.victimCount == 0 && e.floodLevelMeters.None?
    ensures ValidCrisisEvent(e)
  {
    CrisisEvent(district, None, 0, mainNeed, status)
  }

  /** `NewsItem`. */
  datatype NewsItem = NewsItem(text: string, source: Option<string>, timestamp: Option<string>)

  /** `NewsItem.text`: 1 to 10000 characters. */
  predicate ValidNewsItem(n: NewsItem) {
    1 <= |n.text| <= 10000
  }

  /** `BatchNewsProcessingResponse.success_rate` lies in [0.0, 1.0]. */
  predicate ValidSuccessRate(r: real) {
    0.0 <= r <= 1.0
  }
}
