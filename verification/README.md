# Crisis intelligence pipeline: the business services in Dafny

This project models the deterministic core of the crisis-intelligence
pipeline's business services, together with the pydantic schemas and file
helpers they rely on. The services are:

- **classification**: a few-shot reply `District: … | Intent: … | Priority: …`
  is parsed into labels, and results are gathered over a batch;
- **resource allocation**: a `Score: X/10` answer is read and clamped into
  0..10, the route strategy is detected from the reasoning text, and incidents
  are stable-sorted by score into a route;
- **token management**: a message within its token budget is accepted as it
  is; one over budget is truncated to its first tokens plus a marker, or
  summarized by the model; an unknown strategy raises;
- **news processing**: a JSON reply has its markdown fences removed and is
  validated into a crisis event; a batch counts successes and failures;
- **file utilities**: message, news and incident lines are read, blank-line
  separated scenarios are grouped, and export columns, headers and widths are
  chosen.

The language-model client, the tokenizer and the pydantic JSON validator
cannot be seen here, so they are parameters:

- `Gateway.Llm` holds `chat`, `jsonChat` and `defaults`. `defaults` gives the
  template's generation spec.
- `Gateway.Tokenizer` holds `encode`, `decode` and `count`.
- `NewsProcessing.Validator` is `model_validate_json`.

Every property below holds for every choice of these functions. A Python
exception becomes the `Failure` branch of `Results.Result`, with
`Gateway.ServiceError` naming its kind. The Python built-ins the parsers use
are modelled in `PyStr` and `PyInt` as far as the parsers depend on them
(the gaps are listed under "Left out"):

- `str.strip` over the 29 `isspace` code points;
- `str.split(sep)`, `str.split()[0]` and `str.lower`;
- `in`, `startswith` and `endswith`;
- `int()` on ASCII digits.

Modules, one per source file:

- `Results`: `Option` and `Result`.
- `PyStr` and `PyInt`: the string and integer built-ins.
- `CommonSchema`, `ClassificationSchema`, `ResourceSchema`, `TokenSchema`
  and `NewsSchema`: the schemas.
- `Gateway`: the client boundary and the batch loop that three services
  share.
- `Classification`, `ResourceAllocation`, `TokenManagement` and
  `NewsProcessing`: the services.
- `FileUtils`: the file helpers.

## Model

| member | source | states |
|---|---|---|
| CommonSchema.ParseProvider | src/app/schemas/common.py:12-15 | only the names openai, google and groq are providers; any other name is rejected |
| CommonSchema.DefaultProviderConfigValid | src/app/schemas/common.py:12-26 | the default configuration is groq with temperature and max_tokens unset, and it satisfies the 0.0..2.0 and > 0 field bounds |
| CommonSchema.EffectiveProvider | src/app/services/classification_service.py:59 | an override's provider wins; without an override the service's own provider is used |
| ResourceSchema.NewIncident | src/app/schemas/resource_allocation.py:11-18 | an incident built from location and description has people_affected, need_type and age_info unset |
| ResourceSchema.NewRouteRequest | src/app/schemas/resource_allocation.py:54-66 | a route request defaults to starting at Ragama with no travel times |
| TokenSchema.NewTokenCheckRequest | src/app/schemas/token_management.py:27-45 | the request defaults are max_tokens 150, strategy truncate and no override |
| TokenSchema.NewTokenCheckRequestValid | src/app/schemas/token_management.py:27-41 | a request with default fields is valid exactly when its message has 1..100000 characters |
| NewsSchema.NewCrisisEvent | src/app/schemas/news_processing.py:11-29 | an event with default fields has no flood level and 0 victims, so it is valid |
| PyStr.Strip | src/app/services/classification_service.py:98 | `strip()` leaves no whitespace at either end, never grows the text, and is empty exactly when the text is all whitespace |
| PyStr.StripSurrounded | src/app/services/classification_service.py:106 | whitespace added around a text does not change its strip |
| PyStr.Split | src/app/services/classification_service.py:106 | `split(sep)` gives at least one piece, and at least two exactly when `sep` occurs |
| PyStr.SplitAfterFree | src/app/services/classification_service.py:106 | text free of `sep`, followed by `sep`, becomes the first piece and the rest is split on |
| PyStr.SplitSecond | src/app/services/classification_service.py:111 | a prefix free of `sep` (with nothing spanning the seam) leaves the second piece of the split unchanged |
| PyStr.SplitHeadFree | src/app/services/news_processing_service.py:86 | the first piece of a split never holds the separator |
| PyStr.SplitSecondFree | src/app/services/news_processing_service.py:86 | the second piece of a split never holds the separator |
| PyStr.SplitJoin | src/app/utils/file_utils.py:131 | splitting a `sep`-joined list of `sep`-free parts gives the parts back |
| PyStr.FirstWord | src/app/services/classification_service.py:113 | `split()[0]` raises exactly on all-whitespace text; otherwise it is a non-empty word without whitespace |
| PyStr.FirstWordAfterSpaces | src/app/services/classification_service.py:113 | the first word after leading whitespace is the word itself |
| PyStr.StripFirstWord | src/app/services/classification_service.py:111-113 | stripping a text before `split()[0]` never changes its first word, nor whether there is one |
| PyStr.Lower | src/app/services/classification_service.py:115 | the modelled `lower()` lower-cases each character on its own (ASCII letters and the Kelvin sign), so it keeps the length |
| PyInt.ParseInt | src/app/services/resource_allocation_service.py:118 | `int()` succeeds exactly on one or more ASCII digits, optionally after one `+` or `-`; the value is the decimal value of the digits, negated after `-` |
| PyInt.ParseIntOfIntToString | src/app/services/resource_allocation_service.py:118 | `int(str(n)) == n` for every integer (with no digit limit) |
| Gateway.AddUsageStep | src/app/services/classification_service.py:174-176 | folding one usage into the totals of a prefix gives the totals of the longer prefix |
| Gateway.KeySumAppend | src/app/services/classification_service.py:174-176 | per-key totals of two batches add up |
| Gateway.EmptyUsageAddsNothing | src/app/services/news_processing_service.py:139-141 | an empty usage dictionary leaves the totals unchanged |
| Gateway.NullCountsAsMissing | src/app/services/classification_service.py:176 | a key whose value is null adds the same as a missing key, that is 0 |
| Gateway.OtherKeysIgnored | src/app/services/classification_service.py:174-175 | keys outside the three totals never influence them |
| Gateway.Each | src/app/services/classification_service.py:168-170 | a batch succeeds exactly when every item's call does; otherwise its error is that of the first failing item |
| Gateway.EachFailsAt | src/app/services/classification_service.py:168-169 | the first item that raises decides the batch's error |
| Gateway.RunBatch | src/app/services/classification_service.py:164-178 | the loop returns the results in input order, the summed latency and the token totals, or stops with the first error |
| Classification.EffectiveTemperature | src/app/services/classification_service.py:81 | an override's temperature wins when it is set; otherwise the template default is used |
| Classification.EffectiveMaxTokens | src/app/services/classification_service.py:82 | an override's max_tokens wins when it is set; otherwise the template default is used |
| Classification.ClassifyRequest | src/app/services/classification_service.py:59-83 | the few-shot prompt carries the message; the provider comes from the override, else from the service; the temperature and max_tokens sent are each the override's when set, else the template's |
| Classification.IntentOfWord | src/app/services/classification_service.py:115-123 | the synonym table both ways: rescue/救援, supply/supplies/物资 and info/information/信息 map to their intents, and every other word maps to Other |
| Classification.LoweredFirstWord | src/app/services/classification_service.py:113-115 | the first-word normalisation raises IndexError exactly when the piece is all whitespace |
| Classification.ParseDistrict | src/app/services/classification_service.py:101-108 | the district is stripped, and is "None" when the reply has no District: label |
| Classification.ParseIntent | src/app/services/classification_service.py:110-123 | no Intent: label gives Other; the parse raises IndexError exactly when the labelled piece is empty after stripping |
| Classification.ParsePriority | src/app/services/classification_service.py:125-136 | no Priority: label gives Low; the parse raises IndexError exactly when the labelled piece is empty after stripping |
| Classification.LoweredFirstWordOf | src/app/services/classification_service.py:113-115 | the normalised piece is its first whitespace-delimited word lower-cased, or IndexError when there is none |
| Classification.PriorityOfReply | src/app/services/classification_service.py:125-136 | for every reply with a Priority: label, the priority is High exactly when the first word after the first label lower-cases to "high", and IndexError when no word follows |
| Classification.PriorityOfWord | src/app/services/classification_service.py:125-136 | a reply whose first Priority: is followed by optional whitespace, a word, then whitespace or the end, has priority High exactly when that word lower-cases to "high" |
| Classification.IntentOfReply | src/app/services/classification_service.py:110-123 | for every reply with an Intent: label, the intent is the table entry of the lower-cased first word between the first label and the next bar, and IndexError when there is no word |
| Classification.SplitHeadPrefix | src/app/services/classification_service.py:110 | the first piece of a split is a prefix of the text, and is empty when the text starts with the separator |
| Classification.IntentOfWordAfterLabel | src/app/services/classification_service.py:110-123 | a reply whose first Intent: is followed by optional whitespace, a bar-free word, then whitespace, a bar or the end, has the table entry of that lower-cased word as its intent |
| Classification.ParseLabels | src/app/services/classification_service.py:101-136 | the labels succeed exactly when the intent and priority parses both do, and are the three parses' results |
| Classification.ParseLabelsDefaults | src/app/services/classification_service.py:101-103 | a reply without any label parses to None / Other / Low |
| Classification.ClassifyMessage | src/app/services/classification_service.py:79-147 | a client error propagates; otherwise the result holds the parsed labels of the stripped reply and that reply as raw output, with the call's latency and usage |
| Classification.ClassifyBatch | src/app/services/classification_service.py:149-178 | all messages classified in order, each result carrying its own message; latency and the three token totals summed; otherwise the error of the first failing message, every earlier one having succeeded |
| Classification.IntentOfIntentName | src/app/services/classification_service.py:116-123 | each intent's own label lower-cases to a word that maps back to it |
| Classification.LowerPriorityName | src/app/services/classification_service.py:131-136 | only High lower-cases to "high" |
| Classification.DistrictOfLine | src/app/services/classification_service.py:105-108 | on a reply line in the prompted format the district parse returns the district |
| Classification.IntentPieceOfLine | src/app/services/classification_service.py:111 | on a reply line in the prompted format the Intent: piece is the intent word |
| Classification.IntentOfLine | src/app/services/classification_service.py:110-123 | on a reply line in the prompted format the intent parse maps the intent word |
| Classification.PriorityOfLine | src/app/services/classification_service.py:125-136 | on a reply line in the prompted format the priority parse is High exactly when the word lower-cases to "high" |
| Classification.ParseFormatLabels | src/app/services/classification_service.py:98-136 | round trip: formatting any labels as the few-shot examples do and parsing the line gives the labels back |
| ResourceAllocation.IncidentText | src/app/services/resource_allocation_service.py:61-69 | the incident text starts with the location and description lines |
| ResourceAllocation.PeopleLine | src/app/services/resource_allocation_service.py:64-65 | the People Affected line is present exactly when the head count is set and non-zero, and then shows the count |
| ResourceAllocation.TextLine | src/app/services/resource_allocation_service.py:66-69 | the Need Type or Age Information line is present exactly when the value is set and non-empty, and then shows the value |
| ResourceAllocation.FullIncidentText | src/app/services/resource_allocation_service.py:61-69 | with all three optional fields truthy the text is the location and description lines followed by the People Affected, Need Type and Age Information lines, in that order |
| ResourceAllocation.FalsyFieldsOmitted | src/app/services/resource_allocation_service.py:64-69 | 0 people affected, or an empty need or age, is omitted just as a missing value is |
| ResourceAllocation.BareIncidentText | src/app/services/resource_allocation_service.py:61-62 | an incident without optional fields is exactly its location and description lines |
| ResourceAllocation.Clamp | src/app/services/resource_allocation_service.py:120 | `max(0, min(10, n))` lies in 0..10, keeps values already in range, and sends those below to 0 and those above to 10 |
| ResourceAllocation.ExtractScore | src/app/services/resource_allocation_service.py:111-122 | the score is always in 0..10, and is 5 when there is no Score: label or its value is not an integer |
| ResourceAllocation.ExtractScoreOf | src/app/services/resource_allocation_service.py:115-120 | a reply whose first Score: is followed by an integer and a slash scores that integer, clamped |
| ResourceAllocation.ExtractAnswerFormat | src/app/services/resource_allocation_service.py:87 | a reply ending in the requested `Score: X/10` answer scores X clamped |
| ResourceAllocation.ScoreRequest | src/app/services/resource_allocation_service.py:55-96 | the CoT prompt carries the incident text; temperature 0.0 and the template's max_tokens are sent; the provider comes from the override, else from the service |
| ResourceAllocation.ScoreIncident | src/app/services/resource_allocation_service.py:110-130 | a client error propagates; otherwise the incident is kept with the extracted score, always a valid score, and the whole reply as reasoning |
| ResourceAllocation.ScoreIgnoresOverrides | src/app/services/resource_allocation_service.py:92-96 | an override's temperature and max_tokens change nothing |
| ResourceAllocation.ScoreBatch | src/app/services/resource_allocation_service.py:147-161 | incidents scored in order, with latency and token totals summed; otherwise the error of the first failing incident, every earlier one having succeeded |
| ResourceAllocation.DetectStrategy | src/app/services/resource_allocation_service.py:264-269 | closest-first exactly when the reasoning mentions Branch 2 or closest; furthest-first exactly when it does not but mentions Branch 3 or furthest; otherwise highest-priority-first |
| ResourceAllocation.DetectStrategyName | src/app/services/resource_allocation_service.py:265-269 | each strategy's own name is detected as that strategy |
| ResourceAllocation.InsertSorted | src/app/services/resource_allocation_service.py:272 | inserting behind all higher-or-equal scores keeps the order descending |
| ResourceAllocation.SortByScore | src/app/services/resource_allocation_service.py:272 | the sort is a permutation of its input and is descending by score |
| ResourceAllocation.SortStable | src/app/services/resource_allocation_service.py:272 | stability: incidents with equal scores keep their input order |
| ResourceAllocation.FirstStopHighest | src/app/services/resource_allocation_service.py:272-273 | the first incident after sorting has the highest score and comes from the input |
| ResourceAllocation.Locations | src/app/services/resource_allocation_service.py:273 | the route lists each incident's location, in order |
| ResourceAllocation.TotalScoreSorted | src/app/services/resource_allocation_service.py:276 | the score total is the same before and after sorting |
| ResourceAllocation.RouteRequestFor | src/app/services/resource_allocation_service.py:200-243 | the ToT prompt carries the start, the incidents and the travel times (or the built-in ones when none or empty); the provider comes from the override, else from the service; temperature 0.0 and the template's max_tokens are sent |
| ResourceAllocation.OptimizeRoute | src/app/services/resource_allocation_service.py:257-286 | the route is the start followed by the locations sorted by score; the strategy is detected from the reply, which is also the reasoning; there is no time estimate; the total is the score sum |
| ResourceAllocation.RouteIndependentOfReply | src/app/services/resource_allocation_service.py:260-276 | whatever the model replies, the route and the total are the same |
| TokenManagement.SliceTo | src/app/services/token_management_service.py:95 | `tokens[:n]` is a prefix of length min(n, len) for n ≥ 0 and max(len + n, 0) for n < 0 |
| TokenManagement.SliceToIdempotent | src/app/services/token_management_service.py:95 | cutting twice to the same non-negative bound cuts once |
| TokenManagement.SliceToNegativeShrinks | src/app/services/token_management_service.py:95 | with a negative bound a second cut drops more tokens |
| TokenManagement.Truncate | src/app/services/token_management_service.py:93-108 | the result ends with the marker after the decoded first `max_tokens` tokens; it counts the encoding as the original, recounts the result as processed, and reports their difference as saved |
| TokenManagement.TruncateKeepsBudget | src/app/services/token_management_service.py:94-99 | for a tokenizer whose count is its encoding length, exactly `max_tokens` tokens are kept, fewer than the original |
| TokenManagement.SummarizeTemperature | src/app/services/token_management_service.py:134 | an override's temperature is sent whenever an override exists, even unset; otherwise the template default, with an unset or 0.0 default sent as 0.0 |
| TokenManagement.SummarizeDropsDefault | src/app/services/token_management_service.py:134 | unlike classification, an override with no temperature sends none instead of the template default |
| TokenManagement.SummarizeRequest | src/app/services/token_management_service.py:122-136 | the summary prompt carries the message as its context and a budget of max_tokens − 50; max_tokens limits the reply |
| TokenManagement.SummarizeBudgetNegative | src/app/services/token_management_service.py:124 | the smallest valid budget (10) gives the summary prompt a context budget of −40 |
| TokenManagement.Summarize | src/app/services/token_management_service.py:119-148 | a client error propagates; otherwise the stripped reply is the processed message, with both counts and their difference |
| TokenManagement.CheckAndFilterSpam | src/app/services/token_management_service.py:50-83 | within budget the message is accepted unchanged; over budget truncate truncates, summarize summarizes, and any other strategy raises |
| TokenManagement.FilterResultConsistent | src/app/services/token_management_service.py:58-83 | every result's action matches its status, and saved = original − processed |
| TokenManagement.AcceptedIffWithinBudget | src/app/services/token_management_service.py:58-67 | the status is ACCEPTED exactly when the count is within budget |
| TokenManagement.WithinBudgetIgnoresStrategy | src/app/services/token_management_service.py:58-67 | within budget neither the strategy nor the model matters, and the message comes back unchanged |
| TokenManagement.TruncateIgnoresModel | src/app/services/token_management_service.py:70-73 | truncation never calls the model and never fails |
| TokenManagement.ValidRequestFailsOnlyInModel | src/app/services/token_management_service.py:75-83 | a request that passed schema validation never hits the unknown-strategy error; it fails only when the summarizing call does |
| NewsProcessing.ExtractRequest | src/app/services/news_processing_service.py:48-67 | the JSON-extraction prompt carries the news text; the provider comes from the override, else from the service |
| NewsProcessing.CleanJson | src/app/services/news_processing_service.py:82-92 | the cleaned text is always stripped; unfenced text is just stripped |
| NewsProcessing.UntaggedNoFence | src/app/services/news_processing_service.py:89-91 | a fence-free piece never ends in a fence, so the trailing-fence removal leaves it alone |
| NewsProcessing.TrailingFenceDead | src/app/services/news_processing_service.py:85-92 | in fenced text the trailing-fence branch can never fire: the result is the stripped, untagged text between the first two fences |
| NewsProcessing.FencedSecondPiece | src/app/services/news_processing_service.py:86 | the piece between two fences is the fence-free body |
| NewsProcessing.FencedPiece | src/app/services/news_processing_service.py:85-92 | fenced text cleans to its stripped, untagged body |
| NewsProcessing.FencedJson | src/app/services/news_processing_service.py:84-92 | a ```json … ``` reply cleans to the same text as its unfenced body |
| NewsProcessing.ExtractCrisisEvent | src/app/services/news_processing_service.py:60-101 | success holds exactly when there is an event and exactly when there is no error; a client or validation error becomes "Failed to extract event: …" with latency 0 and empty usage |
| NewsProcessing.ExtractIgnoresOverrides | src/app/services/news_processing_service.py:63-67 | an override's temperature and max_tokens change nothing |
| NewsProcessing.ExtractedEventValid | src/app/services/news_processing_service.py:81-96 | a successful extraction carries exactly the event the validator returned for the cleaned reply, which is valid when the validator is; a failed one carries no event |
| NewsProcessing.Extractions | src/app/services/news_processing_service.py:125-128 | each item is extracted in order |
| NewsProcessing.KeptAreSuccesses | src/app/services/news_processing_service.py:130-132 | the kept events are exactly as many as the successes |
| NewsProcessing.SuccessesFromExtractions | src/app/services/news_processing_service.py:130-131 | every kept event is the event of some item |
| NewsProcessing.BatchEventsValid | src/app/services/news_processing_service.py:125-132 | with a validator that only accepts valid events, every event a batch keeps is valid |
| NewsProcessing.FailedItemAddsNothing | src/app/services/news_processing_service.py:133-141 | a failed item adds no event, no latency and no tokens |
| NewsProcessing.SuccessRate | src/app/services/news_processing_service.py:143-144 | the rate times the batch size is the success count for a non-empty batch, and 0.0 for an empty one; it lies in 0.0..1.0 |
| NewsProcessing.TallyNews | src/app/services/news_processing_service.py:119-154 | the loop keeps the successful events in order, counts successes and failures, and sums latency and tokens |
| NewsProcessing.ProcessNewsBatch | src/app/services/news_processing_service.py:103-154 | events, counts (successful + failed = total, successful = number of events), latency, token totals, and the success rate successful / total (SuccessRate) |
| FileUtils.StripAll | src/app/utils/file_utils.py:54 | every line is stripped, in order |
| FileUtils.NonBlankAppend | src/app/utils/file_utils.py:53-56 | skipping blank lines distributes over concatenation |
| FileUtils.NonBlankMembers | src/app/utils/file_utils.py:55-56 | a line is kept exactly when it is an input line and non-empty |
| FileUtils.ReadLines | src/app/utils/file_utils.py:51-56 | the reading loop returns exactly the non-empty stripped lines, in order |
| FileUtils.ReadLinesItems | src/app/utils/file_utils.py:88-93 | every item read is non-empty and stripped, and every line that is not all whitespace is read |
| FileUtils.RunsShape | src/app/utils/file_utils.py:127-132 | no scenario is empty, and no scenario line is empty |
| FileUtils.RunsElements | src/app/utils/file_utils.py:127-128 | every scenario line is one of the stripped input lines |
| FileUtils.RunsAtBlank | src/app/utils/file_utils.py:129-132 | a blank line separates: the scenarios before and after it never merge |
| FileUtils.RunsFlatten | src/app/utils/file_utils.py:124-136 | the scenarios put end to end are exactly the non-blank lines, in order |
| FileUtils.ReadScenarios | src/app/utils/file_utils.py:121-136 | the reading loop returns each maximal run of non-blank stripped lines joined with "\n" |
| FileUtils.StripRawLine | src/app/utils/file_utils.py:125-126 | a file line stripped holds no line break |
| FileUtils.RunSplitsBack | src/app/utils/file_utils.py:131 | a scenario split on "\n" gives back its lines |
| FileUtils.ScenarioLines | src/app/utils/file_utils.py:121-136 | round trip: the scenarios split on "\n" are the runs, and together they are exactly the non-blank lines |
| FileUtils.SelectColumns | src/app/utils/file_utils.py:206-207 | a column is selected exactly when it is in the order and present, and nothing else is added |
| FileUtils.SelectKeepsOrder | src/app/utils/file_utils.py:235-236 | selected columns keep their relative order from the column order |
| FileUtils.SelectAllPresent | src/app/utils/file_utils.py:282 | when every column is present the selection is the whole order |
| FileUtils.CrisisColumns | src/app/utils/file_utils.py:277-280 | the crisis columns use flood_level_m exactly when flood_level_meters is absent and flood_level_m is present |
| FileUtils.OldFloodNameFallback | src/app/utils/file_utils.py:277-282 | the old flood-level name is exported exactly when the new one is absent and it is present; the new one exactly when present |
| FileUtils.Rename | src/app/utils/file_utils.py:294 | each column is renamed through the map when it has an entry and kept otherwise |
| FileUtils.CrisisHeadersDisplayed | src/app/utils/file_utils.py:286-294 | every exported crisis header is one of the five display names, no header appears twice (so the flood level shows at most once), and there are at most five |
| FileUtils.LongestCell | src/app/utils/file_utils.py:246-249 | the longest cell is at least every cell's length and is attained |
| FileUtils.ColumnWidth | src/app/utils/file_utils.py:302-307 | the width never exceeds the cap, is the cap or some length + 2, covers every length + 2 that fits, and is exactly the cap when the header or some cell + 2 exceeds it |
| FileUtils.ColumnWidthFits | src/app/utils/file_utils.py:246-251 | when everything fits under the cap the width is the longest of header and cells + 2 |

## Left out

- The language-model client, model router, prompt renderer and tokenizer are
  parameters. Their retries, back-off, overflow handling, model choice and
  prompt wording are not modelled; prompts are recorded by template and
  arguments only.
- `count`, `encode` and `decode` are independent functions. Nothing visible
  ties `count` to the length of `encode`, so TokenManagement.TruncateKeepsBudget
  assumes it. The tokenizer is chosen by provider alone, because the model is
  chosen from the provider by the router.
- Latency measured with `time.time()`, logging, and the
  `check_and_filter_spam` latency return value are not modelled. Call
  latencies are taken from the client's reply.
- The text of a Python exception (`str(e)`) is modelled as the error string
  that the client or validator returns.
- File access is not modelled: path resolution, existence checks,
  FileNotFoundError and `ensure_output_directory`. Reading takes the file's
  lines as a sequence of strings. Each line holds no line break except a final
  one (FileUtils.RawLine), as `for line in f` yields them.
- pandas and openpyxl are not modelled: the CSV and Excel writing, the
  column letters `chr(65 + idx)` and widths as spreadsheet properties. Column
  selection, renaming and width are modelled on column names and cell strings.
  A column's cells as `str` are its input strings.
- Floating-point numbers are Dafny `real`; rounding is not modelled.
- PyInt.ParseInt: does not accept underscores, non-ASCII digits or
  surrounding whitespace, all of which `int()` also accepts. The caller
  strips first, so only underscores and non-ASCII digits are missed. The
  model also has no digit limit. Since Python 3.11 (and the 3.10.7 and 3.9.14
  security releases), `int()` raises ValueError on more than 4300 digits, and
  `str()` does the same for such integers. On those interpreters a
  `Score:` of more than 4300 digits keeps the default 5. The model
  (ResourceAllocation.ExtractScoreOf) clamps it instead, and
  PyInt.ParseIntOfIntToString holds only below the limit. The source does not
  pin an interpreter version.
- PyStr.Lower: folds ASCII letters and the Kelvin sign only. No other
  character lower-cases into the ASCII words the parsers compare against,
  but other non-ASCII letters are left as they are. Python's lower-casing is
  not always one character for one: `'İ'.lower()` has two characters.
- Classification.ParseIntent: the contract states the default and the
  IndexError only. The value for every labelled reply is stated by
  Classification.IntentOfReply.
- Classification.ParsePriority: the contract states the default and the
  IndexError only. The value for every labelled reply is stated by
  Classification.PriorityOfReply.
- ResourceAllocation.IncidentText: the contract states the leading lines only.
  The optional lines are stated by ResourceAllocation.PeopleLine and
  ResourceAllocation.TextLine, each present exactly for a truthy value, and
  their order by ResourceAllocation.FullIncidentText.
- Classification.ParseDistrict: the contract states the stripping and the
  "None" default only. The value on a well-formed reply is stated by
  Classification.DistrictOfLine.
- ResourceAllocation.ExtractScore: the contract states the bounds and the
  defaults only. The value on a well-formed answer is stated by
  ResourceAllocation.ExtractScoreOf.
- FileUtils.LongestCell: a column always has its header, so the empty
  column, given 0, cannot arise.
- ResourceAllocation.OptimizeRoute: the travel-time matrix only shapes the
  prompt. An empty matrix is treated like a missing one, as `if travel_times:`
  does. The prompt's text is not modelled.
- config.py, run_api.py, schemas/temperature.py and the package `__init__`
  files are not part of this model: they hold settings, HTTP wiring and
  re-exports.
- Where the design and the code differ, the code is followed:
  - the summarize call sends an override's unset temperature as no
    temperature (TokenManagement.SummarizeDropsDefault), instead of falling
    back to the template default;
  - truncating twice appends the marker twice, so truncation is not
    idempotent on the final text (only the token cut is,
    TokenManagement.SliceToIdempotent);
  - the returned route is always the priority order, whatever strategy is
    detected (ResourceAllocation.RouteIndependentOfReply).
