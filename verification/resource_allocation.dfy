/** Chain-of-thought scoring and tree-of-thought route planning
    (src/app/services/resource_allocation_service.py): the incident text sent
    for scoring, the `Score: X/10` extraction with its default and clamp, the
    batch loop, the strategy keyword detector and the route built by a stable
    descending sort on scores. */
module ResourceAllocation {
  import opened Results
  import opened PyStr
  import opened PyInt
  import opened CommonSchema
  import opened ResourceSchema
  import opened Gateway

  // ---------------------------------------------------------------------------
  // Incident text

  /** The People Affected line: present exactly for a non-zero head count. */
  function PeopleLine(p: Option<int>): (l: string)
    ensures l == "" <==> p.None? || p.value == 0
    ensures l != "" ==> l == "\nPeople Affected: " + IntToString(p.value)
  {
    if p.Some? && p.value != 0 then "\nPeople Affected: " + IntToString(p.value) else ""
  }

  /** A named text line: present exactly for a non-empty value. */
  function TextLine(name: string, v: Option<string>): (l: string)
    ensures l == "" <==> v.None? || v.value == ""
    ensures l != "" ==> l == "\n" + name + ": " + v.value
  {
    if v.Some? && v.value != "" then "\n" + name + ": " + v.value else ""
  }

  /** The incident block of the scoring prompt: the location and description
      lines, then the People Affected, Need Type and Age Information lines in
      this order, each only for a truthy value; a zero head count and an empty
      need type or age description are left out like absent ones. */
  function IncidentText(incident: IncidentData): (t: string)
    ensures StartsWith(t, "Location: " + incident.location + "\nDescription: " + incident.description)
  {
    var base := "Location: " + incident.location + "\nDescription: " + incident.description;
    var t := base + PeopleLine(incident.peopleAffected) + TextLine("Need Type", incident.needType)
             + TextLine("Age Information", incident.ageInfo);
    assert t[..|base|] == base;
    t
  }

  /** An incident with all three optional fields truthy lists them all, in order. */
  lemma FullIncidentText(incident: IncidentData, p: int, n: string, a: string)
    requires incident.peopleAffected == Some(p) && p != 0
    requires incident.needType == Some(n) && n != ""
    requires incident.ageInfo == Some(a) && a != ""
    ensures IncidentText(incident)
         == "Location: " + incident.location + "\nDescription: " + incident.description
            + "\nPeople Affected: " + IntToString(p) + "\nNeed Type: " + n + "\nAge Information: " + a
  {
    var base := "Location: " + incident.location + "\nDescription: " + incident.description;
    var nl := TextLine("Need Type", incident.needType);
    var al := TextLine("Age Information", incident.ageInfo);
    assert "\n" + "Need Type" + ": " == "\nNeed Type: ";
    assert "\n" + "Age Information" + ": " == "\nAge Information: ";
    var x := base + "\nPeople Affected: " + IntToString(p);
    Assoc(base, "\nPeople Affected: ", IntToString(p));
    Assoc(x, "\nNeed Type: ", n);
    Assoc(x + "\nNeed Type: " + n, "\nAge Information: ", a);
  }

  lemma Assoc(a: string, b: string, c: string)
    ensures a + (b + c) == a + b + c
  {
  }

  /** Falsy optional fields are indistinguishable from absent ones. */
  lemma FalsyFieldsOmitted(incident: IncidentData)
    ensures IncidentText(incident.(peopleAffected := Some(0))) == IncidentText(incident.(peopleAffected := None))
    ensures IncidentText(incident.(needType := Some(""))) == IncidentText(incident.(needType := None))
    ensures IncidentText(incident.(ageInfo := Some(""))) == IncidentText(incident.(ageInfo := None))
  {
  }

  /** An incident with only the required fields is described by exactly its
      location and description lines. */
  lemma BareIncidentText(location: string, description: string)
    ensures IncidentText(NewIncident(location, description)) == "Location: " + location + "\nDescription: " + description
  {
    var base := "Location: " + location + "\nDescription: " + description;
    assert base + "" + "" + "" == base;
  }

  // ---------------------------------------------------------------------------
  // Score extraction

  /** `max(0, min(10, n))`. */
  function Clamp(n: int): (r: int)
    ensures 0 <= r <= 10
    ensures 0 <= n <= 10 ==> r == n
    ensures n < 0 ==> r == 0
    ensures n > 10 ==> r == 10
  {
    if n < 0 then 0 else if n > 10 then 10 else n
  }

  /** `text.split("Score:")[1].split("/")[0].strip()`. */
  function ScorePiece(text: string): string
    requires Contains(text, "Score:")
  {
    Strip(Split(Split(text, "Score:")[1], "/")[0])
  }

  /** The score read from a reasoning reply: 5 when there is no `Score:` or
      the piece after it is not an integer, the integer clamped otherwise. */
  function ExtractScore(text: string): (score: int)
    ensures 0 <= score <= 10
    ensures !Contains(text, "Score:") ==> score == 5
    ensures Contains(text, "Score:") && ParseInt(ScorePiece(text)).None? ==> score == 5
  {
    if Contains(text, "Score:") then
      match ParseInt(ScorePiece(text))
      case Some(n) => Clamp(n)
      case None => 5
    else 5
  }

  /** The piece after the first `Score:`, whatever follows it. */
  lemma ScoreTail(p: string, n: int, q: string)
    requires !Contains(p, "Score:")
    ensures Contains(p + "Score:" + (" " + (IntToString(n) + ("/" + q))), "Score:")
    ensures Split(p + "Score:" + (" " + (IntToString(n) + ("/" + q))), "Score:")[1]
            == " " + (IntToString(n) + ("/" + Split(q, "Score:")[0]))
  {
    var N := IntToString(n);
    var L := "Score:";
    var y := " " + (N + ("/" + q));
    assert "Score:"[1..] == "core:";
    SplitAfterFree(p, L, y);
    SplitSkip("/", q, L);
    SplitSkip(N, "/" + q, L);
    SplitSkip(" ", N + ("/" + q), L);
  }

  /** A decimal number between a space and a slash is read back whole. */
  lemma NumberBeforeSlash(n: int, z: string)
    ensures Strip(Split(" " + (IntToString(n) + ("/" + z)), "/")[0]) == IntToString(n)
  {
    var N := IntToString(n);
    SplitAtStart("/", z);
    SplitSkip(N, "/" + z, "/");
    SplitSkip(" ", N + ("/" + z), "/");
    assert " " + (N + "") == " " + N + "";
    StripSpacedWord(N, "");
  }

  /** A reply whose first `Score:` is followed by ` N/` scores `N`, clamped;
      anything after it, including later `Score:` lines, is never consulted. */
  lemma ExtractScoreOf(p: string, n: int, q: string)
    requires !Contains(p, "Score:")
    ensures ExtractScore(p + "Score:" + (" " + (IntToString(n) + ("/" + q)))) == Clamp(n)
  {
    ScoreTail(p, n, q);
    NumberBeforeSlash(n, Split(q, "Score:")[0]);
    ParseIntOfIntToString(n);
  }

  /** The answer format the prompt asks for, `Score: X/10`, at the start of a
      line after reasoning that never says `Score:`. */
  lemma ExtractAnswerFormat(reasoning: string, x: int, rest: string)
    requires !Contains(reasoning, "Score:")
    ensures ExtractScore(reasoning + "Score:" + (" " + (IntToString(x) + ("/" + ("10" + rest))))) == Clamp(x)
  {
    ExtractScoreOf(reasoning, x, "10" + rest);
  }

  // ---------------------------------------------------------------------------
  // Scoring calls

  /** The chain-of-thought call for one incident: deterministic temperature
      0.0 and the template's max_tokens. Only the override's provider is used. */
  function ScoreRequest(llm: Llm, serviceProvider: Provider, incident: IncidentData, config: Option<ProviderConfig>): (req: ChatRequest)
    ensures req.prompt == CotPrompt(IncidentText(incident))
    ensures req.provider == EffectiveProvider(config, serviceProvider)
    ensures req.temperature == Some(0.0) && req.maxTokens == llm.defaults(CotReasoningV1).maxTokens
  {
    ChatRequest(EffectiveProvider(config, serviceProvider), CotPrompt(IncidentText(incident)),
                Some(0.0), llm.defaults(CotReasoningV1).maxTokens)
  }

  /** score_incident_with_cot: the incident, the extracted score, and the raw
      reply as reasoning; a client error propagates. */
  function ScoreIncident(llm: Llm, serviceProvider: Provider, incident: IncidentData, config: Option<ProviderConfig>)
    : (r: Result<Call<ScoredIncident>, ServiceError>)
    ensures var reply := llm.chat(ScoreRequest(llm, serviceProvider, incident, config));
      && (reply.Failure? <==> r.Failure?)
      && (reply.Failure? ==> r.error == ProviderError(reply.error))
      && (reply.Success? ==>
            && r.value.value == ScoredIncident(incident, ExtractScore(reply.value.text), reply.value.text)
            && r.value.latencyMs == reply.value.latencyMs
            && r.value.usage == reply.value.usage)
    ensures r.Success? ==> ValidScoredIncident(r.value.value) && r.value.value.incident == incident
  {
    var reply := llm.chat(ScoreRequest(llm, serviceProvider, incident, config));
    if reply.Failure? then Failure(ProviderError(reply.error))
    else
      var text := reply.value.text;
      Success(Call(ScoredIncident(incident, ExtractScore(text), text), reply.value.latencyMs, reply.value.usage))
  }

  /** The override's temperature and max_tokens never reach the scoring call. */
  lemma ScoreIgnoresOverrides(llm: Llm, serviceProvider: Provider, incident: IncidentData, c: ProviderConfig,
                              temperature: Option<real>, maxTokens: Option<int>)
    ensures ScoreIncident(llm, serviceProvider, incident, Some(c))
         == ScoreIncident(llm, serviceProvider, incident, Some(c.(temperature := temperature, maxTokens := maxTokens)))
  {
  }

  function ScoreCall(llm: Llm, serviceProvider: Provider, config: Option<ProviderConfig>)
    : IncidentData -> Result<Call<ScoredIncident>, ServiceError>
  {
    inc => ScoreIncident(llm, serviceProvider, inc, config)
  }

  /** score_incidents_batch: one scored incident per input, in input order,
      every score in range, latencies summed and usage folded into the three
      totals; the first client error ends the batch. */
  method ScoreBatch(llm: Llm, serviceProvider: Provider, incidents: seq<IncidentData>, config: Option<ProviderConfig>)
    returns (r: Result<Batch<ScoredIncident>, ServiceError>)
    ensures r.Success? <==> forall i :: 0 <= i < |incidents| ==> ScoreIncident(llm, serviceProvider, incidents[i], config).Success?
    ensures r.Success? ==>
      && |r.value.values| == |incidents|
      && (forall i :: 0 <= i < |incidents| ==>
            && r.value.values[i].incident == incidents[i]
            && ValidScoredIncident(r.value.values[i])
            && r.value.values[i] == ScoreIncident(llm, serviceProvider, incidents[i], config).value.value)
      && r.value.totalTokens.Keys == UsageKeys
    ensures r.Success? ==>
      var calls := Each(ScoreCall(llm, serviceProvider, config), incidents).value;
      && r.value.totalLatencyMs == TotalLatency(calls)
      && r.value.totalTokens == TokenTotals(Usages(calls))
    ensures r.Failure? ==>
      exists i :: 0 <= i < |incidents| && ScoreIncident(llm, serviceProvider, incidents[i], config) == Failure(r.error)
        && forall j :: 0 <= j < i ==> ScoreIncident(llm, serviceProvider, incidents[j], config).Success?
  {
    r := RunBatch(ScoreCall(llm, serviceProvider, config), incidents);
  }

  // ---------------------------------------------------------------------------
  // Strategy detection

  /** The three strategies the tree-of-thought prompt explores. */
  datatype Strategy = HighestPriorityFirst | ClosestLocationFirst | FurthestLocationFirst

  function StrategyName(s: Strategy): string {
    match s
    case HighestPriorityFirst => "Highest priority first"
    case ClosestLocationFirst => "Closest location first"
    case FurthestLocationFirst => "Furthest location first"
  }

  predicate MentionsClosest(reasoning: string) {
    Contains(reasoning, "Branch 2") || Contains(Lower(reasoning), "closest")
  }

  predicate MentionsFurthest(reasoning: string) {
    Contains(reasoning, "Branch 3") || Contains(Lower(reasoning), "furthest")
  }

  /** The strategy label read from the reasoning; the closest-first keywords
      take precedence over the furthest-first ones. */
  function DetectStrategy(reasoning: string): (s: Strategy)
    ensures s == ClosestLocationFirst <==> MentionsClosest(reasoning)
    ensures s == FurthestLocationFirst <==> !MentionsClosest(reasoning) && MentionsFurthest(reasoning)
    ensures s == HighestPriorityFirst <==> !MentionsClosest(reasoning) && !MentionsFurthest(reasoning)
  {
    if MentionsClosest(reasoning) then ClosestLocationFirst
    else if MentionsFurthest(reasoning) then FurthestLocationFirst
    else HighestPriorityFirst
  }

  lemma LowerHighest()
    ensures Lower("Highest priority first") == "highest priority first"
  {
  }

  lemma LowerClosest()
    ensures Lower("Closest location first") == "closest location first"
  {
  }

  lemma LowerFurthest()
    ensures Lower("Furthest location first") == "furthest location first"
  {
  }

  lemma DetectHighestName()
    ensures DetectStrategy("Highest priority first") == HighestPriorityFirst
  {
    HighestNotClosest();
    HighestNotFurthest();
  }

  lemma HighestNotClosest()
    ensures !MentionsClosest("Highest priority first")
  {
    LowerHighest();
    NotContainsMissingChar("Highest priority first", "Branch 2", 'B');
    NotContainsMissingChar("highest priority first", "closest", 'c');
  }

  lemma HighestNotFurthest()
    ensures !MentionsFurthest("Highest priority first")
  {
    LowerHighest();
    NotContainsMissingChar("Highest priority first", "Branch 3", 'B');
    NotContainsMissingChar("highest priority first", "furthest", 'u');
  }

  lemma DetectClosestName()
    ensures DetectStrategy("Closest location first") == ClosestLocationFirst
  {
    LowerClosest();
    assert OccursAt("closest location first", "closest", 0);
  }

  lemma DetectFurthestName()
    ensures DetectStrategy("Furthest location first") == FurthestLocationFirst
  {
    LowerFurthest();
    NotContainsMissingChar("Furthest location first", "Branch 2", 'B');
    NoClosestInFurthest();
    assert OccursAt("furthest location first", "furthest", 0);
  }

  /** Reasoning that only names a strategy is read as that strategy. */
  lemma DetectStrategyName(s: Strategy)
    ensures DetectStrategy(StrategyName(s)) == s
  {
    match s
    case HighestPriorityFirst => DetectHighestName();
    case ClosestLocationFirst => DetectClosestName();
    case FurthestLocationFirst => DetectFurthestName();
  }

  /** "furthest location first" holds no "closest": its first word lacks a
      `c` and the rest lacks an `e`. */
  lemma NoClosestInFurthest()
    ensures !Contains("furthest location first", "closest")
  {
    NotContainsMissingChar("furthest ", "closest", 'c');
    NotContainsMissingChar("location first", "closest", 'e');
    AppendFree("furthest ", "location first", "closest");
    FurthestPieces();
  }

  lemma FurthestPieces()
    ensures "furthest " + "location first" == "furthest location first"
  {
  }

  // ---------------------------------------------------------------------------
  // Stable descending sort on scores

  predicate SortedByScore(s: seq<ScoredIncident>) {
    forall i, j :: 0 <= i < j < |s| ==> s[i].score >= s[j].score
  }

  /** The incidents with score `k`, in order. */
  function WithScore(s: seq<ScoredIncident>, k: int): seq<ScoredIncident> {
    if |s| == 0 then []
    else WithScore(s[..|s| - 1], k) + (if s[|s| - 1].score == k then [s[|s| - 1]] else [])
  }

  /** `x` placed after every incident whose score is at least its own. */
  function InsertByScore(x: ScoredIncident, s: seq<ScoredIncident>): (r: seq<ScoredIncident>)
    ensures |r| == |s| + 1
    ensures multiset(r) == multiset(s) + multiset{x}
    decreases |s|
  {
    if |s| == 0 then [x]
    else if s[0].score < x.score then [x] + s
    else
      assert s == [s[0]] + s[1..];
      [s[0]] + InsertByScore(x, s[1..])
  }

  lemma {:induction false} InsertSorted(x: ScoredIncident, s: seq<ScoredIncident>)
    requires SortedByScore(s)
    ensures SortedByScore(InsertByScore(x, s))
    decreases |s|
  {
    if |s| > 0 && s[0].score >= x.score {
      InsertSorted(x, s[1..]);
      var r := InsertByScore(x, s);
      assert r == [s[0]] + InsertByScore(x, s[1..]);
      forall j | 0 < j < |r|
        ensures r[0].score >= r[j].score
      {
        assert r[j] in multiset(InsertByScore(x, s[1..]));
        assert r[j] in multiset(s[1..]) + multiset{x};
        if r[j] != x {
          var k :| 0 <= k < |s[1..]| && s[1..][k] == r[j];
          assert s[k + 1] == r[j];
        }
      }
    }
  }

  /** WithScore over a concatenation. */
  lemma {:induction false} WithScoreAppend(a: seq<ScoredIncident>, b: seq<ScoredIncident>, k: int)
    ensures WithScore(a + b, k) == WithScore(a, k) + WithScore(b, k)
    decreases |b|
  {
    if |b| == 0 {
      assert a + b == a;
    } else {
      var b' := b[..|b| - 1];
      assert (a + b)[..|a + b| - 1] == a + b';
      assert (a + b)[|a + b| - 1] == b[|b| - 1];
      WithScoreAppend(a, b', k);
    }
  }

  /** No incident of score `k` in a list whose scores all lie below `k`. */
  lemma {:induction false} WithScoreBelow(s: seq<ScoredIncident>, k: int)
    requires forall i :: 0 <= i < |s| ==> s[i].score < k
    ensures WithScore(s, k) == []
    decreases |s|
  {
    if |s| > 0 {
      WithScoreBelow(s[..|s| - 1], k);
    }
  }

  lemma WithScoreSingle(x: ScoredIncident, k: int)
    ensures WithScore([x], k) == (if x.score == k then [x] else [])
  {
    assert [x][..0] == [];
  }

  /** Inserting in front of higher scores: `x` joins its score group last,
      since every score after it is lower. */
  lemma InsertFrontWithScore(x: ScoredIncident, s: seq<ScoredIncident>, k: int)
    requires SortedByScore(s) && |s| > 0 && s[0].score < x.score
    ensures WithScore([x] + s, k) == WithScore(s, k) + (if x.score == k then [x] else [])
  {
    WithScoreSingle(x, k);
    WithScoreAppend([x], s, k);
    if x.score == k {
      WithScoreBelow(s, k);
    }
  }

  /** Inserting behind the head: the head keeps its place before `x`. */
  lemma InsertBehindWithScore(x: ScoredIncident, s: seq<ScoredIncident>, k: int)
    requires |s| > 0
    requires WithScore(InsertByScore(x, s[1..]), k) == WithScore(s[1..], k) + (if x.score == k then [x] else [])
    ensures WithScore([s[0]] + InsertByScore(x, s[1..]), k) == WithScore(s, k) + (if x.score == k then [x] else [])
  {
    WithScoreAppend([s[0]], InsertByScore(x, s[1..]), k);
    WithScoreAppend([s[0]], s[1..], k);
    assert s == [s[0]] + s[1..];
  }

  /** Inserting `x` appends it to the incidents that share its score. */
  lemma {:induction false} InsertWithScore(x: ScoredIncident, s: seq<ScoredIncident>, k: int)
    requires SortedByScore(s)
    ensures WithScore(InsertByScore(x, s), k) == WithScore(s, k) + (if x.score == k then [x] else [])
    decreases |s|
  {
    if |s| == 0 {
      WithScoreSingle(x, k);
    } else if s[0].score < x.score {
      InsertFrontWithScore(x, s, k);
    } else {
      InsertWithScore(x, s[1..], k);
      InsertBehindWithScore(x, s, k);
    }
  }

  /** `sorted(s, key=score, reverse=True)`: Python's sort is stable, so equal
      scores keep their input order (SortStable). */
  function SortByScore(s: seq<ScoredIncident>): (r: seq<ScoredIncident>)
    ensures |r| == |s|
    ensures multiset(r) == multiset(s)
    ensures SortedByScore(r)
  {
    if |s| == 0 then []
    else
      var rest := SortByScore(s[..|s| - 1]);
      InsertSorted(s[|s| - 1], rest);
      MultisetLast(s);
      InsertByScore(s[|s| - 1], rest)
  }

  lemma MultisetLast<T>(s: seq<T>)
    requires |s| > 0
    ensures multiset(s) == multiset(s[..|s| - 1]) + multiset{s[|s| - 1]}
  {
    assert s == s[..|s| - 1] + [s[|s| - 1]];
  }

  /** Stability: the incidents of any one score appear in the sorted list in
      exactly their input order. */
  lemma {:induction false} SortStable(s: seq<ScoredIncident>, k: int)
    ensures WithScore(SortByScore(s), k) == WithScore(s, k)
    decreases |s|
  {
    if |s| > 0 {
      var init := s[..|s| - 1];
      SortStable(init, k);
      InsertWithScore(s[|s| - 1], SortByScore(init), k);
    }
  }

  // ---------------------------------------------------------------------------
  // Route planning

  function Locations(s: seq<ScoredIncident>): (ls: seq<string>)
    ensures |ls| == |s|
    ensures forall i :: 0 <= i < |s| ==> ls[i] == s[i].incident.location
  {
    seq(|s|, i requires 0 <= i < |s| => s[i].incident.location)
  }

  /** `sum(inc.score for inc in s)`. */
  function TotalScore(s: seq<ScoredIncident>): int {
    if |s| == 0 then 0 else s[0].score + TotalScore(s[1..])
  }

  lemma {:induction false} TotalScoreAppend(a: seq<ScoredIncident>, b: seq<ScoredIncident>)
    ensures TotalScore(a + b) == TotalScore(a) + TotalScore(b)
    decreases |a|
  {
    if |a| == 0 {
      assert a + b == b;
    } else {
      assert (a + b)[1..] == a[1..] + b;
      TotalScoreAppend(a[1..], b);
    }
  }

  lemma {:induction false} TotalScoreInsert(x: ScoredIncident, s: seq<ScoredIncident>)
    ensures TotalScore(InsertByScore(x, s)) == TotalScore(s) + x.score
    decreases |s|
  {
    if |s| > 0 && s[0].score >= x.score {
      TotalScoreInsert(x, s[1..]);
    }
  }

  lemma SortByScoreLast(s: seq<ScoredIncident>)
    requires |s| > 0
    ensures SortByScore(s) == InsertByScore(s[|s| - 1], SortByScore(s[..|s| - 1]))
  {
  }

  lemma TotalScoreLast(s: seq<ScoredIncident>)
    requires |s| > 0
    ensures TotalScore(s) == TotalScore(s[..|s| - 1]) + s[|s| - 1].score
  {
    TotalScoreAppend(s[..|s| - 1], [s[|s| - 1]]);
    assert s == s[..|s| - 1] + [s[|s| - 1]];
  }

  /** Sorting neither adds nor loses priority score. */
  lemma {:induction false} TotalScoreSorted(s: seq<ScoredIncident>)
    ensures TotalScore(SortByScore(s)) == TotalScore(s)
    decreases |s|
  {
    if |s| > 0 {
      var init := s[..|s| - 1];
      TotalScoreSorted(init);
      SortByScoreLast(s);
      TotalScoreInsert(s[|s| - 1], SortByScore(init));
      TotalScoreLast(s);
    }
  }

  /** A route plan as optimize_route_with_tot returns it, without the latency
      and usage carried by the surrounding Call. */
  datatype RoutePlan = RoutePlan(
    route: seq<string>,
    strategy: Strategy,
    reasoning: string,
    estimatedTimeMin: Option<int>,
    totalPriorityScore: int)

  /** The travel times the prompt is rendered from: an empty matrix is falsy
      and falls back to the built-in example, like an absent one. */
  function PromptTravelTimes(travelTimes: Option<map<string, map<string, int>>>): Option<map<string, map<string, int>>> {
    if travelTimes.Some? && |travelTimes.value| > 0 then travelTimes else None
  }

  function RouteRequestFor(llm: Llm, serviceProvider: Provider, scored: seq<ScoredIncident>, start: string,
                           travelTimes: Option<map<string, map<string, int>>>, config: Option<ProviderConfig>): (req: ChatRequest)
    ensures req.provider == EffectiveProvider(config, serviceProvider)
    ensures req.prompt == TotPrompt(start, scored, PromptTravelTimes(travelTimes))
    ensures req.temperature == Some(0.0) && req.maxTokens == llm.defaults(TotReasoningV1).maxTokens
  {
    ChatRequest(EffectiveProvider(config, serviceProvider), TotPrompt(start, scored, PromptTravelTimes(travelTimes)),
                Some(0.0), llm.defaults(TotReasoningV1).maxTokens)
  }

  /** optimize_route_with_tot: the starting location followed by every
      incident's location in stable descending score order, the strategy
      read from the reasoning, no time estimate and the total input score. */
  function OptimizeRoute(llm: Llm, serviceProvider: Provider, scored: seq<ScoredIncident>, start: string,
                         travelTimes: Option<map<string, map<string, int>>>, config: Option<ProviderConfig>)
    : (r: Result<Call<RoutePlan>, ServiceError>)
    ensures var reply := llm.chat(RouteRequestFor(llm, serviceProvider, scored, start, travelTimes, config));
      && (reply.Failure? <==> r.Failure?)
      && (reply.Failure? ==> r.error == ProviderError(reply.error))
      && (reply.Success? ==>
            && r.value.value.reasoning == reply.value.text
            && r.value.value.strategy == DetectStrategy(reply.value.text)
            && r.value.latencyMs == reply.value.latencyMs
            && r.value.usage == reply.value.usage)
    ensures r.Success? ==>
      var plan := r.value.value;
      && |plan.route| == |scored| + 1
      && plan.route[0] == start
      && plan.route[1..] == Locations(SortByScore(scored))
      && plan.estimatedTimeMin.None?
      && plan.totalPriorityScore == TotalScore(scored)
  {
    var reply := llm.chat(RouteRequestFor(llm, serviceProvider, scored, start, travelTimes, config));
    if reply.Failure? then Failure(ProviderError(reply.error))
    else
      var reasoning := reply.value.text;
      var route := [start] + Locations(SortByScore(scored));
      Success(Call(RoutePlan(route, DetectStrategy(reasoning), reasoning, None, TotalScore(scored)),
                   reply.value.latencyMs, reply.value.usage))
  }

  /** Whatever strategy the reasoning names, two successful plans for the same
      incidents visit the same locations in the same order, and the total
      score is that of the visited incidents. */
  lemma RouteIndependentOfReply(llm1: Llm, llm2: Llm, serviceProvider: Provider, scored: seq<ScoredIncident>, start: string,
                                travelTimes: Option<map<string, map<string, int>>>, config: Option<ProviderConfig>)
    requires OptimizeRoute(llm1, serviceProvider, scored, start, travelTimes, config).Success?
    requires OptimizeRoute(llm2, serviceProvider, scored, start, travelTimes, config).Success?
    ensures OptimizeRoute(llm1, serviceProvider, scored, start, travelTimes, config).value.value.route
         == OptimizeRoute(llm2, serviceProvider, scored, start, travelTimes, config).value.value.route
    ensures OptimizeRoute(llm1, serviceProvider, scored, start, travelTimes, config).value.value.totalPriorityScore
         == TotalScore(SortByScore(scored))
  {
    TotalScoreSorted(scored);
  }

  /** The first stop after the start is an incident with the highest score. */
  lemma FirstStopHighest(scored: seq<ScoredIncident>)
    requires |scored| > 0
    ensures forall i :: 0 <= i < |scored| ==> SortByScore(scored)[0].score >= scored[i].score
    ensures SortByScore(scored)[0] in multiset(scored)
  {
    var r := SortByScore(scored);
    assert r[0] in multiset(r);
    forall i | 0 <= i < |scored|
      ensures r[0].score >= scored[i].score
    {
      assert scored[i] in multiset(r);
      var j :| 0 <= j < |r| && r[j] == scored[i];
      if j > 0 {
        assert r[0].score >= r[j].score;
      }
    }
  }
}
