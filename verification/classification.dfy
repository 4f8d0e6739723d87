/** Few-shot message classification (src/app/services/classification_service.py):
    the generation-parameter fall-through, the `District | Intent | Priority`
    label parser with its intent synonym table, and the batch loop. */
module Classification {
  import opened Results
  import opened PyStr
  import opened CommonSchema
  import opened ClassificationSchema
  import opened Gateway

  /** The temperature sent to the client: the override's value when the
      override exists and sets it, otherwise the template default. */
  function EffectiveTemperature(config: Option<ProviderConfig>, spec: GenerationSpec): (t: Option<real>)
    ensures config.Some? && config.value.temperature.Some? ==> t == config.value.temperature
    ensures config.None? || config.value.temperature.None? ==> t == spec.temperature
  {
    var temperature := if config.Some? then config.value.temperature else None;
    if temperature.Some? then temperature else spec.temperature
  }

  /** The max_tokens sent to the client, chosen the same way and independently
      of the temperature. */
  function EffectiveMaxTokens(config: Option<ProviderConfig>, spec: GenerationSpec): (m: Option<int>)
    ensures config.Some? && config.value.maxTokens.Some? ==> m == config.value.maxTokens
    ensures config.None? || config.value.maxTokens.None? ==> m == spec.maxTokens
  {
    var maxTokens := if config.Some? then config.value.maxTokens else None;
    if maxTokens.Some? then maxTokens else spec.maxTokens
  }

  /** The few-shot chat call for `message`. */
  function ClassifyRequest(llm: Llm, serviceProvider: Provider, message: string, config: Option<ProviderConfig>): (req: ChatRequest)
    ensures req.prompt == FewShotPrompt(message)
    ensures req.provider == EffectiveProvider(config, serviceProvider)
    ensures req.temperature == EffectiveTemperature(config, llm.defaults(FewShotV1))
    ensures req.maxTokens == EffectiveMaxTokens(config, llm.defaults(FewShotV1))
  {
    var spec := llm.defaults(FewShotV1);
    ChatRequest(EffectiveProvider(config, serviceProvider), FewShotPrompt(message),
                EffectiveTemperature(config, spec), EffectiveMaxTokens(config, spec))
  }

  /** The intent synonym table, applied to the lower-cased first word. */
  function IntentOfWord(w: string): (i: Intent)
    ensures i == Rescue <==> w == "rescue" || w == "\U{6551}\U{63F4}"
    ensures i == Supply <==> w == "supply" || w == "supplies" || w == "\U{7269}\U{8D44}"
    ensures i == Info <==> w == "info" || w == "information" || w == "\U{4FE1}\U{606F}"
  {
    if w == "rescue" || w == "\U{6551}\U{63F4}" then Rescue
    else if w == "supply" || w == "supplies" || w == "\U{7269}\U{8D44}" then Supply
    else if w == "info" || w == "information" || w == "\U{4FE1}\U{606F}" then Info
    else Other
  }

  /** The three labels a reply is parsed into. */
  datatype Labels = Labels(district: string, intent: Intent, priority: Priority)

  /** `output.split("District:")[1].split("|")[0].strip().split("\n")[0].strip()` */
  function DistrictField(output: string): string
    requires Contains(output, "District:")
  {
    var raw := Strip(Split(Split(output, "District:")[1], "|")[0]);
    Strip(Split(raw, "\n")[0])
  }

  /** `output.split("Intent:")[1].split("|")[0].strip()` */
  function IntentPiece(output: string): string
    requires Contains(output, "Intent:")
  {
    Strip(Split(Split(output, "Intent:")[1], "|")[0])
  }

  /** `output.split("Priority:")[1].strip()`; not cut at `|`. */
  function PriorityPiece(output: string): string
    requires Contains(output, "Priority:")
  {
    Strip(Split(output, "Priority:")[1])
  }

  /** `piece.split()[0].split("\n")[0].strip().lower()`; IndexError when the
      piece holds no word. */
  function LoweredFirstWord(piece: string): (r: Result<string, ServiceError>)
    ensures r.Failure? <==> AllSpace(piece)
    ensures r.Failure? ==> r.error == IndexError
  {
    match FirstWord(piece)
    case None => Failure(IndexError)
    case Some(w) => Success(Lower(Strip(Split(w, "\n")[0])))
  }

  /** The district label: the field text, or "None" without a District: label. */
  function ParseDistrict(output: string): (d: string)
    ensures IsStripped(d)
    ensures !Contains(output, "District:") ==> d == "None"
  {
    if Contains(output, "District:") then DistrictField(output) else "None"
  }

  /** The intent label: Other without an Intent: label, IndexError when the
      label is followed by no word before the next bar. */
  function ParseIntent(output: string): (r: Result<Intent, ServiceError>)
    ensures !Contains(output, "Intent:") ==> r == Success(Other)
    ensures r.Failure? <==> Contains(output, "Intent:") && IntentPiece(output) == ""
    ensures r.Failure? ==> r.error == IndexError
  {
    if Contains(output, "Intent:") then
      var w :- LoweredFirstWord(IntentPiece(output));
      Success(IntentOfWord(w))
    else Success(Other)
  }

  /** The priority label: High exactly when the first word after Priority:
      lower-cases to "high"; IndexError when no word follows the label. */
  function ParsePriority(output: string): (r: Result<Priority, ServiceError>)
    ensures !Contains(output, "Priority:") ==> r == Success(Low)
    ensures r.Failure? <==> Contains(output, "Priority:") && PriorityPiece(output) == ""
    ensures r.Failure? ==> r.error == IndexError
  {
    if Contains(output, "Priority:") then
      var w :- LoweredFirstWord(PriorityPiece(output));
      Success(if w == "high" then High else Low)
    else Success(Low)
  }

  /** The label parser of classify_message, run on the stripped reply: a
      missing label takes its default, an empty Intent or Priority field
      raises IndexError. */
  function ParseLabels(output: string): (r: Result<Labels, ServiceError>)
    ensures r.Success? <==> ParseIntent(output).Success? && ParsePriority(output).Success?
    ensures r.Failure? ==> r.error == IndexError
    ensures r.Success? ==> r.value == Labels(ParseDistrict(output), ParseIntent(output).value, ParsePriority(output).value)
  {
    var intent :- ParseIntent(output);
    var priority :- ParsePriority(output);
    Success(Labels(ParseDistrict(output), intent, priority))
  }

  /** A reply without any label yields the defaults. */
  lemma ParseLabelsDefaults(output: string)
    requires !Contains(output, "District:") && !Contains(output, "Intent:") && !Contains(output, "Priority:")
    ensures ParseLabels(output) == Success(Labels("None", Other, Low))
  {
  }

  /** The normalisation of a piece is its first whitespace-delimited word,
      lower-cased: the newline cut and the strip never change a word. */
  lemma LoweredFirstWordOf(piece: string)
    ensures FirstWord(piece).None? ==> LoweredFirstWord(piece) == Failure(IndexError)
    ensures FirstWord(piece).Some? ==> LoweredFirstWord(piece) == Success(Lower(FirstWord(piece).value))
  {
    if FirstWord(piece).Some? {
      var w := FirstWord(piece).value;
      assert '\n' !in w by {
        assert forall i :: 0 <= i < |w| ==> !IsSpace(w[i]);
      }
      NotContainsMissingChar(w, "\n", '\n');
      SplitFree(w, "\n");
      StripIdentity(w);
    }
  }

  /** The priority label of any reply holding Priority:: High exactly when
      the first word after the first Priority: lower-cases to "high",
      IndexError when no word follows it. */
  lemma PriorityOfReply(output: string)
    requires Contains(output, "Priority:")
    ensures var after := Split(output, "Priority:")[1];
      && (FirstWord(after).None? ==> ParsePriority(output) == Failure(IndexError))
      && (FirstWord(after).Some? ==>
            ParsePriority(output) == Success(if Lower(FirstWord(after).value) == "high" then High else Low))
  {
    StripFirstWord(Split(output, "Priority:")[1]);
    LoweredFirstWordOf(PriorityPiece(output));
  }

  /** The same, for a reply whose Priority: label is followed by optional
      whitespace, a word `w`, and then the end or whitespace. */
  lemma PriorityOfWord(output: string, ws: string, w: string, rest: string)
    requires Contains(output, "Priority:")
    requires Split(output, "Priority:")[1] == ws + w + rest
    requires AllSpace(ws) && |w| > 0 && NoSpace(w) && (|rest| == 0 || IsSpace(rest[0]))
    ensures ParsePriority(output) == Success(if Lower(w) == "high" then High else Low)
  {
    FirstWordAfterSpaces(ws, w, rest);
    PriorityOfReply(output);
  }

  /** The intent label of any reply holding Intent:: the table entry of the
      lower-cased first word between the first Intent: and the next bar,
      IndexError when there is no word there. */
  lemma IntentOfReply(output: string)
    requires Contains(output, "Intent:")
    ensures var field := Split(Split(output, "Intent:")[1], "|")[0];
      && (FirstWord(field).None? ==> ParseIntent(output) == Failure(IndexError))
      && (FirstWord(field).Some? ==> ParseIntent(output) == Success(IntentOfWord(Lower(FirstWord(field).value))))
  {
    StripFirstWord(Split(Split(output, "Intent:")[1], "|")[0]);
    LoweredFirstWordOf(IntentPiece(output));
  }

  /** The first piece of `split` is a prefix of the text, and is empty when
      the text starts with the separator. */
  lemma SplitHeadPrefix(s: string, sep: string)
    requires |sep| > 0
    ensures var h := Split(s, sep)[0];
      |h| <= |s| && h == s[..|h|] && (StartsWith(s, sep) ==> h == "")
  {
    match Find(s, sep)
    case None =>
    case Some(i) =>
      SplitAt(s, sep, i);
      if StartsWith(s, sep) {
        assert OccursAt(s, sep, 0);
      }
  }

  /** The same, for a reply whose Intent: label is followed by optional
      whitespace, a bar-free word `w`, and then the end, whitespace or a bar:
      the words after the first one and everything past the bar are ignored. */
  lemma IntentOfWordAfterLabel(output: string, ws: string, w: string, rest: string)
    requires Contains(output, "Intent:")
    requires Split(output, "Intent:")[1] == ws + w + rest
    requires AllSpace(ws) && |w| > 0 && NoSpace(w) && '|' !in w
    requires |rest| == 0 || IsSpace(rest[0]) || rest[0] == '|'
    ensures ParseIntent(output) == Success(IntentOfWord(Lower(w)))
  {
    assert '|' !in ws + w by {
      assert forall i :: 0 <= i < |ws| ==> IsSpace(ws[i]);
    }
    SplitSkip(ws + w, rest, "|");
    var tail := Split(rest, "|")[0];
    SplitHeadPrefix(rest, "|");
    assert |rest| > 0 && rest[0] == '|' ==> StartsWith(rest, "|");
    assert |tail| > 0 ==> tail[0] == rest[0];
    FirstWordAfterSpaces(ws, w, tail);
    IntentOfReply(output);
  }

  /** classify_message: one few-shot call, then the label parser on the
      stripped reply. Errors raised by the client propagate, and so does the
      IndexError of an empty Intent or Priority field. */
  function ClassifyMessage(llm: Llm, serviceProvider: Provider, message: string, config: Option<ProviderConfig>)
    : (r: Result<Call<ClassificationResult>, ServiceError>)
    ensures var reply := llm.chat(ClassifyRequest(llm, serviceProvider, message, config));
      && (reply.Failure? ==> r == Failure(ProviderError(reply.error)))
      && (reply.Success? ==>
            && (r.Success? <==> ParseLabels(Strip(reply.value.text)).Success?)
            && (r.Failure? ==> r.error == IndexError))
    ensures r.Success? ==>
      var reply := llm.chat(ClassifyRequest(llm, serviceProvider, message, config)).value;
      var labels := ParseLabels(Strip(reply.text)).value;
      && r.value.value == ClassificationResult(message, labels.district, labels.intent, labels.priority, Strip(reply.text), None)
      && r.value.latencyMs == reply.latencyMs
      && r.value.usage == reply.usage
      && ValidClassificationResult(r.value.value)
  {
    var reply := llm.chat(ClassifyRequest(llm, serviceProvider, message, config));
    if reply.Failure? then Failure(ProviderError(reply.error))
    else
      var output := Strip(reply.value.text);
      var labels :- ParseLabels(output);
      Success(Call(ClassificationResult(message, labels.district, labels.intent, labels.priority, output, None),
                   reply.value.latencyMs, reply.value.usage))
  }

  function ClassifyCall(llm: Llm, serviceProvider: Provider, config: Option<ProviderConfig>)
    : string -> Result<Call<ClassificationResult>, ServiceError>
  {
    m => ClassifyMessage(llm, serviceProvider, m, config)
  }

  /** classify_batch: one result per message in input order, latencies summed,
      usage folded into the three token totals; the first error ends the batch. */
  method ClassifyBatch(llm: Llm, serviceProvider: Provider, messages: seq<string>, config: Option<ProviderConfig>)
    returns (r: Result<Batch<ClassificationResult>, ServiceError>)
    ensures r.Success? <==> forall i :: 0 <= i < |messages| ==> ClassifyMessage(llm, serviceProvider, messages[i], config).Success?
    ensures r.Success? ==>
      && |r.value.values| == |messages|
      && (forall i :: 0 <= i < |messages| ==>
            && r.value.values[i] == ClassifyMessage(llm, serviceProvider, messages[i], config).value.value
            && r.value.values[i].message == messages[i])
      && r.value.totalTokens.Keys == UsageKeys
    ensures r.Success? ==>
      var calls := Each(ClassifyCall(llm, serviceProvider, config), messages).value;
      && r.value.totalLatencyMs == TotalLatency(calls)
      && r.value.totalTokens == TokenTotals(Usages(calls))
    ensures r.Failure? ==>
      exists i :: 0 <= i < |messages| && ClassifyMessage(llm, serviceProvider, messages[i], config) == Failure(r.error)
        && forall j :: 0 <= j < i ==> ClassifyMessage(llm, serviceProvider, messages[j], config).Success?
  {
    r := RunBatch(ClassifyCall(llm, serviceProvider, config), messages);
  }

  /** The reply line the few-shot prompt asks for. */
  function FormatLabels(district: string, intent: Intent, priority: Priority): string {
    "District: " + district + " | Intent: " + IntentName(intent) + " | Priority: " + PriorityName(priority)
  }

  /** A district name the reply line can carry without disturbing the parser:
      no label-ending colon, no bar, no line break, no surrounding whitespace. */
  predicate PlainDistrict(d: string) {
    ':' !in d && '|' !in d && '\n' !in d && IsStripped(d)
  }

  /** A label value that survives the first-word normalisation: one word with
      no colon, bar or line break, and without the initial of the District:
      and Priority: labels. */
  predicate LabelWord(w: string) {
    |w| > 0 && NoSpace(w) && ':' !in w && '|' !in w && '\n' !in w && 'D' !in w && 'P' !in w
  }

  /** The reply line with arbitrary label texts, associated to the right so
      that the parser's splits can walk it piece by piece. */
  function Line(d: string, intent: string, priority: string): string {
    "District:" + (" " + (d + (" " + ("|" + (" " + IntentTail(intent, priority))))))
  }

  function IntentTail(intent: string, priority: string): string {
    "Intent:" + IntentValue(intent, priority)
  }

  function IntentValue(intent: string, priority: string): string {
    " " + (intent + (" " + ("|" + (" " + PriorityTail(priority)))))
  }

  function PriorityTail(priority: string): string {
    "Priority:" + (" " + priority)
  }

  lemma FormatLabelsLine(d: string, i: Intent, p: Priority)
    ensures FormatLabels(d, i, p) == Line(d, IntentName(i), PriorityName(p))
  {
  }

  lemma IntentNameWord(i: Intent)
    ensures LabelWord(IntentName(i))
  {
    match i
    case Rescue => assert LabelWord("Rescue");
    case Supply => assert LabelWord("Supply");
    case Info => assert LabelWord("Info");
    case Other => assert LabelWord("Other");
  }

  lemma PriorityNameWord(p: Priority)
    ensures LabelWord(PriorityName(p)) && 'I' !in PriorityName(p)
  {
  }

  /** The intent synonym table maps each intent's own name back to it. */
  lemma IntentOfIntentName(i: Intent)
    ensures IntentOfWord(Lower(IntentName(i))) == i
  {
    match i
    case Rescue => assert Lower("Rescue") == "rescue";
    case Supply => assert Lower("Supply") == "supply";
    case Info => assert Lower("Info") == "info";
    case Other => assert Lower("Other") == "other";
  }

  /** Only the High priority's name lower-cases to "high". */
  lemma LowerPriorityName(p: Priority)
    ensures Lower(PriorityName(p)) == "high" <==> p == High
  {
    match p
    case High => assert Lower("High") == "high";
    case Low => assert Lower("Low")[0] == 'l';
  }

  /** A whitespace-free word with no line break goes through the
      first-word-then-lower normalisation as its lower-cased self. */
  lemma LoweredWord(w: string)
    requires |w| > 0 && NoSpace(w) && '\n' !in w
    ensures LoweredFirstWord(w) == Success(Lower(w))
  {
    FirstWordAfterSpaces("", w, "");
    assert "" + w + "" == w;
    NotContainsMissingChar(w, "\n", '\n');
    SplitFree(w, "\n");
    StripIdentity(w);
  }

  /** A text without a colon holds none of the three labels. */
  lemma ColonFree(s: string)
    requires ':' !in s
    ensures !Contains(s, "District:") && !Contains(s, "Intent:") && !Contains(s, "Priority:")
  {
    NotContainsMissingChar(s, "District:", ':');
    NotContainsMissingChar(s, "Intent:", ':');
    NotContainsMissingChar(s, "Priority:", ':');
  }

  /** The literal pieces of a reply line that hold no label. */
  lemma LiteralsLabelFree()
    ensures !Contains("District:", "Intent:") && !Contains("District:", "Priority:") && !Contains("Intent:", "Priority:")
  {
    NotContainsMissingChar("District:", "Intent:", 'I');
    NotContainsMissingChar("District:", "Priority:", 'P');
    NotContainsMissingChar("Intent:", "Priority:", 'P');
  }

  /** Nothing after the District: label holds that label again. */
  lemma DistrictValueFree(d: string, I: string, P: string)
    requires PlainDistrict(d) && LabelWord(I) && LabelWord(P)
    ensures !Contains(" " + (d + (" " + ("|" + (" " + IntentTail(I, P))))), "District:")
  {
    var L := "District:";
    ColonFree(d);
    NotContainsMissingChar(" ", L, 'D');
    NotContainsMissingChar("|", L, 'D');
    NotContainsMissingChar(I, L, 'D');
    NotContainsMissingChar(P, L, 'D');
    NotContainsMissingChar("Intent:", L, 'D');
    NotContainsMissingChar("Priority:", L, 'D');
    var t := " " + P;
    AppendFree(" ", P, L);
    AppendFree("Priority:", t, L);
    t := "Priority:" + t;
    AppendFree(" ", t, L);
    t := " " + t;
    AppendFree("|", t, L);
    t := "|" + t;
    AppendFree(" ", t, L);
    t := " " + t;
    AppendFree(I, t, L);
    t := I + t;
    AppendFree(" ", t, L);
    t := " " + t;
    AppendFree("Intent:", t, L);
    t := "Intent:" + t;
    AppendFree(" ", t, L);
    t := " " + t;
    AppendFree("|", t, L);
    t := "|" + t;
    AppendFree(" ", t, L);
    t := " " + t;
    AppendFree(d, t, L);
    t := d + t;
    AppendFree(" ", t, L);
  }

  /** The bar after a label value ends the piece the parser keeps. */
  lemma BeforeBar(v: string, rest: string)
    requires '|' !in v
    ensures Split(" " + (v + (" " + ("|" + rest))), "|")[0] == " " + v + " "
  {
    SplitAtStart("|", rest);
    SplitSkip(" ", "|" + rest, "|");
    SplitSkip(v, " " + ("|" + rest), "|");
    SplitSkip(" ", v + (" " + ("|" + rest)), "|");
    assert " " + (v + (" " + "")) == " " + v + " ";
  }

  /** The text after the District: label of a reply line, up to the end. */
  lemma DistrictSplitOfLine(d: string, I: string, P: string)
    requires PlainDistrict(d) && LabelWord(I) && LabelWord(P)
    ensures Contains(Line(d, I, P), "District:")
    ensures Split(Line(d, I, P), "District:")[1] == " " + (d + (" " + ("|" + (" " + IntentTail(I, P)))))
  {
    var Y := " " + (d + (" " + ("|" + (" " + IntentTail(I, P)))));
    DistrictValueFree(d, I, P);
    SplitAtStart("District:", Y);
    SplitFree(Y, "District:");
  }

  /** A plain district survives the strip, newline cut and strip of the parser. */
  lemma PlainDistrictField(d: string)
    requires PlainDistrict(d)
    ensures Strip(Split(Strip(" " + d + " "), "\n")[0]) == d
  {
    StripSurrounded(" ", d, " ");
    StripIdentity(d);
    NotContainsMissingChar(d, "\n", '\n');
    SplitFree(d, "\n");
  }

  /** The District: field of a reply line reads back the district. */
  lemma DistrictOfLine(d: string, I: string, P: string)
    requires PlainDistrict(d) && LabelWord(I) && LabelWord(P)
    ensures ParseDistrict(Line(d, I, P)) == d
  {
    DistrictSplitOfLine(d, I, P);
    BeforeBar(d, " " + IntentTail(I, P));
    PlainDistrictField(d);
  }

  /** Nothing after the Intent: label holds that label again. */
  lemma IntentValueFree(I: string, P: string)
    requires LabelWord(I) && LabelWord(P) && 'I' !in P
    ensures !Contains(IntentValue(I, P), "Intent:")
  {
    var L := "Intent:";
    ColonFree(I);
    NotContainsMissingChar(" ", L, 'I');
    NotContainsMissingChar("|", L, 'I');
    NotContainsMissingChar(P, L, 'I');
    NotContainsMissingChar("Priority:", L, 'I');
    var t := " " + P;
    AppendFree(" ", P, L);
    AppendFree("Priority:", t, L);
    t := "Priority:" + t;
    AppendFree(" ", t, L);
    t := " " + t;
    AppendFree("|", t, L);
    t := "|" + t;
    AppendFree(" ", t, L);
    t := " " + t;
    AppendFree(I, t, L);
    t := I + t;
    AppendFree(" ", t, L);
  }

  /** The text before the Intent: label of a reply line holds no such label. */
  lemma IntentSplitOfLine(d: string, I: string, P: string)
    requires PlainDistrict(d)
    ensures Contains(Line(d, I, P), "Intent:")
    ensures |Split(Line(d, I, P), "Intent:")| >= 2
    ensures Split(Line(d, I, P), "Intent:")[1] == Split(IntentValue(I, P), "Intent:")[0]
  {
    var L := "Intent:";
    IntentSplitOfDistrictValue(d, I, P);
    LiteralsLabelFree();
    SplitSecond("District:", " " + (d + (" " + ("|" + (" " + IntentTail(I, P))))), L);
  }

  lemma IntentSplitOfDistrictValue(d: string, I: string, P: string)
    requires PlainDistrict(d)
    ensures var v := " " + (d + (" " + ("|" + (" " + IntentTail(I, P)))));
      |Split(v, "Intent:")| >= 2 && Split(v, "Intent:")[1] == Split(IntentValue(I, P), "Intent:")[0]
  {
    var L := "Intent:";
    ColonFree(d);
    NotContainsMissingChar(" ", L, 'I');
    NotContainsMissingChar("|", L, 'I');
    var t := IntentTail(I, P);
    SplitAtStart(L, IntentValue(I, P));
    SplitSecond(" ", t, L);
    t := " " + t;
    SplitSecond("|", t, L);
    t := "|" + t;
    SplitSecond(" ", t, L);
    t := " " + t;
    SplitSecond(d, t, L);
    t := d + t;
    SplitSecond(" ", t, L);
  }

  /** The Intent: field of a reply line is the intent word. */
  lemma IntentPieceOfLine(d: string, I: string, P: string)
    requires PlainDistrict(d) && LabelWord(I) && LabelWord(P) && 'I' !in P
    ensures Contains(Line(d, I, P), "Intent:")
    ensures IntentPiece(Line(d, I, P)) == I
  {
    StripSpacedWord(I, " ");
    IntentSplitOfLine(d, I, P);
    IntentValueFree(I, P);
    SplitFree(IntentValue(I, P), "Intent:");
    BeforeBar(I, " " + PriorityTail(P));
  }

  /** The first occurrence of Priority: in the intent part of a reply line. */
  lemma PrioritySplitOfIntentTail(I: string, P: string)
    requires LabelWord(I) && LabelWord(P)
    ensures |Split(IntentTail(I, P), "Priority:")| >= 2
    ensures Split(IntentTail(I, P), "Priority:")[1] == " " + P
  {
    var L := "Priority:";
    LiteralsLabelFree();
    ColonFree(I);
    ColonFree(P);
    NotContainsMissingChar(" ", L, 'P');
    NotContainsMissingChar("|", L, 'P');
    AppendFree(" ", P, L);
    SplitFree(" " + P, L);
    var t := PriorityTail(P);
    SplitAtStart(L, " " + P);
    SplitSecond(" ", t, L);
    t := " " + t;
    SplitSecond("|", t, L);
    t := "|" + t;
    SplitSecond(" ", t, L);
    t := " " + t;
    SplitSecond(I, t, L);
    t := I + t;
    SplitSecond(" ", t, L);
    t := " " + t;
    SplitSecond("Intent:", t, L);
  }

  /** The first occurrence of Priority: in a reply line. */
  lemma PrioritySplitOfLine(d: string, I: string, P: string)
    requires PlainDistrict(d) && LabelWord(I) && LabelWord(P)
    ensures |Split(Line(d, I, P), "Priority:")| >= 2
    ensures Split(Line(d, I, P), "Priority:")[1] == " " + P
  {
    var L := "Priority:";
    PrioritySplitOfDistrictValue(d, I, P);
    LiteralsLabelFree();
    SplitSecond("District:", " " + (d + (" " + ("|" + (" " + IntentTail(I, P))))), L);
  }

  lemma PrioritySplitOfDistrictValue(d: string, I: string, P: string)
    requires PlainDistrict(d) && LabelWord(I) && LabelWord(P)
    ensures var v := " " + (d + (" " + ("|" + (" " + IntentTail(I, P)))));
      |Split(v, "Priority:")| >= 2 && Split(v, "Priority:")[1] == " " + P
  {
    var L := "Priority:";
    var t := " " + ("|" + (" " + IntentTail(I, P)));
    assert t[0] == ' ' && NoStraddle(d, t, L);
    PrioritySplitAfterBar(I, P);
    NotContainsMissingChar(d, L, ':');
    NotContainsMissingChar(" ", L, 'P');
    SplitSecond(d, t, L);
    t := d + t;
    SplitSecond(" ", t, L);
  }

  lemma PrioritySplitAfterBar(I: string, P: string)
    requires LabelWord(I) && LabelWord(P)
    ensures var v := " " + ("|" + (" " + IntentTail(I, P)));
      |Split(v, "Priority:")| >= 2 && Split(v, "Priority:")[1] == " " + P
  {
    var L := "Priority:";
    PrioritySplitOfIntentTail(I, P);
    NotContainsMissingChar(" ", L, 'P');
    NotContainsMissingChar("|", L, 'P');
    var t := IntentTail(I, P);
    SplitSecond(" ", t, L);
    t := " " + t;
    SplitSecond("|", t, L);
    t := "|" + t;
    SplitSecond(" ", t, L);
  }

  /** The intent label of any reply whose Intent: field is one word. */
  lemma IntentOfPiece(s: string, I: string)
    requires Contains(s, "Intent:") && IntentPiece(s) == I
    requires |I| > 0 && NoSpace(I) && '\n' !in I
    ensures ParseIntent(s) == Success(IntentOfWord(Lower(I)))
  {
    LoweredWord(I);
  }

  /** The intent label read from a reply line is the table entry of its word. */
  lemma IntentOfLine(d: string, I: string, P: string)
    requires PlainDistrict(d) && LabelWord(I) && LabelWord(P) && 'I' !in P
    ensures ParseIntent(Line(d, I, P)) == Success(IntentOfWord(Lower(I)))
  {
    IntentPieceOfLine(d, I, P);
    IntentOfPiece(Line(d, I, P), I);
  }

  /** The priority label read from a reply line is High exactly for a word
      that lower-cases to "high". */
  lemma PriorityOfLine(d: string, I: string, P: string)
    requires PlainDistrict(d) && LabelWord(I) && LabelWord(P)
    ensures ParsePriority(Line(d, I, P)) == Success(if Lower(P) == "high" then High else Low)
  {
    PrioritySplitOfLine(d, I, P);
    assert " " + P + "" == " " + P;
    StripSpacedWord(P, "");
    LoweredWord(P);
  }

  /** The parser reads back exactly the labels of a well-formed reply line,
      whatever whitespace surrounds it. */
  lemma ParseFormatLabels(d: string, i: Intent, p: Priority)
    requires PlainDistrict(d)
    ensures ParseLabels(Strip(FormatLabels(d, i, p))) == Success(Labels(d, i, p))
  {
    var I := IntentName(i);
    var P := PriorityName(p);
    IntentNameWord(i);
    PriorityNameWord(p);
    FormatLabelsLine(d, i, p);
    var s := Line(d, I, P);
    assert s[0] == 'D';
    assert s[|s| - 1] == P[|P| - 1];
    StripIdentity(s);
    DistrictOfLine(d, I, P);
    IntentOfLine(d, I, P);
    IntentOfIntentName(i);
    PriorityOfLine(d, I, P);
    LowerPriorityName(p);
  }
}
