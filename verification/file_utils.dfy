/** The pure parts of the file helpers (src/app/utils/file_utils.py): the
    line filtering of the message, news and incident readers, the grouping of
    scenarios into blank-line separated blocks, and the column selection,
    renaming and width arithmetic of the exports. A file is given as the raw
    lines Python's text-mode iteration yields. */
module FileUtils {
  import opened PyStr

  /** A raw line as text-mode iteration yields it: a newline, if any, only
      at its end. */
  predicate RawLine(s: string) {
    forall j :: 0 <= j < |s| - 1 ==> s[j] != '\n'
  }

  /** Every line stripped, as `line.strip()` does at the top of each loop. */
  function StripAll(lines: seq<string>): (ss: seq<string>)
    ensures |ss| == |lines|
    ensures forall i :: 0 <= i < |lines| ==> ss[i] == Strip(lines[i])
  {
    seq(|lines|, i requires 0 <= i < |lines| => Strip(lines[i]))
  }

  /** The non-empty texts of `ss`, in order. */
  function NonBlank(ss: seq<string>): seq<string> {
    if |ss| == 0 then []
    else NonBlank(ss[..|ss| - 1]) + (if |ss[|ss| - 1]| > 0 then [ss[|ss| - 1]] else [])
  }

  lemma {:induction false} NonBlankAppend(a: seq<string>, b: seq<string>)
    ensures NonBlank(a + b) == NonBlank(a) + NonBlank(b)
    decreases |b|
  {
    if |b| == 0 {
      assert a + b == a;
    } else {
      var b' := b[..|b| - 1];
      assert (a + b)[..|a + b| - 1] == a + b';
      NonBlankAppend(a, b');
    }
  }

  /** `NonBlank` keeps exactly the non-empty texts: each kept text is one of
      the inputs and non-empty, and each non-empty input is kept. */
  lemma {:induction false} NonBlankMembers(ss: seq<string>)
    ensures forall x :: x in NonBlank(ss) <==> x in ss && |x| > 0
    decreases |ss|
  {
    if |ss| > 0 {
      var init := ss[..|ss| - 1];
      NonBlankMembers(init);
      assert ss == init + [ss[|ss| - 1]];
    }
  }

  /** Texts already all non-empty are kept as they are. */
  lemma {:induction false} NonBlankOfFilled(ss: seq<string>)
    requires forall i :: 0 <= i < |ss| ==> |ss[i]| > 0
    ensures NonBlank(ss) == ss
    decreases |ss|
  {
    if |ss| > 0 {
      NonBlankOfFilled(ss[..|ss| - 1]);
      assert ss[..|ss| - 1] + [ss[|ss| - 1]] == ss;
    }
  }

  lemma NonBlankStep(ss: seq<string>, i: nat)
    requires i < |ss|
    ensures NonBlank(ss[..i + 1]) == NonBlank(ss[..i]) + (if |ss[i]| > 0 then [ss[i]] else [])
  {
    assert ss[..i + 1][..i] == ss[..i];
  }

  /** The loop shared by read_messages_from_file, read_news_from_file and
      read_incidents_from_file: each line stripped, blank lines skipped,
      order kept. */
  method ReadLines(lines: seq<string>) returns (items: seq<string>)
    ensures items == NonBlank(StripAll(lines))
  {
    ghost var ss := StripAll(lines);
    items := [];
    var i := 0;
    assert ss[..0] == [];
    while i < |lines|
      invariant 0 <= i <= |lines|
      invariant items == NonBlank(ss[..i])
    {
      var line := Strip(lines[i]);
      assert line == ss[i];
      NonBlankStep(ss, i);
      if |line| > 0 {
        items := items + [line];
      }
      i := i + 1;
    }
    assert ss[..|lines|] == ss;
  }

  /** Every line a reader returns is non-empty and stripped, and every
      non-blank line is returned. */
  lemma ReadLinesItems(lines: seq<string>)
    ensures forall x :: x in NonBlank(StripAll(lines)) ==> |x| > 0 && IsStripped(x)
    ensures forall i :: 0 <= i < |lines| && !AllSpace(lines[i]) ==> Strip(lines[i]) in NonBlank(StripAll(lines))
  {
    var ss := StripAll(lines);
    NonBlankMembers(ss);
    forall x | x in ss
      ensures IsStripped(x)
    {
      var k :| 0 <= k < |ss| && ss[k] == x;
    }
    forall i | 0 <= i < |lines| && !AllSpace(lines[i])
      ensures Strip(lines[i]) in NonBlank(ss)
    {
      assert ss[i] == Strip(lines[i]) && ss[i] in ss;
    }
  }

  /** How many texts at the front of `ss` are non-empty. */
  function LeadLength(ss: seq<string>): (k: nat)
    ensures k <= |ss|
  {
    if |ss| == 0 || |ss[0]| == 0 then 0 else 1 + LeadLength(ss[1..])
  }

  /** The texts before `LeadLength` are all non-empty. */
  lemma {:induction false} LeadFilled(ss: seq<string>)
    ensures forall i :: 0 <= i < LeadLength(ss) ==> |ss[i]| > 0
    decreases |ss|
  {
    if |ss| > 0 && |ss[0]| > 0 {
      LeadFilled(ss[1..]);
      forall i | 0 < i < LeadLength(ss)
        ensures |ss[i]| > 0
      {
        assert ss[i] == ss[1..][i - 1];
      }
    }
  }

  /** The maximal runs of non-empty texts, in order: skip empty texts, take
      the longest non-empty stretch, repeat. */
  function Runs(ss: seq<string>): seq<seq<string>>
    decreases |ss|
  {
    if |ss| == 0 then []
    else if |ss[0]| == 0 then Runs(ss[1..])
    else
      var k := LeadLength(ss);
      [ss[..k]] + Runs(ss[k..])
  }

  /** No run is empty and no run holds a blank text. */
  lemma {:induction false} RunsShape(ss: seq<string>)
    ensures forall i :: 0 <= i < |Runs(ss)| ==> |Runs(ss)[i]| > 0
    ensures forall i, j :: 0 <= i < |Runs(ss)| && 0 <= j < |Runs(ss)[i]| ==> |Runs(ss)[i][j]| > 0
    decreases |ss|
  {
    if |ss| > 0 {
      if |ss[0]| == 0 {
        RunsShape(ss[1..]);
      } else {
        var k := LeadLength(ss);
        LeadFilled(ss);
        RunsShape(ss[k..]);
        assert Runs(ss) == [ss[..k]] + Runs(ss[k..]);
      }
    }
  }

  /** Every text of a run is one of the given texts. */
  lemma {:induction false} RunsElements(ss: seq<string>)
    ensures forall i, j :: 0 <= i < |Runs(ss)| && 0 <= j < |Runs(ss)[i]| ==> Runs(ss)[i][j] in ss
    decreases |ss|
  {
    if |ss| > 0 {
      if |ss[0]| == 0 {
        RunsElements(ss[1..]);
        assert forall x :: x in ss[1..] ==> x in ss;
      } else {
        var k := LeadLength(ss);
        RunsElements(ss[k..]);
        assert forall x :: x in ss[k..] ==> x in ss;
        assert forall x :: x in ss[..k] ==> x in ss;
        assert Runs(ss) == [ss[..k]] + Runs(ss[k..]);
      }
    }
  }

  /** A non-empty stretch of non-empty texts is a single run. */
  lemma RunOfFilled(ss: seq<string>)
    requires |ss| > 0 && forall i :: 0 <= i < |ss| ==> |ss[i]| > 0
    ensures Runs(ss) == [ss]
  {
    LeadLengthFilled(ss);
    assert ss[..|ss|] == ss;
    assert ss[|ss|..] == [];
  }

  lemma {:induction false} LeadLengthFilled(ss: seq<string>)
    requires forall i :: 0 <= i < |ss| ==> |ss[i]| > 0
    ensures LeadLength(ss) == |ss|
    decreases |ss|
  {
    if |ss| > 0 {
      LeadLengthFilled(ss[1..]);
    }
  }

  lemma {:induction false} LeadLengthBlank(a: seq<string>, b: seq<string>)
    ensures LeadLength(a + [""] + b) == LeadLength(a)
    decreases |a|
  {
    if |a| > 0 && |a[0]| > 0 {
      assert (a + [""] + b)[1..] == a[1..] + [""] + b;
      LeadLengthBlank(a[1..], b);
    }
  }

  /** A blank line separates: the runs on either side never merge. */
  lemma {:induction false} RunsAtBlank(a: seq<string>, b: seq<string>)
    ensures Runs(a + [""] + b) == Runs(a) + Runs(b)
    decreases |a|
  {
    if |a| == 0 {
      assert (a + [""] + b)[1..] == b;
    } else if |a[0]| == 0 {
      BlankFirstJoined(a, b);
      RunsAtBlank(a[1..], b);
    } else {
      FilledFirstJoined(a, b);
      RunsAtBlank(a[LeadLength(a)..], b);
    }
  }

  lemma BlankFirstJoined(a: seq<string>, b: seq<string>)
    requires |a| > 0 && |a[0]| == 0
    ensures Runs(a + [""] + b) == Runs(a[1..] + [""] + b)
    ensures Runs(a) == Runs(a[1..])
  {
    assert (a + [""] + b)[1..] == a[1..] + [""] + b;
  }

  lemma FilledFirstJoined(a: seq<string>, b: seq<string>)
    requires |a| > 0 && |a[0]| > 0
    ensures var k := LeadLength(a);
      && 0 < k
      && Runs(a + [""] + b) == [a[..k]] + Runs(a[k..] + [""] + b)
      && Runs(a) == [a[..k]] + Runs(a[k..])
  {
    var t := [""] + b;
    var s := a + t;
    assert a + [""] + b == s;
    var k := LeadLength(a);
    assert s[..k] == a[..k];
    assert s[k..] == a[k..] + t;
    assert a[k..] + t == a[k..] + [""] + b;
    LeadLengthBlank(a, b);
  }

  /** The runs concatenated. */
  function Flatten(runs: seq<seq<string>>): seq<string> {
    if |runs| == 0 then [] else runs[0] + Flatten(runs[1..])
  }

  /** Leading blank texts add nothing to either side. */
  lemma BlankFirst(ss: seq<string>)
    requires |ss| > 0 && |ss[0]| == 0
    ensures Runs(ss) == Runs(ss[1..])
    ensures NonBlank(ss) == NonBlank(ss[1..])
  {
    NonBlankAppend([ss[0]], ss[1..]);
    assert NonBlank([ss[0]]) == [];
    assert [ss[0]] + ss[1..] == ss;
  }

  /** A leading run is kept whole by the runs... */
  lemma FilledFirstRuns(ss: seq<string>)
    requires |ss| > 0 && |ss[0]| > 0
    ensures Flatten(Runs(ss)) == ss[..LeadLength(ss)] + Flatten(Runs(ss[LeadLength(ss)..]))
  {
    assert Runs(ss)[1..] == Runs(ss[LeadLength(ss)..]);
  }

  /** ... and by the non-blank filter. */
  lemma FilledFirstNonBlank(ss: seq<string>)
    requires |ss| > 0 && |ss[0]| > 0
    ensures NonBlank(ss) == ss[..LeadLength(ss)] + NonBlank(ss[LeadLength(ss)..])
  {
    var k := LeadLength(ss);
    var lead, rest := ss[..k], ss[k..];
    assert lead + rest == ss;
    LeadFilled(ss);
    assert forall i :: 0 <= i < |lead| ==> |lead[i]| > 0 by {
      forall i | 0 <= i < |lead|
        ensures |lead[i]| > 0
      {
        assert lead[i] == ss[i];
      }
    }
    NonBlankOfFilled(lead);
    NonBlankAppend(lead, rest);
  }

  /** Concatenating the runs gives back exactly the non-empty texts, in order. */
  lemma {:induction false} RunsFlatten(ss: seq<string>)
    ensures Flatten(Runs(ss)) == NonBlank(ss)
    decreases |ss|
  {
    if |ss| > 0 {
      if |ss[0]| == 0 {
        BlankFirst(ss);
        RunsFlatten(ss[1..]);
      } else {
        FilledFirstRuns(ss);
        FilledFirstNonBlank(ss);
        RunsFlatten(ss[LeadLength(ss)..]);
      }
    }
  }

  /** Each run joined with "\n", as a scenario. */
  function JoinAll(runs: seq<seq<string>>): (scenarios: seq<string>)
    ensures |scenarios| == |runs|
    ensures forall i :: 0 <= i < |runs| ==> scenarios[i] == Join(runs[i], "\n")
  {
    seq(|runs|, i requires 0 <= i < |runs| => Join(runs[i], "\n"))
  }

  lemma JoinAllAppend(runs: seq<seq<string>>, run: seq<string>)
    ensures JoinAll(runs + [run]) == JoinAll(runs) + [Join(run, "\n")]
  {
  }

  /** The state of the scenario loop before line `i`: `current` holds only
      non-blank lines, and the closed runs followed by the runs still to come
      from `current` and the rest of the lines are the runs of all lines. */
  predicate ScenarioState(runs: seq<seq<string>>, current: seq<string>, ss: seq<string>, i: nat) {
    && i <= |ss|
    && (forall k :: 0 <= k < |current| ==> |current[k]| > 0)
    && runs + Runs(current + ss[i..]) == Runs(ss)
  }

  lemma ScenarioStart(ss: seq<string>)
    ensures ScenarioState([], [], ss, 0)
  {
    assert [] + ss[0..] == ss;
  }

  /** A non-blank line extends the current scenario. */
  lemma ScenarioExtend(runs: seq<seq<string>>, current: seq<string>, ss: seq<string>, i: nat)
    requires ScenarioState(runs, current, ss, i) && i < |ss| && |ss[i]| > 0
    ensures ScenarioState(runs, current + [ss[i]], ss, i + 1)
  {
    assert current + ss[i..] == (current + [ss[i]]) + ss[i + 1..];
  }

  /** A blank line closes a non-empty current scenario. */
  lemma ScenarioClose(runs: seq<seq<string>>, current: seq<string>, ss: seq<string>, i: nat)
    requires ScenarioState(runs, current, ss, i) && i < |ss| && |ss[i]| == 0 && |current| > 0
    ensures ScenarioState(runs + [current], [], ss, i + 1)
  {
    assert ss[i] == "";
    assert current + ss[i..] == current + [""] + ss[i + 1..];
    RunsAtBlank(current, ss[i + 1..]);
    RunOfFilled(current);
    assert [] + ss[i + 1..] == ss[i + 1..];
  }

  /** A blank line with no current scenario is skipped. */
  lemma ScenarioSkip(runs: seq<seq<string>>, ss: seq<string>, i: nat)
    requires ScenarioState(runs, [], ss, i) && i < |ss| && |ss[i]| == 0
    ensures ScenarioState(runs, [], ss, i + 1)
  {
    assert ([] + ss[i..])[1..] == ss[i + 1..];
    assert [] + ss[i + 1..] == ss[i + 1..];
  }

  /** At the end only the current scenario remains. */
  lemma ScenarioEnd(runs: seq<seq<string>>, current: seq<string>, ss: seq<string>)
    requires ScenarioState(runs, current, ss, |ss|)
    ensures Runs(ss) == runs + if |current| > 0 then [current] else []
  {
    assert current + ss[|ss|..] == current;
    if |current| > 0 {
      RunOfFilled(current);
    }
  }

  /** read_scenarios_from_file: a non-blank line extends the current scenario,
      a blank line closes it if it has lines, and the last one is closed at
      the end. */
  method ReadScenarios(lines: seq<string>) returns (scenarios: seq<string>)
    ensures scenarios == JoinAll(Runs(StripAll(lines)))
  {
    ghost var ss := StripAll(lines);
    ghost var runs: seq<seq<string>> := [];
    scenarios := [];
    var current: seq<string> := [];
    ScenarioStart(ss);
    var i := 0;
    while i < |lines|
      invariant |ss| == |lines| && ScenarioState(runs, current, ss, i)
      invariant scenarios == JoinAll(runs)
    {
      var line := Strip(lines[i]);
      assert line == ss[i];
      if |line| > 0 {
        ScenarioExtend(runs, current, ss, i);
        current := current + [line];
      } else if |current| > 0 {
        ScenarioClose(runs, current, ss, i);
        JoinAllAppend(runs, current);
        scenarios := scenarios + [Join(current, "\n")];
        runs := runs + [current];
        current := [];
      } else {
        ScenarioSkip(runs, ss, i);
      }
      i := i + 1;
    }
    ScenarioEnd(runs, current, ss);
    if |current| > 0 {
      JoinAllAppend(runs, current);
      scenarios := scenarios + [Join(current, "\n")];
    }
  }

  /** `strip()` keeps a slice of its input. */
  lemma StripSlice(s: string) returns (off: nat)
    ensures off + |Strip(s)| <= |s|
    ensures Strip(s) == s[off..off + |Strip(s)|]
  {
    var t := LStrip(s);
    off := |s| - |t|;
    assert Strip(s) == RStrip(t) == t[..|Strip(s)|];
  }

  /** A stripped raw line holds no newline. */
  lemma StripRawLine(s: string)
    requires RawLine(s)
    ensures '\n' !in Strip(s)
  {
    var r := Strip(s);
    var off := StripSlice(s);
    forall j | 0 <= j < |r|
      ensures r[j] != '\n'
    {
      if j < |r| - 1 {
        assert r[j] == s[off + j];
        assert off + j < |s| - 1;
      } else {
        assert !IsSpace(r[|r| - 1]);
      }
    }
  }

  /** Each scenario split on "\n". */
  function SplitAll(scenarios: seq<string>): (parts: seq<seq<string>>)
    ensures |parts| == |scenarios|
    ensures forall i :: 0 <= i < |scenarios| ==> parts[i] == Split(scenarios[i], "\n")
  {
    seq(|scenarios|, i requires 0 <= i < |scenarios| => Split(scenarios[i], "\n"))
  }

  /** A run of newline-free lines splits back into its lines. */
  lemma RunSplitsBack(run: seq<string>)
    requires |run| > 0 && forall j :: 0 <= j < |run| ==> '\n' !in run[j]
    ensures Split(Join(run, "\n"), "\n") == run
  {
    forall j | 0 <= j < |run|
      ensures !Contains(run[j], "\n")
    {
      ContainsChar(run[j], '\n');
    }
    SplitJoin(run, "\n");
  }

  /** No stripped raw line holds a newline. */
  lemma StrippedNoNewline(lines: seq<string>)
    requires forall i :: 0 <= i < |lines| ==> RawLine(lines[i])
    ensures forall x :: x in StripAll(lines) ==> '\n' !in x
  {
    forall x | x in StripAll(lines)
      ensures '\n' !in x
    {
      var k :| 0 <= k < |lines| && StripAll(lines)[k] == x;
      StripRawLine(lines[k]);
    }
  }

  /** Splitting the scenarios back into lines returns the runs, and so
      exactly the lines the line readers keep: scenarios lose no line and
      gain none. */
  lemma ScenarioLines(lines: seq<string>)
    requires forall i :: 0 <= i < |lines| ==> RawLine(lines[i])
    ensures SplitAll(JoinAll(Runs(StripAll(lines)))) == Runs(StripAll(lines))
    ensures Flatten(SplitAll(JoinAll(Runs(StripAll(lines))))) == NonBlank(StripAll(lines))
  {
    var ss := StripAll(lines);
    var runs := Runs(ss);
    RunsElements(ss);
    RunsShape(ss);
    StrippedNoNewline(lines);
    forall i | 0 <= i < |runs|
      ensures Split(Join(runs[i], "\n"), "\n") == runs[i]
    {
      RunSplitsBack(runs[i]);
    }
    RunsFlatten(ss);
  }

  /** `[col for col in column_order if col in df.columns]`. */
  function SelectColumns(order: seq<string>, present: set<string>): (cols: seq<string>)
    ensures forall c :: c in cols <==> c in order && c in present
    ensures |cols| <= |order|
  {
    if |order| == 0 then []
    else (if order[0] in present then [order[0]] else []) + SelectColumns(order[1..], present)
  }

  /** Selection keeps the declared order: two kept columns appear in the
      order they are declared. */
  lemma {:induction false} SelectKeepsOrder(order: seq<string>, present: set<string>, i: int, j: int)
    requires 0 <= i < j < |SelectColumns(order, present)|
    ensures exists p, q :: (0 <= p < q < |order|
      && order[p] == SelectColumns(order, present)[i] && order[q] == SelectColumns(order, present)[j])
    decreases |order|
  {
    var cols := SelectColumns(order, present);
    var rest := SelectColumns(order[1..], present);
    if order[0] in present {
      if i == 0 {
        assert cols[j] == rest[j - 1] && cols[j] in order[1..];
        var q :| 0 <= q < |order[1..]| && order[1..][q] == cols[j];
        assert order[0] == cols[0] && order[q + 1] == cols[j];
      } else {
        SelectKeepsOrder(order[1..], present, i - 1, j - 1);
        var p, q :| 0 <= p < q < |order[1..]| && order[1..][p] == rest[i - 1] && order[1..][q] == rest[j - 1];
        assert order[p + 1] == cols[i] && order[q + 1] == cols[j];
      }
    } else {
      SelectKeepsOrder(order[1..], present, i, j);
      var p, q :| 0 <= p < q < |order[1..]| && order[1..][p] == rest[i] && order[1..][q] == rest[j];
      assert order[p + 1] == cols[i] && order[q + 1] == cols[j];
    }
  }

  /** With every declared column present, the selection is the declared order. */
  lemma {:induction false} SelectAllPresent(order: seq<string>, present: set<string>)
    requires forall i :: 0 <= i < |order| ==> order[i] in present
    ensures SelectColumns(order, present) == order
    decreases |order|
  {
    if |order| > 0 {
      SelectAllPresent(order[1..], present);
      assert [order[0]] + order[1..] == order;
    }
  }

  /** The column order of both classification exports. */
  const ClassificationColumns: seq<string> := ["message", "district", "intent", "priority", "raw_output"]

  /** The column order of the crisis-event export: the old flood-level name is
      used only when the new one is absent and the old one present. */
  function CrisisColumns(present: set<string>): (order: seq<string>)
    ensures |order| == 5
    ensures order[1] == (if "flood_level_meters" !in present && "flood_level_m" in present
                          then "flood_level_m" else "flood_level_meters")
    ensures order[0] == "district" && order[2..] == ["victim_count", "main_need", "status"]
  {
    if "flood_level_meters" !in present && "flood_level_m" in present
    then ["district", "flood_level_m", "victim_count", "main_need", "status"]
    else ["district", "flood_level_meters", "victim_count", "main_need", "status"]
  }

  /** The display names of the crisis-event columns; both flood-level names
      show as "Flood Level (m)". */
  const CrisisHeaders: map<string, string> := map[
    "flood_level_meters" := "Flood Level (m)",
    "flood_level_m" := "Flood Level (m)",
    "victim_count" := "Victim Count",
    "district" := "District",
    "main_need" := "Main Need",
    "status" := "Status"]

  /** `df.rename(columns=...)` restricted to the columns present. */
  function Rename(cols: seq<string>, names: map<string, string>): (headers: seq<string>)
    ensures |headers| == |cols|
    ensures forall i :: 0 <= i < |cols| ==> headers[i] == if cols[i] in names then names[cols[i]] else cols[i]
  {
    seq(|cols|, i requires 0 <= i < |cols| => if cols[i] in names then names[cols[i]] else cols[i])
  }

  /** The headers of the crisis-event sheet, for a frame with columns `present`. */
  function CrisisExportHeaders(present: set<string>): seq<string> {
    Rename(SelectColumns(CrisisColumns(present), present), CrisisHeaders)
  }

  /** Every crisis-event header is one of the five display names, and none
      shows twice: the flood level appears at most once even when both of its
      names are present. */
  lemma CrisisHeadersDisplayed(present: set<string>)
    ensures var hs := CrisisExportHeaders(present);
      && (forall i :: 0 <= i < |hs| ==> hs[i] in {"District", "Flood Level (m)", "Victim Count", "Main Need", "Status"})
      && |hs| <= 5
      && (forall i, j :: 0 <= i < j < |hs| ==> hs[i] != hs[j])
  {
    var order := CrisisColumns(present);
    var cols := SelectColumns(order, present);
    var hs := CrisisExportHeaders(present);
    forall i | 0 <= i < |cols|
      ensures cols[i] in CrisisHeaders
      ensures CrisisHeaders[cols[i]] in {"District", "Flood Level (m)", "Victim Count", "Main Need", "Status"}
    {
      assert cols[i] in order;
    }
    forall i, j | 0 <= i < j < |hs|
      ensures hs[i] != hs[j]
    {
      SelectKeepsOrder(order, present, i, j);
      var p, q :| 0 <= p < q < |order| && order[p] == cols[i] && order[q] == cols[j];
      HeaderDistinct(present, p, q);
    }
  }

  /** Two different positions of the crisis column order carry different
      display names. */
  lemma HeaderDistinct(present: set<string>, p: int, q: int)
    requires 0 <= p < q < 5
    ensures CrisisHeaders[CrisisColumns(present)[p]] != CrisisHeaders[CrisisColumns(present)[q]]
  {
    var order := CrisisColumns(present);
    assert order == ["district", order[1], "victim_count", "main_need", "status"];
  }

  /** The old flood-level column is exported only in place of a missing new one. */
  lemma OldFloodNameFallback(present: set<string>)
    ensures "flood_level_m" in SelectColumns(CrisisColumns(present), present)
        <==> "flood_level_meters" !in present && "flood_level_m" in present
    ensures "flood_level_meters" in SelectColumns(CrisisColumns(present), present) <==> "flood_level_meters" in present
  {
    var order := CrisisColumns(present);
    assert order == [order[0], order[1]] + order[2..];
  }

  /** The widest of the cells, 0 for none. */
  function LongestCell(cells: seq<string>): (n: nat)
    ensures forall i :: 0 <= i < |cells| ==> |cells[i]| <= n
    ensures |cells| > 0 ==> exists i :: 0 <= i < |cells| && |cells[i]| == n
    ensures |cells| == 0 ==> n == 0
  {
    if |cells| == 0 then 0
    else
      var m := LongestCell(cells[1..]);
      assert forall i :: 1 <= i < |cells| ==> cells[i] == cells[1..][i - 1];
      if |cells[0]| >= m then |cells[0]| else m
  }

  const ClassificationWidthCap: nat := 50
  const CrisisWidthCap: nat := 30

  /** `min(max(longest cell, len(header)) + 2, cap)`: room for the widest text
      plus two, never beyond the cap. */
  function ColumnWidth(cells: seq<string>, header: string, cap: nat): (w: nat)
    ensures w <= cap
    ensures w == cap || w == |header| + 2 || exists i :: 0 <= i < |cells| && w == |cells[i]| + 2
    ensures |header| + 2 <= cap ==> |header| + 2 <= w
    ensures forall i :: 0 <= i < |cells| && |cells[i]| + 2 <= cap ==> |cells[i]| + 2 <= w
    ensures (|header| + 2 > cap || exists i :: 0 <= i < |cells| && |cells[i]| + 2 > cap) ==> w == cap
  {
    var longest := LongestCell(cells);
    var m := if longest >= |header| then longest else |header|;
    if m + 2 <= cap then m + 2 else cap
  }

  /** A column whose texts fit reports exactly its widest text plus two. */
  lemma ColumnWidthFits(cells: seq<string>, header: string, cap: nat)
    requires |header| + 2 <= cap && forall i :: 0 <= i < |cells| ==> |cells[i]| + 2 <= cap
    ensures ColumnWidth(cells, header, cap) == LongestCell(cells + [header]) + 2
  {
    var all := cells + [header];
    assert all[|cells|] == header;
    assert forall i :: 0 <= i < |cells| ==> all[i] == cells[i];
  }
}
