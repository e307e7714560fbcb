/**
 * One run of the monitor: select the metrics of the requested type, discover
 * their beans in the agent's bean dump, send the batch of value queries to
 * the agent, parse its two output streams and print the report. The two
 * agent invocations are parameters: the first one's outcome is given, the
 * second is a function of the batch text.
 */
module Monitor {

  import opened Outcomes
  import opened Text
  import opened Catalog
  import opened Selector
  import opened Discovery
  import opened Planner
  import opened Filter
  import opened Parser
  import opened Formatter

  /** What running the query agent gave: a failure, or its standard output and error output. */
  datatype AgentRun = AgentFailed | AgentOutput(stdout: string, stderr: string)

  /** Line 119: the enable tokens, with the first double quote removed, split on commas. */
  function EnableTokens(stateArg: string): (tokens: seq<string>)
    ensures |tokens| >= 1
  {
    Split(ReplaceFirst(stateArg, "\"", ""), ',')
  }

  /** The table after selection and discovery. */
  function Prepared(t: Option<ObjectType>, tokens: seq<string>, dump: string): (ms: seq<Metric>)
    ensures |ms| == |Definitions()|
  {
    Discovered(Selected(Definitions(), t, tokens), t, DumpLines(dump))
  }

  /** Every target a run records is one line: catalog keys are words and dump lines hold no newline. */
  lemma PreparedTargetsAreLines(t: Option<ObjectType>, tokens: seq<string>, dump: string)
    ensures var ms := Prepared(t, tokens, dump);
      forall i, k :: 0 <= i < |ms| && 0 <= k < |ms[i].mbeans| ==> '\n' !in ms[i].mbeans[k]
  {
    var sel := Selected(Definitions(), t, tokens);
    var lines := DumpLines(dump);
    var ms := Discovered(sel, t, lines);
    CatalogKeysAreWords();
    forall i | 0 <= i < |ms|
      ensures forall k :: 0 <= k < |ms[i].mbeans| ==> '\n' !in ms[i].mbeans[k]
    {
      assert sel[i].key == Definitions()[i].key && sel[i].mbeans == [];
      if Enabled(sel[i], t) {
        assert ms[i].mbeans == Targets(sel[i], lines);
        TargetsHaveNoNewline(sel[i], lines);
      }
    }
  }

  /** The batch of a run on the literal directive has one line per recorded target, in query order, then an empty tail. */
  lemma PreparedBatchLines(t: Option<ObjectType>, tokens: seq<string>, dump: string)
    ensures var ms := Prepared(t, tokens, dump);
      |QueryOrder(ms)| == TotalTargets(ms)
      && |Split(Batch(ms), '\n')| == TotalTargets(ms) + 1
      && forall k :: 0 <= k < TotalTargets(ms) ==> Split(Batch(ms), '\n')[k] == "get -b " + QueryOrder(ms)[k]
  {
    var ms := Prepared(t, tokens, dump);
    PreparedTargetsAreLines(t, tokens, dump);
    QueryOrderNoNewline(ms);
    BatchLines(ms);
  }

  /** Selection and discovery change only the state and the targets of a catalog entry. */
  lemma PreparedKeepsDefinitions(t: Option<ObjectType>, tokens: seq<string>, dump: string)
    ensures var ms := Prepared(t, tokens, dump);
      forall i :: 0 <= i < |ms| ==> ms[i].(state := false, mbeans := []) == Definitions()[i]
  {
    CatalogLayout();
  }

  /** Every report of a run that found data splits back on newlines into one line per data point. */
  lemma PreparedReportLines(t: Option<ObjectType>, tokens: seq<string>, dump: string,
                            out: string, err: string, terms: seq<string>)
    ensures var r := Parse(Prepared(t, tokens, dump), out, err, terms);
      r.Ok? && |r.value| > 0 ==> Split(Render(r.value), '\n') == Lines(r.value)
  {
    var ms := Prepared(t, tokens, dump);
    PreparedKeepsDefinitions(t, tokens, dump);
    CatalogIdsAreLines();
    forall i | 0 <= i < |ms|
      ensures '\n' !in ms[i].id
    {
      assert ms[i].id == ms[i].(state := false, mbeans := []).id;
    }
    ParsedPointsAreLines(ms, out, err, terms);
    var r := Parse(ms, out, err, terms);
    if r.Ok? && |r.value| > 0 {
      RenderOneLinePoints(r.value);
    }
  }

  /** The report of a run, or the exit code it stops with. */
  function Outcome(stateArg: string, typeArg: string, filterArg: string,
                   beans: AgentRun, agent: string -> AgentRun): (r: Result<string>)
    ensures r.Err? ==> r.code == MetricNotFound
    ensures beans.AgentFailed? ==> r == Err(MetricNotFound)
  {
    var t := MapType(typeArg);
    match beans
    case AgentFailed => Err(MetricNotFound)
    case AgentOutput(dump, _) =>
      var ms := Prepared(t, EnableTokens(stateArg), dump);
      match agent(TemplateBatch(ms))
      case AgentFailed => Err(MetricNotFound)
      case AgentOutput(out, err) =>
        match Parse(ms, Trim(out), Trim(err), FilterTerms(filterArg))
        case Err(code) => Err(code)
        case Ok(data) => Ok(Render(data))
  }

  /** Lines 112-150, 185-265 and 270-343 in sequence: the whole run on a fresh table. */
  method Run(stateArg: string, typeArg: string, filterArg: string, beans: AgentRun, agent: string -> AgentRun)
    returns (r: Result<string>)
    ensures r == Outcome(stateArg, typeArg, filterArg, beans, agent)
  {
    var tokens := EnableTokens(stateArg);
    var terms := FilterTerms(filterArg);
    var t := MapType(typeArg);
    var metrics := NewCatalog();
    Select(metrics, t, tokens);
    if beans.AgentFailed? {
      return Err(MetricNotFound);
    }
    Discover(metrics, t, beans.stdout);
    var batch := BuildBatch(metrics);
    var answer := agent(batch);
    if answer.AgentFailed? {
      return Err(MetricNotFound);
    }
    var data := ParseOutput(metrics, Trim(answer.stdout), Trim(answer.stderr), terms);
    if data.Err? {
      return Err(data.code);
    }
    var out := Output(data.value);
    r := Ok(out);
  }
}
