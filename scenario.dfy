/**
 * A worked run: one enabled connector metric `C1` reading `maxThreads`, a
 * bean dump holding the thread pool of connector `http-8080`, and the agent
 * answering `maxThreads = 200;` for it. The report is `C1|200|http-8080|`.
 */
module Scenario {

  import opened Outcomes
  import opened Text
  import opened Patterns
  import opened Catalog
  import opened Selector
  import opened Discovery
  import opened Planner
  import opened Filter
  import opened Parser
  import opened Formatter
  import opened Monitor

  /** The thread pool bean of connector `http-8080`. */
  predicate IsPoolBean(bean: string) {
    bean == ThreadPoolPattern.prefix + "http-8080" + ThreadPoolPattern.suffix
  }

  /** The one-metric table of the example, enabled. */
  const C1: Metric := Metric("C1", Connector, ThreadPoolPattern, "maxThreads", true, [])

  /** The agent's session header followed by its echo of the one query. */
  function Echoes(bean: string): string {
    "Welcome to JMX terminal." + "\n" + ("#mbean = " + bean + ":")
  }

  /** The thread pool pattern captures the connector name from the bean. */
  lemma PoolBeanMatches(bean: string)
    requires IsPoolBean(bean)
    ensures Match(bean, ThreadPoolPattern) == Some("http-8080")
  {
    var p := ThreadPoolPattern;
    assert |p.prefix| == 15 && |p.suffix| == 17 && |bean| == 41;
    assert bean[0..15] == p.prefix;
    assert bean[15..24] == "http-8080";
    assert bean[24..41] == p.suffix;
    assert MatchesAt(bean, p, 0, 9);
    forall l: nat | 9 < l
      ensures !MatchesAt(bean, p, 0, l)
    {
    }
    FindExactly(bean, p, Span(0, 9));
  }

  /** The bean has no line break and no carriage return. */
  lemma PoolBeanHasNoBreaks(bean: string)
    requires IsPoolBean(bean)
    ensures '\n' !in bean && '\r' !in bean
  {
    ThreadPoolPatternIsPlain();
    assert '\n' !in "http-8080" && '\r' !in "http-8080";
    PoolBeanOmits(bean, '\n');
    PoolBeanOmits(bean, '\r');
  }

  /** The bean holds no `$`, so the query template leaves its directive literal. */
  lemma PoolBeanHasNoDollar(bean: string)
    requires IsPoolBean(bean)
    ensures '$' !in bean
  {
    ThreadPoolPatternIsPlain();
    assert '$' !in "http-8080";
    PoolBeanOmits(bean, '$');
  }

  /** A character that none of the three pieces of the bean holds is not in the bean. */
  lemma PoolBeanOmits(bean: string, c: char)
    requires IsPoolBean(bean)
    requires c !in ThreadPoolPattern.prefix && c !in "http-8080" && c !in ThreadPoolPattern.suffix
    ensures c !in bean
  {
  }

  /** The bean has no surrounding blanks. */
  lemma PoolBeanTrimmed(bean: string)
    requires IsPoolBean(bean)
    ensures Trim(bean) == bean
  {
    var p := ThreadPoolPattern;
    assert bean[0] == p.prefix[0] == 'C';
    assert bean[|bean| - 1] == p.suffix[16] == 'l';
    TrimOfTrimmed(bean);
  }

  /** A dump made of one blank-free line is that line. */
  lemma OneLineDump(line: string)
    requires Trim(line) == line && '\n' !in line
    ensures DumpLines(line) == [line]
  {
    SplitNoSeparator(line, '\n');
  }

  /** A one-line stream cleans to that line. */
  lemma OneLineValues(line: string)
    requires line != "" && '\r' !in line && '\n' !in line
    ensures CleanValues(line) == [line]
  {
    RemoveAllAbsent(line, '\r');
    SplitNoSeparator(line, '\n');
  }

  /** A header line and one echo line clean to the echo line. */
  lemma HeaderAndEcho(header: string, echo: string)
    requires '\r' !in header && '\n' !in header && '\r' !in echo && '\n' !in echo
    ensures CleanEchoes(header + "\n" + echo) == [echo]
  {
    assert '\r' !in header + "\n" + echo;
    RemoveAllAbsent(header + "\n" + echo, '\r');
    assert header + "\n" + echo == header + ['\n'] + echo;
    SplitAtSeparator(header, echo, '\n');
    SplitNoSeparator(header, '\n');
    SplitNoSeparator(echo, '\n');
  }

  /** Discovery on a one-line dump that `C1` matches gives `C1` the one target `<line> maxThreads`. */
  lemma DiscoveryFor(line: string)
    requires Match(line, ThreadPoolPattern).Some? && Trim(line) == line
    ensures Discovered([C1], Some(Connector), [line]) == [C1.(mbeans := [line + " maxThreads"])]
  {
    assert [line][..0] == [];
    assert Target(line, C1.key) == line + " maxThreads";
    assert Targets(C1, [line]) == [line + " maxThreads"];
  }

  /** The batch for one target is the one directive asking for it. */
  lemma BatchFor(target: string)
    ensures Batch([C1.(mbeans := [target])]) == "get -b " + target + "\n"
  {
    var ms := [C1.(mbeans := [target])];
    assert ms[..0] == [];
    assert QueryOrder(ms) == [target];
    assert Directives([target]) == Directive(target) + Directives([]);
  }

  /** The example's value stream cleans to its one line. */
  lemma ValuesFor(valueLine: string)
    requires valueLine == "maxThreads = 200;"
    ensures CleanValues(valueLine) == [valueLine]
  {
    OneLineValues(valueLine);
  }

  /** The example's echo stream cleans to the echo of the one query. */
  lemma EchoesFor(bean: string)
    requires '\n' !in bean && '\r' !in bean
    ensures CleanEchoes(Echoes(bean)) == ["#mbean = " + bean + ":"]
  {
    var echoLine := "#mbean = " + bean + ":";
    assert '\r' !in echoLine && '\n' !in echoLine;
    HeaderAndEcho("Welcome to JMX terminal.", echoLine);
  }

  /** The example's value line and echo line give the data point of the metric they resolve to. */
  lemma CandidateAt(ms: seq<Metric>, bean: string, k: nat)
    requires k < |ms| && Resolve(ms, bean, "maxThreads") == Some(k) && Trim(bean) == bean
    ensures Candidate(ms, "maxThreads = 200;", "#mbean = " + bean + ":")
      == Some(DataPoint(ms[k].id, Some("200"), Match(bean, ms[k].pattern)))
  {
    ExampleValueLine();
    EchoLineRoundTrip(bean);
    CandidateResolved(ms, "maxThreads = 200;", "#mbean = " + bean + ":", "maxThreads", Some("200"), bean, k);
  }

  /** The example's value line reads back as key `maxThreads` and value `200`. */
  lemma ExampleValueLine()
    ensures ParseValueLine("maxThreads = 200;") == ValueLine("maxThreads", Some("200"))
  {
    ExampleValueWords();
    ValueLineRoundTrip("maxThreads", "200");
    ExampleValueText();
  }

  /** Neither word of the example's answer holds a blank or a `;`. */
  lemma ExampleValueWords()
    ensures ' ' !in "maxThreads" && ';' !in "maxThreads"
    ensures ' ' !in "200" && ';' !in "200"
  {
    var key, value := "maxThreads", "200";
    assert forall k :: 0 <= k < |key| ==> key[k] != ' ' && key[k] != ';';
    assert forall k :: 0 <= k < |value| ==> value[k] != ' ' && value[k] != ';';
  }

  /** The example's answer is the agent's `key = value;` line. */
  lemma ExampleValueText()
    ensures "maxThreads" + " = " + "200" + ";" == "maxThreads = 200;"
  {
  }

  /** The value line and the echo line of the example resolve to `C1` with the capture `name`. */
  lemma CandidateFor(ms: seq<Metric>, bean: string, name: string)
    requires |ms| == 1 && ms[0].(mbeans := []) == C1
    requires Match(bean, ThreadPoolPattern) == Some(name) && Trim(bean) == bean
    ensures Candidate(ms, "maxThreads = 200;", "#mbean = " + bean + ":") == Some(DataPoint("C1", Some("200"), Some(name)))
  {
    assert Resolves(ms[0], bean, "maxThreads");
    CandidateAt(ms, bean, 0);
  }

  /** The example's two streams parse, under an empty filter argument, to the one candidate of their pair. */
  lemma ParseAt(ms: seq<Metric>, bean: string, point: DataPoint)
    requires '\n' !in bean && '\r' !in bean
    requires Candidate(ms, "maxThreads = 200;", "#mbean = " + bean + ":") == Some(point)
    ensures Parse(ms, "maxThreads = 200;", Echoes(bean), FilterTerms("")) == Ok([point])
  {
    ValuesFor("maxThreads = 200;");
    EchoesFor(bean);
    EmptyFilterPassesAll(point.objectName);
    ParseOfOnePair(ms, "maxThreads = 200;", Echoes(bean), FilterTerms(""), "maxThreads = 200;", "#mbean = " + bean + ":", point);
  }

  /** A parse whose streams clean to one value line and one echo line is the filtered candidate of that pair. */
  lemma ParseOfOnePair(ms: seq<Metric>, valuesText: string, echoText: string, terms: seq<string>,
                       v: string, e: string, point: DataPoint)
    requires CleanValues(valuesText) == [v] && CleanEchoes(echoText) == [e]
    requires Candidate(ms, v, e) == Some(point) && Matches(point.objectName, terms)
    ensures Parse(ms, valuesText, echoText, terms) == Ok([point])
  {
    OneCandidate(ms, v, e);
    CollectOne(point);
    KeepAll([point], terms);
    assert PairAndFilter(ms, [v], [e], terms) == Ok([point]);
  }

  /** One line in each stream gives the one candidate of that pair. */
  lemma OneCandidate(ms: seq<Metric>, v: string, e: string)
    ensures Candidates(ms, [v], [e]) == [Candidate(ms, v, e)]
  {
    assert Candidates(ms, [v], [e])[0] == Candidate(ms, v, e);
  }

  /** Collecting one claimed candidate gives that point. */
  lemma CollectOne(point: DataPoint)
    ensures Collect([Some(point)]) == Ok([point])
  {
    assert [Some(point)][..0] == [];
    assert Collect([]) == Ok([]);
    assert [] + [point] == [point];
  }

  /** The agent's answer parses to the one data point `C1`, value `200`, object `name`; the empty filter keeps it. */
  lemma ParseFor(ms: seq<Metric>, bean: string, name: string)
    requires |ms| == 1 && ms[0].(mbeans := []) == C1
    requires Match(bean, ThreadPoolPattern) == Some(name) && Trim(bean) == bean
    requires '\n' !in bean && '\r' !in bean
    ensures Parse(ms, "maxThreads = 200;", Echoes(bean), FilterTerms("")) == Ok([DataPoint("C1", Some("200"), Some(name))])
  {
    CandidateFor(ms, bean, name);
    ParseAt(ms, bean, DataPoint("C1", Some("200"), Some(name)));
  }

  /** The example's discovery: the dump holding the `http-8080` pool gives `C1` the one target `<bean> maxThreads`. */
  lemma ExampleDiscovery(bean: string)
    requires IsPoolBean(bean)
    ensures Discovered([C1], Some(Connector), DumpLines(bean)) == [C1.(mbeans := [bean + " maxThreads"])]
  {
    PoolBeanMatches(bean);
    PoolBeanTrimmed(bean);
    PoolBeanHasNoBreaks(bean);
    OneLineDump(bean);
    DiscoveryFor(bean);
  }

  /** The example's batch: the one directive asking for that target. */
  lemma ExampleBatch(bean: string)
    ensures Batch([C1.(mbeans := [bean + " maxThreads"])]) == "get -b " + bean + " maxThreads" + "\n"
  {
    BatchFor(bean + " maxThreads");
    assert "get -b " + (bean + " maxThreads") + "\n" == "get -b " + bean + " maxThreads" + "\n";
  }

  /** The example's answer: under an empty filter argument the agent's two streams parse to `C1` with value `200` and object `http-8080`. */
  lemma ExampleAnswer(bean: string)
    requires IsPoolBean(bean)
    ensures Parse([C1.(mbeans := [bean + " maxThreads"])], "maxThreads = 200;", Echoes(bean), FilterTerms(""))
      == Ok([DataPoint("C1", Some("200"), Some("http-8080"))])
  {
    PoolBeanMatches(bean);
    PoolBeanTrimmed(bean);
    PoolBeanHasNoBreaks(bean);
    ParseFor([C1.(mbeans := [bean + " maxThreads"])], bean, "http-8080");
  }

  /** The report of the example's one data point. */
  lemma ExampleReport()
    ensures Render([DataPoint("C1", Some("200"), Some("http-8080"))]) == "C1|200|http-8080|"
  {
  }

  // The same run on the declared catalog: type `2`, enable argument `1`, empty filter.

  /** Token `1` for type `2` enables the first connector metric, `2560:Max Threads:4`, and nothing else. */
  lemma SelectsMaxThreads()
    ensures var sel := Selected(Definitions(), Some(Connector), ["1"]);
      |sel| == 17 && Enabled(sel[5], Some(Connector))
      && forall i :: 0 <= i < 17 && i != 5 ==> !Enabled(sel[i], Some(Connector))
  {
    var sel := Selected(Definitions(), Some(Connector), ["1"]);
    CatalogLayout();
    CatalogSelection(["1"]);
    assert TokenOn(["1"], 0);
    forall i | 0 <= i < 17 && i != 5
      ensures !Enabled(sel[i], Some(Connector))
    {
      if 5 <= i < 14 {
        assert !TokenOn(["1"], i - 5);
      } else {
        assert sel[i] == Definitions()[i];
      }
    }
  }

  /** Discovery with one enabled metric `j` and no earlier targets leaves targets at `j` alone. */
  lemma DiscoveredOnly(ms: seq<Metric>, t: Option<ObjectType>, lines: seq<string>, j: nat)
    requires j < |ms| && Enabled(ms[j], t)
    requires forall i :: 0 <= i < |ms| ==> ms[i].mbeans == []
    requires forall i :: 0 <= i < |ms| && i != j ==> !Enabled(ms[i], t)
    ensures var r := Discovered(ms, t, lines);
      r[j].mbeans == Targets(ms[j], lines) && forall i :: 0 <= i < |ms| && i != j ==> r[i].mbeans == []
  {
    assert ms[j].mbeans + Targets(ms[j], lines) == Targets(ms[j], lines);
  }

  /** A one-line dump whose line the metric's pattern matches gives the metric that one line's target. */
  lemma OneLineTargets(m: Metric, line: string)
    requires Match(line, m.pattern).Some?
    ensures Targets(m, [line]) == [Target(line, m.key)]
  {
    assert [line][..0] == [];
  }

  /** A metric reading `maxThreads` off thread pools finds the one target `<bean> maxThreads` in the pool bean's dump. */
  lemma PoolTargets(m: Metric, bean: string)
    requires IsPoolBean(bean) && m.pattern == ThreadPoolPattern && m.key == "maxThreads"
    ensures Targets(m, DumpLines(bean)) == [bean + " maxThreads"]
  {
    PoolBeanMatches(bean);
    PoolBeanTrimmed(bean);
    PoolBeanHasNoBreaks(bean);
    OneLineDump(bean);
    OneLineTargets(m, bean);
    MaxThreadsTarget(bean);
  }

  /** The `maxThreads` target of a trimmed line is the line, a blank and the key. */
  lemma MaxThreadsTarget(line: string)
    requires Trim(line) == line
    ensures Target(line, "maxThreads") == line + " maxThreads"
  {
    BlankMaxThreads();
    assert line + " " + "maxThreads" == line + (" " + "maxThreads");
  }

  /** The separator and the key make the literal ` maxThreads`. */
  lemma BlankMaxThreads()
    ensures " " + "maxThreads" == " maxThreads"
  {
  }

  /** After discovery on the pool bean's dump only metric 5 has a target. */
  lemma PreparedMaxThreads(bean: string)
    requires IsPoolBean(bean)
    ensures var ms := Prepared(Some(Connector), ["1"], bean);
      |ms| == 17 && ms[5].mbeans == [bean + " maxThreads"]
      && (forall i :: 0 <= i < 17 && i != 5 ==> ms[i].mbeans == [])
  {
    var sel := Selected(Definitions(), Some(Connector), ["1"]);
    SelectsMaxThreads();
    MaxThreadsEntry();
    assert sel[5].(state := Definitions()[5].state) == Definitions()[5];
    DiscoveredOnly(sel, Some(Connector), DumpLines(bean), 5);
    PoolTargets(sel[5], bean);
  }

  /** With no targets anywhere the query order is empty. */
  lemma {:induction false} QueryOrderNone(ms: seq<Metric>)
    requires forall i :: 0 <= i < |ms| ==> ms[i].mbeans == []
    ensures QueryOrder(ms) == []
    decreases |ms|
  {
    if |ms| > 0 {
      QueryOrderNone(ms[..|ms| - 1]);
    }
  }

  /** With targets at one position only, the query order is that position's list. */
  lemma {:induction false} QueryOrderOnly(ms: seq<Metric>, j: nat)
    requires j < |ms| && forall i :: 0 <= i < |ms| && i != j ==> ms[i].mbeans == []
    ensures QueryOrder(ms) == ms[j].mbeans
    decreases |ms|
  {
    var n := |ms| - 1;
    if n == j {
      QueryOrderNone(ms[..n]);
    } else {
      QueryOrderOnly(ms[..n], j);
    }
  }

  /** The batch of that run is the one directive for `<bean> maxThreads`. */
  lemma CatalogBatch(bean: string)
    requires IsPoolBean(bean)
    ensures TemplateBatch(Prepared(Some(Connector), ["1"], bean)) == "get -b " + bean + " maxThreads" + "\n"
  {
    var ms := Prepared(Some(Connector), ["1"], bean);
    PreparedMaxThreads(bean);
    QueryOrderOnly(ms, 5);
    PoolBeanHasNoDollar(bean);
    assert '$' !in bean + " maxThreads";
    TemplateBatchLiteral(ms);
    ExampleBatch(bean);
    assert ms[5].(mbeans := [bean + " maxThreads"]) == ms[5];
    assert QueryOrder(ms) == QueryOrder([C1.(mbeans := [bean + " maxThreads"])]);
  }

  /** Metric 5 is `2560:Max Threads:4` on thread pools, and no context metric before it reads a key starting with `m`. */
  lemma MaxThreadsEntry()
    ensures Definitions()[5].id == "2560:Max Threads:4"
    ensures Definitions()[5].pattern == ThreadPoolPattern && Definitions()[5].key == "maxThreads"
    ensures forall k :: 0 <= k < 5 ==> |Definitions()[k].key| > 0 && Definitions()[k].key[0] != 'm'
  {
  }

  /** Re-resolution picks metric 5: the five metrics before it have other keys. */
  lemma ResolvesToMaxThreads(ms: seq<Metric>, bean: string)
    requires IsPoolBean(bean)
    requires |ms| == 17 && forall i :: 0 <= i < 17 ==> ms[i].(state := false, mbeans := []) == Definitions()[i]
    ensures Resolve(ms, bean, "maxThreads") == Some(5)
  {
    MaxThreadsEntry();
    PoolBeanMatches(bean);
    assert ms[5].pattern == Definitions()[5].pattern && ms[5].key == Definitions()[5].key;
    assert Resolves(ms[5], bean, "maxThreads");
    forall k | 0 <= k < 5
      ensures !Resolves(ms[k], bean, "maxThreads")
    {
      assert ms[k].key == ms[k].(state := false, mbeans := []).key == Definitions()[k].key;
      assert ms[k].key[0] != "maxThreads"[0];
    }
  }

  /** On any table that keeps the catalog's declarations, the agent's two streams parse to the metric-5 point. */
  lemma AnswerOnCatalog(ms: seq<Metric>, bean: string)
    requires IsPoolBean(bean)
    requires |ms| == 17 && forall i :: 0 <= i < 17 ==> ms[i].(state := false, mbeans := []) == Definitions()[i]
    ensures Parse(ms, "maxThreads = 200;", Echoes(bean), FilterTerms(""))
      == Ok([DataPoint("2560:Max Threads:4", Some("200"), Some("http-8080"))])
  {
    ResolvesToMaxThreads(ms, bean);
    PoolBeanTrimmed(bean);
    PoolBeanHasNoBreaks(bean);
    PoolBeanMatches(bean);
    CandidateAt(ms, bean, 5);
    MaxThreadsEntry();
    assert ms[5].id == ms[5].(state := false, mbeans := []).id == "2560:Max Threads:4";
    assert ms[5].pattern == ms[5].(state := false, mbeans := []).pattern == ThreadPoolPattern;
    ParseAt(ms, bean, DataPoint("2560:Max Threads:4", Some("200"), Some("http-8080")));
  }

  /** The agent's two streams for that batch parse to `2560:Max Threads:4` with value `200` and object `http-8080`. */
  lemma CatalogAnswer(bean: string)
    requires IsPoolBean(bean)
    ensures Parse(Prepared(Some(Connector), ["1"], bean), "maxThreads = 200;", Echoes(bean), FilterTerms(""))
      == Ok([DataPoint("2560:Max Threads:4", Some("200"), Some("http-8080"))])
  {
    PreparedKeepsDefinitions(Some(Connector), ["1"], bean);
    AnswerOnCatalog(Prepared(Some(Connector), ["1"], bean), bean);
  }

  /** The command-line arguments of the run: enable argument `1`, type `2`, empty filter. */
  lemma RunArguments()
    ensures EnableTokens("1") == ["1"]
    ensures MapType("2") == Some(Connector)
    ensures FilterTerms("") == [""]
  {
    assert "1"[0..1][0] != "\""[0];
    assert IndexOfFrom("1", "\"", 1) == None;
    assert !Contains("1", "\"");
    SplitNoSeparator("1", ',');
  }

  /** The one point of that run prints as `2560:Max Threads:4|200|http-8080|`. */
  lemma RenderMaxThreads()
    ensures Render([DataPoint("2560:Max Threads:4", Some("200"), Some("http-8080"))]) == "2560:Max Threads:4|200|http-8080|"
  {
    var d := DataPoint("2560:Max Threads:4", Some("200"), Some("http-8080"));
    assert Lines([d]) == [Line(d)];
    assert Line(d) == "2560:Max Threads:4|200|http-8080|";
  }

  /** The agent's streams are already trimmed. */
  lemma AnswerTrimmed(bean: string)
    ensures Trim(Echoes(bean)) == Echoes(bean)
    ensures Trim("maxThreads = 200;") == "maxThreads = 200;"
  {
    var e := Echoes(bean);
    assert e[0] == 'W' && e[|e| - 1] == ':';
    TrimOfTrimmed(e);
    var v := "maxThreads = 200;";
    assert v[0] == 'm' && v[|v| - 1] == ';';
    TrimOfTrimmed(v);
  }

  /** A run whose listing, batch answer and parse all succeed prints the rendered data. */
  lemma OutcomeOfSuccess(stateArg: string, typeArg: string, filterArg: string, dump: string,
                         agent: string -> AgentRun, out: string, err: string, data: seq<DataPoint>)
    requires var ms := Prepared(MapType(typeArg), EnableTokens(stateArg), dump);
      agent(TemplateBatch(ms)) == AgentOutput(out, err)
      && Parse(ms, Trim(out), Trim(err), FilterTerms(filterArg)) == Ok(data)
    ensures Outcome(stateArg, typeArg, filterArg, AgentOutput(dump, ""), agent) == Ok(Render(data))
  {
  }

  /**
   * The whole run: the agent lists the pool bean and answers the batch
   * `get -b <bean> maxThreads` with `maxThreads = 200;` and its echo; the
   * monitor prints `2560:Max Threads:4|200|http-8080|`.
   */
  lemma ExampleOutcome(bean: string, agent: string -> AgentRun)
    requires IsPoolBean(bean)
    requires agent("get -b " + bean + " maxThreads" + "\n") == AgentOutput("maxThreads = 200;", Echoes(bean))
    ensures Outcome("1", "2", "", AgentOutput(bean, ""), agent) == Ok("2560:Max Threads:4|200|http-8080|")
  {
    RunArguments();
    var ms := Prepared(Some(Connector), ["1"], bean);
    assert Prepared(MapType("2"), EnableTokens("1"), bean) == ms;
    CatalogBatch(bean);
    assert agent(TemplateBatch(ms)) == AgentOutput("maxThreads = 200;", Echoes(bean));
    AnswerTrimmed(bean);
    CatalogAnswer(bean);
    OutcomeOfSuccess("1", "2", "", bean, agent, "maxThreads = 200;", Echoes(bean),
      [DataPoint("2560:Max Threads:4", Some("200"), Some("http-8080"))]);
    RenderMaxThreads();
  }
}
