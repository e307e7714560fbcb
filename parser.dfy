/**
 * The response parser: the value stream and the echo stream of the query
 * agent are cleaned, checked for equal length, paired by position, and each
 * pair is resolved again against the whole catalog by pattern and key.
 */
module Parser {

  import opened Outcomes
  import opened Text
  import opened Patterns
  import opened Catalog
  import opened Filter

  /** `text.replace(/\r/g, '').split('\n')`. */
  function StreamLines(text: string): (lines: seq<string>)
    ensures |lines| >= 1
    ensures forall k :: 0 <= k < |lines| ==> '\n' !in lines[k]
  {
    Split(RemoveAll(text, '\r'), '\n')
  }

  /** The lines that are not empty, in their original order. */
  function NonEmpty(lines: seq<string>): (r: seq<string>)
    ensures |r| <= |lines|
    ensures forall k :: 0 <= k < |r| ==> r[k] != ""
  {
    if |lines| == 0 then []
    else (if lines[0] == "" then [] else [lines[0]]) + NonEmpty(lines[1..])
  }

  /** Lines 280-287: empty lines are spliced out in place, stepping back after each removal. */
  method RemoveEmpty(lines: seq<string>) returns (values: seq<string>)
    ensures values == NonEmpty(lines)
  {
    values := lines;
    var i: int := 0;
    assert lines[0..] == lines;
    while i < |values|
      invariant 0 <= i <= |values|
      invariant values[..i] + NonEmpty(values[i..]) == NonEmpty(lines)
      decreases |values| - i
    {
      assert values[i..][1..] == values[i + 1..];
      if values[i] == "" {
        values := values[..i] + values[i + 1..];
        assert values[..i] + values[i..] == values;
        i := i - 1;
      } else {
        assert values[..i + 1] == values[..i] + [values[i]];
      }
      i := i + 1;
    }
    assert values[i..] == [];
  }

  /** The cleaned value stream (lines 272-287): no empty line is left. */
  function CleanValues(text: string): (values: seq<string>)
    ensures forall k :: 0 <= k < |values| ==> values[k] != ""
  {
    NonEmpty(StreamLines(text))
  }

  /** The cleaned echo stream (lines 273-277): every line but the session's first. */
  function CleanEchoes(text: string): (echoes: seq<string>)
    ensures [StreamLines(text)[0]] + echoes == StreamLines(text)
  {
    StreamLines(text)[1..]
  }

  /** Dropping empty lines distributes over concatenation, so relative order is kept. */
  lemma {:induction false} NonEmptyAppend(a: seq<string>, b: seq<string>)
    ensures NonEmpty(a + b) == NonEmpty(a) + NonEmpty(b)
    decreases |a|
  {
    if |a| == 0 {
      assert a + b == b;
    } else {
      assert (a + b)[1..] == a[1..] + b;
      NonEmptyAppend(a[1..], b);
    }
  }

  /** Every non-empty line survives cleaning as often as it occurs; the empty line never does. */
  lemma {:induction false} NonEmptyCounts(lines: seq<string>)
    ensures multiset(NonEmpty(lines))[""] == 0
    ensures forall x :: x != "" ==> multiset(NonEmpty(lines))[x] == multiset(lines)[x]
    decreases |lines|
  {
    if |lines| > 0 {
      NonEmptyCounts(lines[1..]);
      assert lines == [lines[0]] + lines[1..];
    }
  }

  /** A value line after cleaning: its key and its value, `undefined` when no second word is left. */
  datatype ValueLine = ValueLine(key: string, value: Option<string>)

  /** Lines 300-304: drop the first `;`, turn the first ` = ` into a blank, split on blanks. */
  function ParseValueLine(line: string): (r: ValueLine)
    ensures ' ' !in r.key
    ensures r.value.Some? ==> ' ' !in r.value.value
  {
    var tokens := Split(ReplaceFirst(ReplaceFirst(line, ";", ""), " = ", " "), ' ');
    ValueLine(tokens[0], if |tokens| > 1 then Some(tokens[1]) else None)
  }

  /** Lines 307-309: drop the first `#mbean = `, then the last character, then trim. */
  function ParseEchoLine(line: string): (bean: string)
    ensures |bean| > 0 ==> !IsWhitespace(bean[0]) && !IsWhitespace(bean[|bean| - 1])
  {
    var s := ReplaceFirst(line, "#mbean = ", "");
    Trim(if |s| == 0 then "" else s[..|s| - 1])
  }

  /** A value read off a line with no line break has none either. */
  lemma ValueLineOneLine(line: string)
    requires '\n' !in line
    ensures ParseValueLine(line).value.Some? ==> '\n' !in ParseValueLine(line).value.value
  {
    var s := ReplaceFirst(ReplaceFirst(line, ";", ""), " = ", " ");
    assert '\n' !in ReplaceFirst(line, ";", "");
    assert '\n' !in s;
    SplitKeepsOut(s, ' ', '\n');
  }

  /** The agent's answer `key = value;` cleans back to its key and value. */
  lemma ValueLineRoundTrip(key: string, value: string)
    requires ' ' !in key && ';' !in key
    requires ' ' !in value && ';' !in value
    ensures ParseValueLine(key + " = " + value + ";") == ValueLine(key, Some(value))
  {
    var line := key + " = " + value + ";";
    var n := |key| + 3 + |value|;
    assert line[..n] == key + " = " + value;
    assert line[n..n + 1] == ";";
    IndexOfFirstChar(line, ";", n);
    assert line[n + 1..] == "";
    var s := key + " = " + value;
    assert ReplaceFirst(line, ";", "") == s;
    assert s[..|key|] == key;
    assert s[|key|..|key| + 3] == " = ";
    IndexOfFirstChar(s, " = ", |key|);
    assert s[|key| + 3..] == value;
    var t := key + " " + value;
    assert ReplaceFirst(s, " = ", " ") == t;
    assert t == key + [' '] + value;
    SplitAtSeparator(key, value, ' ');
    SplitNoSeparator(key, ' ');
    SplitNoSeparator(value, ' ');
  }

  /** The agent's echo `#mbean = <bean>:` cleans back to the trimmed bean. */
  lemma EchoLineRoundTrip(bean: string)
    ensures ParseEchoLine("#mbean = " + bean + ":") == Trim(bean)
  {
    var line := "#mbean = " + bean + ":";
    assert line[0..9] == "#mbean = ";
    IndexOfAt(line, "#mbean = ", 0);
    assert line[9..] == bean + ":";
    assert ReplaceFirst(line, "#mbean = ", "") == bean + ":";
    assert (bean + ":")[..|bean|] == bean;
  }

  /** Metric `m` claims the bean and the key: its pattern matches and its key is the key. */
  predicate Resolves(m: Metric, bean: string, key: string) {
    Match(bean, m.pattern).Some? && m.key == key
  }

  /** The first metric from position `from` on that claims the bean and the key. */
  function ResolveFrom(ms: seq<Metric>, bean: string, key: string, from: nat): (r: Option<nat>)
    requires from <= |ms|
    ensures r.Some? ==> from <= r.value < |ms| && Resolves(ms[r.value], bean, key)
    ensures r.Some? ==> forall k :: from <= k < r.value ==> !Resolves(ms[k], bean, key)
    ensures r.None? ==> forall k :: from <= k < |ms| ==> !Resolves(ms[k], bean, key)
    decreases |ms| - from
  {
    if from == |ms| then None
    else if Resolves(ms[from], bean, key) then Some(from)
    else ResolveFrom(ms, bean, key, from + 1)
  }

  /** Lines 315-325: the first metric of the whole table, whatever its state or type, that claims the pair. */
  function Resolve(ms: seq<Metric>, bean: string, key: string): (r: Option<nat>)
    ensures r.Some? ==> r.value < |ms| && Resolves(ms[r.value], bean, key)
    ensures r.Some? ==> forall k :: 0 <= k < r.value ==> !Resolves(ms[k], bean, key)
    ensures r.None? ==> forall k :: 0 <= k < |ms| ==> !Resolves(ms[k], bean, key)
  {
    ResolveFrom(ms, bean, key, 0)
  }

  /** The data point one value line and one echo line stand for, or none when no metric claims them. */
  function Candidate(ms: seq<Metric>, valueLine: string, echoLine: string): (r: Option<DataPoint>)
  {
    var v := ParseValueLine(valueLine);
    var bean := ParseEchoLine(echoLine);
    match Resolve(ms, bean, v.key)
    case None => None
    case Some(j) => Some(DataPoint(ms[j].id, v.value, Match(bean, ms[j].pattern)))
  }

  /** The candidate of every index, pairing the two streams by position. */
  function Candidates(ms: seq<Metric>, values: seq<string>, echoes: seq<string>): (cs: seq<Option<DataPoint>>)
    requires |values| == |echoes|
    ensures |cs| == |values|
  {
    seq(|values|, i requires 0 <= i < |values| => Candidate(ms, values[i], echoes[i]))
  }

  /** The candidate at index `i` is the one of the `i`-th value line and the `i`-th echo line. */
  lemma CandidatesAt(ms: seq<Metric>, values: seq<string>, echoes: seq<string>, i: nat)
    requires |values| == |echoes| && i < |values|
    ensures Candidates(ms, values, echoes)[i] == Candidate(ms, values[i], echoes[i])
  {
  }

  /** The candidates in order, or code 8 at the first index no metric claimed. */
  function Collect(cs: seq<Option<DataPoint>>): (r: Result<seq<DataPoint>>)
    ensures r.Err? ==> r.code == MetricNotFound
  {
    if |cs| == 0 then Ok([])
    else
      match Collect(cs[..|cs| - 1])
      case Err(code) => Err(code)
      case Ok(ds) =>
        match cs[|cs| - 1]
        case None => Err(MetricNotFound)
        case Some(d) => Ok(ds + [d])
  }

  /** The parse of both streams, filtered: lines 270-343 up to the call to `output`. */
  function Parse(ms: seq<Metric>, valuesText: string, echoText: string, terms: seq<string>): (r: Result<seq<DataPoint>>)
    ensures |CleanValues(valuesText)| != |CleanEchoes(echoText)| ==> r == Err(MetricNotFound)
    ensures r.Err? ==> r.code == MetricNotFound
  {
    var values := CleanValues(valuesText);
    var echoes := CleanEchoes(echoText);
    if |values| != |echoes| then Err(MetricNotFound)
    else PairAndFilter(ms, values, echoes, terms)
  }

  /** The cleaned streams of equal length, paired, resolved and filtered. */
  function PairAndFilter(ms: seq<Metric>, values: seq<string>, echoes: seq<string>, terms: seq<string>)
    : (r: Result<seq<DataPoint>>)
    requires |values| == |echoes|
    ensures r.Err? ==> r.code == MetricNotFound
  {
    match Collect(Candidates(ms, values, echoes))
    case Err(code) => Err(code)
    case Ok(ds) => Ok(Keep(ds, terms))
  }

  /** The cleaned value lines hold no line break. */
  lemma CleanValuesOneLine(text: string)
    ensures forall k :: 0 <= k < |CleanValues(text)| ==> '\n' !in CleanValues(text)[k]
  {
    var lines := StreamLines(text);
    var values := CleanValues(text);
    NonEmptyCounts(lines);
    forall k | 0 <= k < |values|
      ensures '\n' !in values[k]
    {
      assert multiset(values)[values[k]] > 0;
      assert values[k] in multiset(lines);
    }
  }

  /** The candidate of a value line with no line break, on a table whose ids have none, prints on one line. */
  lemma CandidateOneLine(ms: seq<Metric>, valueLine: string, echoLine: string)
    requires forall i :: 0 <= i < |ms| ==> '\n' !in ms[i].id
    requires '\n' !in valueLine
    ensures Candidate(ms, valueLine, echoLine).Some? ==> OneLinePoint(Candidate(ms, valueLine, echoLine).value)
  {
    ValueLineOneLine(valueLine);
    var bean := ParseEchoLine(echoLine);
    var v := ParseValueLine(valueLine);
    match Resolve(ms, bean, v.key)
    case None =>
    case Some(j) =>
      var name := Match(bean, ms[j].pattern);
      if name.Some? {
        assert forall k :: 0 <= k < |name.value| ==> name.value[k] != '\n';
      }
  }

  /** When the table's ids hold no line break, neither does any field a parsed data point prints. */
  lemma ParsedPointsAreLines(ms: seq<Metric>, valuesText: string, echoText: string, terms: seq<string>)
    requires forall i :: 0 <= i < |ms| ==> '\n' !in ms[i].id
    ensures Parse(ms, valuesText, echoText, terms).Ok? ==>
      forall k :: 0 <= k < |Parse(ms, valuesText, echoText, terms).value| ==>
        OneLinePoint(Parse(ms, valuesText, echoText, terms).value[k])
  {
    var values := CleanValues(valuesText);
    var echoes := CleanEchoes(echoText);
    if |values| == |echoes| {
      var cs := Candidates(ms, values, echoes);
      CollectExactly(cs);
      CleanValuesOneLine(valuesText);
      if Collect(cs).Ok? {
        var ds := Collect(cs).value;
        forall i | 0 <= i < |ds|
          ensures OneLinePoint(ds[i])
        {
          CandidateOneLine(ms, values[i], echoes[i]);
        }
        var r := Keep(ds, terms);
        assert r == Parse(ms, valuesText, echoText, terms).value;
        forall k | 0 <= k < |r|
          ensures OneLinePoint(r[k])
        {
          assert r[k] in ds;
        }
      }
    }
  }

  /** Collecting succeeds exactly when every index was claimed, and then keeps every candidate in order. */
  lemma {:induction false} CollectExactly(cs: seq<Option<DataPoint>>)
    ensures Collect(cs).Ok? <==> forall i :: 0 <= i < |cs| ==> cs[i].Some?
    ensures Collect(cs).Ok? ==>
      |Collect(cs).value| == |cs| && forall i :: 0 <= i < |cs| ==> Collect(cs).value[i] == cs[i].value
    decreases |cs|
  {
    if |cs| > 0 {
      var n := |cs| - 1;
      CollectExactly(cs[..n]);
      assert forall i :: 0 <= i < n ==> cs[..n][i] == cs[i];
    }
  }

  /** The points of candidates that were all claimed, in order. */
  function Claimed(cs: seq<Option<DataPoint>>): (ds: seq<DataPoint>)
    requires forall i :: 0 <= i < |cs| ==> cs[i].Some?
    ensures |ds| == |cs|
    ensures forall i :: 0 <= i < |cs| ==> cs[i] == Some(ds[i])
  {
    seq(|cs|, i requires 0 <= i < |cs| => cs[i].value)
  }

  /**
   * The parse succeeds exactly when both streams clean to the same length and
   * every index resolves; it then yields the filtered candidates in stream order.
   */
  lemma ParseExactly(ms: seq<Metric>, valuesText: string, echoText: string, terms: seq<string>)
    ensures var values, echoes := CleanValues(valuesText), CleanEchoes(echoText);
      Parse(ms, valuesText, echoText, terms).Ok? <==>
        |values| == |echoes| && forall i :: 0 <= i < |values| ==> Candidates(ms, values, echoes)[i].Some?
    ensures var values, echoes := CleanValues(valuesText), CleanEchoes(echoText);
      Parse(ms, valuesText, echoText, terms).Ok? ==>
        |values| == |echoes| &&
        Parse(ms, valuesText, echoText, terms).value == Keep(Claimed(Candidates(ms, values, echoes)), terms)
  {
    var values, echoes := CleanValues(valuesText), CleanEchoes(echoText);
    if |values| == |echoes| {
      var cs := Candidates(ms, values, echoes);
      CollectExactly(cs);
      if Collect(cs).Ok? {
        assert Collect(cs).value == Claimed(cs);
      }
    }
  }

  /** Collecting two candidates in either order succeeds or fails alike, and reverses the points. */
  lemma CollectSwap(c1: Option<DataPoint>, c2: Option<DataPoint>)
    ensures Collect([c1, c2]).Ok? <==> Collect([c2, c1]).Ok?
    ensures Collect([c1, c2]).Ok? ==> |Collect([c1, c2]).value| == 2
    ensures Collect([c1, c2]).Ok? ==>
      Collect([c2, c1]).value == [Collect([c1, c2]).value[1], Collect([c1, c2]).value[0]]
  {
    CollectExactly([c1, c2]);
    CollectExactly([c2, c1]);
  }

  /**
   * A swapped response still pairs each value with its own metric: resolution
   * depends only on the two lines of one index, never on their position.
   */
  lemma SwappedResponses(ms: seq<Metric>, v1: string, v2: string, e1: string, e2: string)
    ensures Collect(Candidates(ms, [v1, v2], [e1, e2])).Ok? <==> Collect(Candidates(ms, [v2, v1], [e2, e1])).Ok?
    ensures Collect(Candidates(ms, [v1, v2], [e1, e2])).Ok? ==>
      |Collect(Candidates(ms, [v1, v2], [e1, e2])).value| == 2 &&
      Collect(Candidates(ms, [v2, v1], [e2, e1])).value ==
        [Collect(Candidates(ms, [v1, v2], [e1, e2])).value[1], Collect(Candidates(ms, [v1, v2], [e1, e2])).value[0]]
  {
    PairOfCandidates(ms, [v1, v2], [e1, e2]);
    PairOfCandidates(ms, [v2, v1], [e2, e1]);
    CollectSwap(Candidate(ms, v1, e1), Candidate(ms, v2, e2));
  }

  /** Two lines of each stream give the two candidates of their own index. */
  lemma PairOfCandidates(ms: seq<Metric>, values: seq<string>, echoes: seq<string>)
    requires |values| == 2 && |echoes| == 2
    ensures Candidates(ms, values, echoes)
      == [Candidate(ms, values[0], echoes[0]), Candidate(ms, values[1], echoes[1])]
  {
    CandidatesAt(ms, values, echoes, 0);
    CandidatesAt(ms, values, echoes, 1);
    TwoElements(Candidates(ms, values, echoes), Candidate(ms, values[0], echoes[0]), Candidate(ms, values[1], echoes[1]));
  }

  /** A sequence of length two is the display of its two elements. */
  lemma TwoElements<T>(s: seq<T>, a: T, b: T)
    requires |s| == 2 && s[0] == a && s[1] == b
    ensures s == [a, b]
  {
  }

  /** A candidate is the resolved metric's id, the parsed value and the capture from the bean. */
  lemma CandidateResolved(ms: seq<Metric>, valueLine: string, echoLine: string,
                          key: string, value: Option<string>, bean: string, k: nat)
    requires ParseValueLine(valueLine) == ValueLine(key, value)
    requires ParseEchoLine(echoLine) == bean
    requires Resolve(ms, bean, key) == Some(k)
    ensures k < |ms|
    ensures Candidate(ms, valueLine, echoLine) == Some(DataPoint(ms[k].id, value, Match(bean, ms[k].pattern)))
  {
  }

  /**
   * Lock step: when metric `j` discovered `line` and the agent answers its target
   * with `key = value;` and `#mbean = <bean>:`, the pair resolves to a metric no
   * later than `j` with the same key, carrying the value and the capture of the line.
   */
  lemma LockStep(ms: seq<Metric>, j: nat, line: string, value: string)
    requires forall i :: 0 <= i < |ms| ==> Anchored(ms[i].pattern)
    requires j < |ms| && Match(line, ms[j].pattern).Some?
    requires ' ' !in ms[j].key && ';' !in ms[j].key && ' ' !in value && ';' !in value
    ensures var c := Candidate(ms, ms[j].key + " = " + value + ";", "#mbean = " + Trim(line) + ":");
      c.Some? &&
      exists k :: 0 <= k <= j && ms[k].key == ms[j].key && c.value == DataPoint(ms[k].id, Some(value), Match(line, ms[k].pattern))
  {
    var key := ms[j].key;
    var bean := Trim(line);
    ValueLineRoundTrip(key, value);
    EchoLineRoundTrip(bean);
    TrimIdempotent(line);
    MatchTrimmed(line, ms[j].pattern);
    assert Resolves(ms[j], bean, key);
    var r := Resolve(ms, bean, key);
    var k := r.value;
    assert k <= j;
    CandidateResolved(ms, key + " = " + value + ";", "#mbean = " + bean + ":", key, Some(value), bean, k);
    MatchTrimmed(line, ms[k].pattern);
  }

  /** Lines 315-325: scan the table in order and stop at the first metric whose pattern and key both fit. */
  method FindMetric(metrics: array<Metric>, bean: string, key: string)
    returns (found: Option<nat>, objectName: Option<string>)
    ensures found == Resolve(metrics[..], bean, key)
    ensures found.Some? ==> objectName == Match(bean, metrics[found.value].pattern) && objectName.Some?
  {
    ghost var ms := metrics[..];
    var j := 0;
    while j < metrics.Length
      invariant 0 <= j <= metrics.Length
      invariant Resolve(ms, bean, key) == ResolveFrom(ms, bean, key, j)
    {
      var res := Match(bean, metrics[j].pattern);
      if res.Some? && metrics[j].key == key {
        return Some(j), res;
      }
      j := j + 1;
    }
    return None, None;
  }

  /** The first-claim characterisation fixes the resolved index. */
  lemma ResolveUnique(ms: seq<Metric>, bean: string, key: string, found: Option<nat>)
    requires found.Some? ==> found.value < |ms| && Resolves(ms[found.value], bean, key)
    requires found.Some? ==> forall k :: 0 <= k < found.value ==> !Resolves(ms[k], bean, key)
    requires found.None? ==> forall k :: 0 <= k < |ms| ==> !Resolves(ms[k], bean, key)
    ensures Resolve(ms, bean, key) == found
  {
  }

  /** One more claimed index extends the collected points by its candidate. */
  lemma CollectSnoc(cs: seq<Option<DataPoint>>, i: nat, ds: seq<DataPoint>, point: DataPoint)
    requires i < |cs| && Collect(cs[..i]) == Ok(ds) && cs[i] == Some(point)
    ensures Collect(cs[..i + 1]) == Ok(ds + [point])
  {
    assert cs[..i + 1][..i] == cs[..i];
  }

  /** An index no metric claims fails the whole parse with code 8. */
  lemma UnclaimedIndex(ms: seq<Metric>, values: seq<string>, mbeans: seq<string>, terms: seq<string>, i: nat)
    requires |values| == |mbeans| && i < |values|
    requires Candidate(ms, values[i], mbeans[i]).None?
    ensures PairAndFilter(ms, values, mbeans, terms) == Err(MetricNotFound)
  {
    CollectFails(Candidates(ms, values, mbeans), i);
  }

  /** Once every index is collected, the result is the collected points the filter keeps. */
  lemma PairedAll(ms: seq<Metric>, values: seq<string>, mbeans: seq<string>, terms: seq<string>, collected: seq<DataPoint>)
    requires |values| == |mbeans|
    requires Collect(Candidates(ms, values, mbeans)[..|values|]) == Ok(collected)
    ensures PairAndFilter(ms, values, mbeans, terms) == Ok(Keep(collected, terms))
  {
    var cs := Candidates(ms, values, mbeans);
    assert cs[..|values|] == cs;
  }

  /** One more claimed index: the collection grows by its point, the kept points by it when it passes the filter. */
  lemma PairStep(cs: seq<Option<DataPoint>>, i: nat, collected: seq<DataPoint>, point: DataPoint, terms: seq<string>)
    requires i < |cs| && Collect(cs[..i]) == Ok(collected) && cs[i] == Some(point)
    ensures Collect(cs[..i + 1]) == Ok(collected + [point])
    ensures Matches(point.objectName, terms) ==> Keep(collected + [point], terms) == Keep(collected, terms) + [point]
    ensures !Matches(point.objectName, terms) ==> Keep(collected + [point], terms) == Keep(collected, terms)
  {
    CollectSnoc(cs, i, collected, point);
    KeepAppend(collected, [point], terms);
    assert Keep(collected, terms) + [] == Keep(collected, terms);
  }

  /** An unclaimed index makes the whole collection fail. */
  lemma CollectFails(cs: seq<Option<DataPoint>>, i: nat)
    requires i < |cs| && cs[i].None?
    ensures Collect(cs) == Err(MetricNotFound)
  {
    CollectExactly(cs);
  }

  /** Lines 272-287: both streams split into lines, the echo header shifted off, empty values spliced out. */
  method CleanStreams(valuesText: string, echoText: string) returns (values: seq<string>, mbeans: seq<string>)
    ensures values == CleanValues(valuesText)
    ensures mbeans == CleanEchoes(echoText)
  {
    values := StreamLines(valuesText);
    mbeans := StreamLines(echoText);
    mbeans := mbeans[1..];
    values := RemoveEmpty(values);
  }

  /** Lines 298-326 for one index: clean both lines and look up the metric that claims them. */
  method ResolvePair(metrics: array<Metric>, valueLine: string, echoLine: string) returns (point: Option<DataPoint>)
    ensures point == Candidate(metrics[..], valueLine, echoLine)
  {
    var parsed := ParseValueLine(valueLine);
    var bean := ParseEchoLine(echoLine);
    var found, objectName := FindMetric(metrics, bean, parsed.key);
    if found.None? {
      return None;
    }
    var metric := metrics[found.value];
    point := Some(DataPoint(metric.id, parsed.value, objectName));
  }

  /**
   * Lines 296-340: for each index, clean the two lines, find the first metric
   * that claims them, and keep the data point when its object name passes the filter.
   */
  method PairLines(metrics: array<Metric>, values: seq<string>, mbeans: seq<string>, terms: seq<string>)
    returns (r: Result<seq<DataPoint>>)
    requires |values| == |mbeans|
    ensures r == PairAndFilter(metrics[..], values, mbeans, terms)
  {
    ghost var cs := Candidates(metrics[..], values, mbeans);
    ghost var collected: seq<DataPoint> := [];
    var data: seq<DataPoint> := [];
    var i := 0;
    while i < |mbeans|
      invariant 0 <= i <= |mbeans|
      invariant Collect(cs[..i]) == Ok(collected)
      invariant data == Keep(collected, terms)
    {
      var candidate := ResolvePair(metrics, values[i], mbeans[i]);
      if candidate.None? {
        UnclaimedIndex(metrics[..], values, mbeans, terms, i);
        return Err(MetricNotFound);
      }
      var point := candidate.value;
      PairStep(cs, i, collected, point, terms);
      if Matches(point.objectName, terms) {
        data := data + [point];
      }
      collected := collected + [point];
      i := i + 1;
    }
    PairedAll(metrics[..], values, mbeans, terms, collected);
    r := Ok(data);
  }

  /** Lines 270-343: clean, check that the lengths agree (code 8 otherwise), pair. */
  method ParseOutput(metrics: array<Metric>, valuesText: string, echoText: string, terms: seq<string>)
    returns (r: Result<seq<DataPoint>>)
    ensures r == Parse(metrics[..], valuesText, echoText, terms)
  {
    var values, mbeans := CleanStreams(valuesText, echoText);
    if |values| != |mbeans| {
      return Err(MetricNotFound);
    }
    r := PairLines(metrics, values, mbeans, terms);
  }
}
