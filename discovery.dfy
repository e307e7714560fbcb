/**
 * Bean discovery: every line of the raw bean dump is matched against the
 * pattern of every enabled metric of the requested type, and each match
 * appends the query target `<trimmed line> <key>` to that metric.
 */
module Discovery {

  import opened Outcomes
  import opened Text
  import opened Patterns
  import opened Catalog

  /** `metric.object === request.type && metric.state`. */
  predicate Enabled(m: Metric, t: Option<ObjectType>) {
    t == Some(m.objType) && m.state
  }

  /** The lines of the dump: `stdout.trim().split('\n')`. */
  function DumpLines(dump: string): (lines: seq<string>)
    ensures |lines| >= 1
    ensures forall i :: 0 <= i < |lines| ==> '\n' !in lines[i]
  {
    Split(Trim(dump), '\n')
  }

  /** The query target recorded for a matching line. */
  function Target(line: string, key: string): string {
    Trim(line) + " " + key
  }

  /** The targets metric `m` gets from `lines`, one per matching line, in line order. */
  function Targets(m: Metric, lines: seq<string>): seq<string> {
    if |lines| == 0 then []
    else
      var last := lines[|lines| - 1];
      Targets(m, lines[..|lines| - 1]) + (if Match(last, m.pattern).Some? then [Target(last, m.key)] else [])
  }

  /** The line a given target came from: one the metric's pattern matches. */
  lemma {:induction false} TargetOrigin(m: Metric, lines: seq<string>, k: nat) returns (i: nat)
    requires k < |Targets(m, lines)|
    ensures i < |lines| && Match(lines[i], m.pattern).Some? && Targets(m, lines)[k] == Target(lines[i], m.key)
    decreases |lines|
  {
    var n := |lines| - 1;
    var init := Targets(m, lines[..n]);
    assert Targets(m, lines) == init + (if Match(lines[n], m.pattern).Some? then [Target(lines[n], m.key)] else []);
    if k < |init| {
      i := TargetOrigin(m, lines[..n], k);
      assert lines[..n][i] == lines[i];
    } else {
      i := n;
    }
  }

  /** `t` is the target of some line of `lines` that the pattern of `m` matches. */
  predicate FromMatchingLine(m: Metric, lines: seq<string>, t: string) {
    exists i :: 0 <= i < |lines| && Match(lines[i], m.pattern).Some? && t == Target(lines[i], m.key)
  }

  /** Every target comes from a line of the dump that the metric's pattern matches. */
  lemma TargetsSound(m: Metric, lines: seq<string>)
    ensures forall k :: 0 <= k < |Targets(m, lines)| ==> FromMatchingLine(m, lines, Targets(m, lines)[k])
  {
    forall k | 0 <= k < |Targets(m, lines)|
      ensures FromMatchingLine(m, lines, Targets(m, lines)[k])
    {
      var i := TargetOrigin(m, lines, k);
    }
  }

  /** The table after discovery: enabled metrics gain their targets at the end of their lists. */
  function Discovered(ms: seq<Metric>, t: Option<ObjectType>, lines: seq<string>): (r: seq<Metric>)
    ensures |r| == |ms|
    ensures forall i :: 0 <= i < |ms| ==> r[i].(mbeans := ms[i].mbeans) == ms[i]
    ensures forall i :: 0 <= i < |ms| ==> |ms[i].mbeans| <= |r[i].mbeans| && r[i].mbeans[..|ms[i].mbeans|] == ms[i].mbeans
    ensures forall i :: 0 <= i < |ms| && !Enabled(ms[i], t) ==> r[i] == ms[i]
  {
    seq(|ms|, i requires 0 <= i < |ms| =>
      if Enabled(ms[i], t) then ms[i].(mbeans := ms[i].mbeans + Targets(ms[i], lines)) else ms[i])
  }

  /** Lines 197-217: for each enabled metric, scan the dump and push a target per match. */
  method Discover(metrics: array<Metric>, t: Option<ObjectType>, dump: string)
    modifies metrics
    ensures metrics[..] == Discovered(old(metrics[..]), t, DumpLines(dump))
  {
    ghost var ms := metrics[..];
    var lines := Split(Trim(dump), '\n');
    ghost var goal := Discovered(ms, t, lines);
    var j := 0;
    while j < metrics.Length
      invariant 0 <= j <= metrics.Length
      invariant forall k :: 0 <= k < j ==> metrics[k] == goal[k]
      invariant forall k :: j <= k < metrics.Length ==> metrics[k] == ms[k]
    {
      var metric := metrics[j];
      if t == Some(metric.objType) && metric.state {
        var mbeans := ScanDump(metric, lines);
        metrics[j] := metric.(mbeans := mbeans);
        assert metrics[j] == goal[j];
      } else {
        assert goal[j] == ms[j];
      }
      j := j + 1;
    }
    assert metrics[..] == goal;
  }

  /** Lines 204-215: one metric's pass over the dump, pushing a target for every line its pattern matches. */
  method ScanDump(metric: Metric, lines: seq<string>) returns (mbeans: seq<string>)
    ensures mbeans == metric.mbeans + Targets(metric, lines)
  {
    mbeans := metric.mbeans;
    var i := 0;
    while i < |lines|
      invariant 0 <= i <= |lines|
      invariant mbeans == metric.mbeans + Targets(metric, lines[..i])
    {
      var line := lines[i];
      var result := Match(line, metric.pattern);
      if result.Some? {
        var mbean := Trim(line) + " " + metric.key;
        mbeans := mbeans + [mbean];
      }
      assert lines[..i + 1][..i] == lines[..i];
      i := i + 1;
    }
    assert lines[..|lines|] == lines;
  }

  /** Discovery is stable: the targets of two dump fragments are those of each, in order. */
  lemma {:induction false} TargetsAppend(m: Metric, a: seq<string>, b: seq<string>)
    ensures Targets(m, a + b) == Targets(m, a) + Targets(m, b)
    decreases |b|
  {
    if |b| == 0 {
      assert a + b == a;
    } else {
      assert (a + b)[..|a + b| - 1] == a + b[..|b| - 1];
      TargetsAppend(m, a, b[..|b| - 1]);
    }
  }

  /** Positions of the lines the pattern of `m` matches. */
  function MatchingLines(m: Metric, lines: seq<string>): set<nat> {
    set i: nat | i < |lines| && Match(lines[i], m.pattern).Some?
  }

  /** Extending the lines by one adds its position exactly when it matches. */
  lemma MatchingLinesSnoc(m: Metric, lines: seq<string>)
    requires |lines| > 0
    ensures var n := |lines| - 1;
      MatchingLines(m, lines) == MatchingLines(m, lines[..n]) + (if Match(lines[n], m.pattern).Some? then {n} else {})
  {
    var n := |lines| - 1;
    var init := lines[..n];
    assert forall i :: 0 <= i < n ==> init[i] == lines[i];
  }

  /** Exactly one target per matching line. */
  lemma {:induction false} TargetsCount(m: Metric, lines: seq<string>)
    ensures |Targets(m, lines)| == |MatchingLines(m, lines)|
    decreases |lines|
  {
    if |lines| > 0 {
      var n := |lines| - 1;
      TargetsCount(m, lines[..n]);
      MatchingLinesSnoc(m, lines);
      assert n !in MatchingLines(m, lines[..n]);
    } else {
      assert MatchingLines(m, lines) == {};
    }
  }

  /** A target holds no newline when neither the line nor the key does. */
  lemma TargetShape(line: string, key: string)
    requires '\n' !in line && '\n' !in key
    ensures '\n' !in Target(line, key)
  {
    var a := LeadingWhitespace(line);
    var t := Trim(line);
    assert forall k :: 0 <= k < |t| ==> t[k] == line[a + k];
  }

  /** Lines free of newlines and a newline-free key give newline-free targets. */
  lemma {:induction false} TargetsHaveNoNewline(m: Metric, lines: seq<string>)
    requires '\n' !in m.key
    requires forall i :: 0 <= i < |lines| ==> '\n' !in lines[i]
    ensures forall k :: 0 <= k < |Targets(m, lines)| ==> '\n' !in Targets(m, lines)[k]
    decreases |lines|
  {
    if |lines| > 0 {
      var n := |lines| - 1;
      TargetsHaveNoNewline(m, lines[..n]);
      TargetShape(lines[n], m.key);
    }
  }
}
