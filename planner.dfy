/**
 * Query planning: one `get -b <target>` directive per discovered target,
 * taken in catalog order and then in each metric's list order, accumulated
 * into one batch text.
 */
module Planner {

  import opened Text
  import opened Catalog

  /** The directive for one target, with the target inserted literally. */
  function Directive(target: string): string {
    "get -b " + target + "\n"
  }

  /** The directives for a list of targets, in list order. */
  function Directives(ts: seq<string>): string {
    if |ts| == 0 then "" else Directive(ts[0]) + Directives(ts[1..])
  }

  /** Every target of the table: catalog order first, then each list's order. */
  function QueryOrder(ms: seq<Metric>): seq<string> {
    if |ms| == 0 then [] else QueryOrder(ms[..|ms| - 1]) + ms[|ms| - 1].mbeans
  }

  /** The query order of one more metric adds that metric's targets at the end. */
  lemma QueryOrderStep(ms: seq<Metric>, i: nat)
    requires i < |ms|
    ensures QueryOrder(ms[..i + 1]) == QueryOrder(ms[..i]) + ms[i].mbeans
  {
    assert ms[..i + 1][..i] == ms[..i];
  }

  /** The total number of targets in the table. */
  function TotalTargets(ms: seq<Metric>): nat {
    if |ms| == 0 then 0 else TotalTargets(ms[..|ms| - 1]) + |ms[|ms| - 1].mbeans|
  }

  /** The batch text written for the query tool. */
  function Batch(ms: seq<Metric>): string {
    Directives(QueryOrder(ms))
  }

  /**
   * Lines 219-232: the batch accumulated directive by directive, each built by
   * the template replacement of line 229. Without `$` in any target it is the
   * literal batch.
   */
  method BuildBatch(metrics: array<Metric>) returns (getCmds: string)
    ensures getCmds == TemplateBatch(metrics[..])
    ensures NoReplacementPatterns(QueryOrder(metrics[..])) ==> getCmds == Batch(metrics[..])
  {
    getCmds := "";
    var i := 0;
    while i < metrics.Length
      invariant 0 <= i <= metrics.Length
      invariant getCmds == TemplateDirectives(QueryOrder(metrics[..i]))
    {
      var mbeans := metrics[i].mbeans;
      var j := 0;
      assert QueryOrder(metrics[..i]) + mbeans[..0] == QueryOrder(metrics[..i]);
      while j < |mbeans|
        invariant 0 <= j <= |mbeans|
        invariant getCmds == TemplateDirectives(QueryOrder(metrics[..i]) + mbeans[..j])
      {
        var cmd := TemplateDirective(mbeans[j]);
        TemplateDirectivesStep(QueryOrder(metrics[..i]), mbeans, j);
        getCmds := getCmds + cmd;
        j := j + 1;
      }
      assert mbeans[..j] == mbeans;
      QueryOrderStep(metrics[..], i);
      assert metrics[..][..i + 1] == metrics[..i + 1] && metrics[..][..i] == metrics[..i];
      i := i + 1;
    }
    assert metrics[..metrics.Length] == metrics[..];
    if NoReplacementPatterns(QueryOrder(metrics[..])) {
      TemplateBatchLiteral(metrics[..]);
    }
  }

  /** The directives of two target lists are those of each, in order. */
  lemma {:induction false} DirectivesAppend(a: seq<string>, b: seq<string>)
    ensures Directives(a + b) == Directives(a) + Directives(b)
    decreases |a|
  {
    if |a| == 0 {
      assert a + b == b;
    } else {
      assert (a + b)[1..] == a[1..] + b;
      DirectivesAppend(a[1..], b);
    }
  }

  /** One target per directive: the query order is as long as all target lists together. */
  lemma {:induction false} QueryOrderLength(ms: seq<Metric>)
    ensures |QueryOrder(ms)| == TotalTargets(ms)
    decreases |ms|
  {
    if |ms| > 0 {
      QueryOrderLength(ms[..|ms| - 1]);
    }
  }

  /**
   * Read back line by line, the batch is one `get -b` line per target in
   * query order, then the empty piece after the final newline.
   */
  lemma {:induction false} DirectiveLines(ts: seq<string>)
    requires forall k :: 0 <= k < |ts| ==> '\n' !in ts[k]
    ensures Split(Directives(ts), '\n') == seq(|ts|, k requires 0 <= k < |ts| => "get -b " + ts[k]) + [""]
    decreases |ts|
  {
    if |ts| == 0 {
    } else {
      var head := "get -b " + ts[0];
      assert Directives(ts) == head + ['\n'] + Directives(ts[1..]);
      SplitAtSeparator(head, Directives(ts[1..]), '\n');
      assert '\n' !in head by {
        assert forall k :: 0 <= k < 7 ==> head[k] == "get -b "[k];
        assert forall k :: 7 <= k < |head| ==> head[k] == ts[0][k - 7];
      }
      SplitNoSeparator(head, '\n');
      DirectiveLines(ts[1..]);
    }
  }

  /** A query order with no line break in it when no target of the table has one. */
  lemma {:induction false} QueryOrderNoNewline(ms: seq<Metric>)
    requires forall i, k :: 0 <= i < |ms| && 0 <= k < |ms[i].mbeans| ==> '\n' !in ms[i].mbeans[k]
    ensures forall k :: 0 <= k < |QueryOrder(ms)| ==> '\n' !in QueryOrder(ms)[k]
    decreases |ms|
  {
    if |ms| > 0 {
      var n := |ms| - 1;
      QueryOrderNoNewline(ms[..n]);
      forall k | 0 <= k < |QueryOrder(ms)|
        ensures '\n' !in QueryOrder(ms)[k]
      {
        var head := QueryOrder(ms[..n]);
        if k >= |head| {
          assert QueryOrder(ms)[k] == ms[n].mbeans[k - |head|];
        }
      }
    }
  }

  /** The batch of a table has exactly as many directive lines as the table has targets. */
  lemma BatchLines(ms: seq<Metric>)
    requires forall k :: 0 <= k < |QueryOrder(ms)| ==> '\n' !in QueryOrder(ms)[k]
    ensures |QueryOrder(ms)| == TotalTargets(ms)
    ensures |Split(Batch(ms), '\n')| == TotalTargets(ms) + 1
    ensures forall k :: 0 <= k < TotalTargets(ms) ==> Split(Batch(ms), '\n')[k] == "get -b " + QueryOrder(ms)[k]
  {
    DirectiveLines(QueryOrder(ms));
    QueryOrderLength(ms);
  }

  /**
   * What line 229 actually builds: `"get -b {MBEAN}\n".replace(/{MBEAN}/g, target)`
   * reads `$` sequences in the target as replacement patterns.
   */
  function TemplateDirective(target: string): (d: string)
    ensures '$' !in target ==> d == Directive(target)
  {
    "get -b " + Substitute(target) + "\n"
  }

  /**
   * The replacement text for the one match of `{MBEAN}` in the template:
   * `$$` is `$`, `$&` the matched `{MBEAN}`, `` $` `` the text before it,
   * `$'` the text after it; any other `$` stays (the pattern has no groups).
   */
  function Substitute(r: string): (s: string)
    ensures '$' !in r ==> s == r
  {
    if |r| == 0 then ""
    else if r[0] == '$' && |r| >= 2 && (r[1] == '$' || r[1] == '&' || r[1] == '`' || r[1] == '\'') then
      (if r[1] == '$' then "$" else if r[1] == '&' then "{MBEAN}" else if r[1] == '`' then "get -b " else "\n")
      + Substitute(r[2..])
    else
      assert '$' !in r ==> '$' !in r[1..];
      assert [r[0]] + r[1..] == r;
      [r[0]] + Substitute(r[1..])
  }

  /** The directives the loop of lines 221-232 writes for a list of targets, in list order. */
  function TemplateDirectives(ts: seq<string>): string {
    if |ts| == 0 then "" else TemplateDirectives(ts[..|ts| - 1]) + TemplateDirective(ts[|ts| - 1])
  }

  /** One more target of the current metric adds its directive at the end. */
  lemma TemplateDirectivesStep(done: seq<string>, mbeans: seq<string>, j: nat)
    requires j < |mbeans|
    ensures TemplateDirectives(done + mbeans[..j + 1]) == TemplateDirectives(done + mbeans[..j]) + TemplateDirective(mbeans[j])
  {
    var ts := done + mbeans[..j];
    assert done + mbeans[..j + 1] == ts + [mbeans[j]];
    assert (ts + [mbeans[j]])[..|ts|] == ts;
  }

  /** The batch the loop of lines 219-232 writes for the table. */
  function TemplateBatch(ms: seq<Metric>): string {
    TemplateDirectives(QueryOrder(ms))
  }

  /** No target holds `$`, the only character that starts a replacement pattern. */
  predicate NoReplacementPatterns(ts: seq<string>) {
    forall k :: 0 <= k < |ts| ==> '$' !in ts[k]
  }

  /** When no target holds `$`, the template writes every target literally: the batch is `Batch`. */
  lemma TemplateBatchLiteral(ms: seq<Metric>)
    requires NoReplacementPatterns(QueryOrder(ms))
    ensures TemplateBatch(ms) == Batch(ms)
  {
    TemplateDirectivesLiteral(QueryOrder(ms));
  }

  lemma {:induction false} TemplateDirectivesLiteral(ts: seq<string>)
    requires NoReplacementPatterns(ts)
    ensures TemplateDirectives(ts) == Directives(ts)
    decreases |ts|
  {
    if |ts| > 0 {
      var n := |ts| - 1;
      TemplateDirectivesLiteral(ts[..n]);
      DirectivesAppend(ts[..n], [ts[n]]);
      assert ts[..n] + [ts[n]] == ts;
      assert Directives([ts[n]]) == Directive(ts[n]) by {
        assert [ts[n]][1..] == [];
      }
    }
  }

  /** Text without `$` passes through the substitution unchanged in front of whatever follows. */
  lemma {:induction false} SubstitutePrefix(a: string, r: string)
    requires '$' !in a
    ensures Substitute(a + r) == a + Substitute(r)
    decreases |a|
  {
    if |a| == 0 {
      assert a + r == r;
    } else {
      NoDollarTail(a);
      HeadTail(a, r);
      SubstitutePlain(a + r);
      SubstitutePrefix(a[1..], r);
      HeadTail(a, Substitute(r));
    }
  }

  /** Text without `$` starts with a character other than `$` and keeps none in its tail. */
  lemma NoDollarTail(a: string)
    requires |a| > 0 && '$' !in a
    ensures a[0] != '$' && '$' !in a[1..]
  {
    assert a[0] in a;
  }

  /** A first character other than `$` is copied as it is. */
  lemma SubstitutePlain(s: string)
    requires |s| > 0 && s[0] != '$'
    ensures Substitute(s) == [s[0]] + Substitute(s[1..])
  {
  }

  /** A target holding `$&` is written into the batch with the placeholder in place of those two characters. */
  lemma DollarAmpersandCorrupts(a: string, b: string)
    requires '$' !in a && '$' !in b
    ensures TemplateDirective(a + "$&" + b) == "get -b " + a + "{MBEAN}" + b + "\n"
    ensures TemplateDirective(a + "$&" + b) != Directive(a + "$&" + b)
  {
    var r := "$&" + b;
    assert a + "$&" + b == a + r;
    SubstitutePrefix(a, r);
    assert r[0] == '$' && r[1] == '&' && r[2..] == b;
    assert Substitute(r) == "{MBEAN}" + Substitute(b);
    assert |TemplateDirective(a + "$&" + b)| == |a| + |b| + 15;
    assert |Directive(a + "$&" + b)| == |a| + |b| + 10;
  }
}
