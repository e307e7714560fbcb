/**
 * The output writer: one line `id|value|object|` per kept data point,
 * lines separated by a newline, no newline after the last.
 */
module Formatter {

  import opened Outcomes
  import opened Text
  import opened Filter

  /** The value as it prints: an undefined value prints as `undefined`. */
  function ValueText(v: Option<string>): string {
    match v
    case Some(s) => s
    case None => "undefined"
  }

  /** The object name as it prints: a null name prints as nothing. */
  function NameText(n: Option<string>): string {
    match n
    case Some(s) => s
    case None => ""
  }

  /** One output line. */
  function Line(d: DataPoint): (l: string)
    ensures '\n' in l <==> '\n' in d.id || '\n' in ValueText(d.value) || '\n' in NameText(d.objectName)
  {
    d.id + "|" + ValueText(d.value) + "|" + NameText(d.objectName) + "|"
  }

  function Lines(ds: seq<DataPoint>): (r: seq<string>)
    ensures |r| == |ds|
    ensures forall k :: 0 <= k < |ds| ==> r[k] == Line(ds[k])
  {
    seq(|ds|, k requires 0 <= k < |ds| => Line(ds[k]))
  }

  /** The whole report: the lines joined by newlines; no data gives the empty text. */
  function Render(ds: seq<DataPoint>): (r: string)
    ensures r == "" <==> |ds| == 0
  {
    if |ds| == 0 then "" else Join(Lines(ds), '\n')
  }

  /** Lines 405-424: the report accumulated point by point, a newline after every point but the last. */
  method Output(data: seq<DataPoint>) returns (out: string)
    ensures out == Render(data)
  {
    out := "";
    var i := 0;
    while i < |data|
      invariant 0 <= i <= |data|
      invariant out == Partial(data, i)
    {
      var point := data[i];
      LineAppended(out, point);
      out := out + point.id;
      out := out + "|";
      out := out + ValueText(point.value);
      out := out + "|";
      out := out + NameText(point.objectName);
      out := out + "|";
      if i < |data| - 1 {
        out := out + "\n";
      }
      PartialStep(data, i);
      i := i + 1;
    }
    assert data[..i] == data;
  }

  /** Appending the fields and separators one by one appends the point's line. */
  lemma LineAppended(before: string, d: DataPoint)
    ensures before + d.id + "|" + ValueText(d.value) + "|" + NameText(d.objectName) + "|" == before + Line(d)
  {
  }

  /** What the loop of Output has written after `i` points. */
  function Partial(data: seq<DataPoint>, i: nat): string
    requires i <= |data|
  {
    if i == 0 then "" else Render(data[..i]) + (if i < |data| then "\n" else "")
  }

  /** One more point extends the report by its line, and a newline unless it is the last. */
  lemma PartialStep(data: seq<DataPoint>, i: nat)
    requires i < |data|
    ensures Partial(data, i + 1)
      == Partial(data, i) + Line(data[i]) + (if i < |data| - 1 then "\n" else "")
  {
    assert Lines(data[..i + 1]) == Lines(data[..i]) + [Line(data[i])];
    if i > 0 {
      JoinSnoc(Lines(data[..i]), Line(data[i]), '\n');
    }
  }

  /** The report splits back on newlines into exactly one line per data point, in order. */
  lemma RenderSplits(ds: seq<DataPoint>)
    requires |ds| > 0
    requires forall k :: 0 <= k < |ds| ==> '\n' !in Line(ds[k])
    ensures Split(Render(ds), '\n') == Lines(ds)
  {
    SplitJoin(Lines(ds), '\n');
  }

  /** A point whose fields hold no line break prints as one line. */
  lemma OneLinePointLine(d: DataPoint)
    requires OneLinePoint(d)
    ensures '\n' !in Line(d)
  {
    assert '\n' !in ValueText(d.value);
    assert '\n' !in NameText(d.objectName);
  }

  /** A report of one-line points splits back on newlines into its lines. */
  lemma RenderOneLinePoints(ds: seq<DataPoint>)
    requires |ds| > 0 && forall k :: 0 <= k < |ds| ==> OneLinePoint(ds[k])
    ensures Split(Render(ds), '\n') == Lines(ds)
  {
    forall k | 0 <= k < |ds|
      ensures '\n' !in Line(ds[k])
    {
      OneLinePointLine(ds[k]);
    }
    RenderSplits(ds);
  }

  /** A line splits back on `|` into id, value and object name, then an empty tail. */
  lemma LineFields(d: DataPoint)
    requires '|' !in d.id && '|' !in ValueText(d.value) && '|' !in NameText(d.objectName)
    ensures Split(Line(d), '|') == [d.id, ValueText(d.value), NameText(d.objectName), ""]
  {
    var a, b, c := d.id, ValueText(d.value), NameText(d.objectName);
    assert Line(d) == a + ['|'] + (b + ['|'] + (c + ['|'] + ""));
    SplitThree(a, b, c, '|');
  }

  /** Three separator-free fields, each closed by the separator, split back into the fields and an empty tail. */
  lemma SplitThree(a: string, b: string, c: string, d: char)
    requires d !in a && d !in b && d !in c
    ensures Split(a + [d] + (b + [d] + (c + [d] + "")), d) == [a, b, c, ""]
  {
    var x := c + [d] + "";
    SplitAtSeparator(c, "", d);
    SplitNoSeparator(c, d);
    var y := b + [d] + x;
    SplitAtSeparator(b, x, d);
    SplitNoSeparator(b, d);
    SplitAtSeparator(a, y, d);
    SplitNoSeparator(a, d);
  }
}
