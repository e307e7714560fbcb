/**
 * The reconstructed data points and the object filter: a case-insensitive
 * substring test of the object name against a list of terms.
 */
module Filter {

  import opened Outcomes
  import opened Text

  /** A resolved metric id, its value (`undefined` when the value line had no value) and its object name. */
  datatype DataPoint = DataPoint(id: string, value: Option<string>, objectName: Option<string>)

  /** A data point none of whose printed fields holds a line break. */
  predicate OneLinePoint(d: DataPoint) {
    '\n' !in d.id
    && (d.value.Some? ==> '\n' !in d.value.value)
    && (d.objectName.Some? ==> '\n' !in d.objectName.value)
  }

  /** How line 357 compares text: trimmed, then lower-cased. */
  function Normalize(s: string): string {
    Lower(Trim(s))
  }

  /** The search loop of lines 353-361: does some term occur in the object name? */
  function AnyTermIn(name: string, terms: seq<string>): (r: bool)
    ensures r <==> exists i :: 0 <= i < |terms| && Contains(Normalize(name), Normalize(terms[i]))
  {
    if |terms| == 0 then false
    else if Contains(Normalize(name), Normalize(terms[0])) then true
    else
      TermsTail(name, terms);
      AnyTermIn(name, terms[1..])
  }

  /** A term occurs among all but the first exactly when it occurs in the tail of the list. */
  lemma TermsTail(name: string, terms: seq<string>)
    requires |terms| > 0
    ensures (exists i :: 1 <= i < |terms| && Contains(Normalize(name), Normalize(terms[i])))
      <==> (exists i :: 0 <= i < |terms[1..]| && Contains(Normalize(name), Normalize(terms[1..][i])))
  {
    if exists i :: 0 <= i < |terms[1..]| && Contains(Normalize(name), Normalize(terms[1..][i])) {
      var i :| 0 <= i < |terms[1..]| && Contains(Normalize(name), Normalize(terms[1..][i]));
      assert terms[1..][i] == terms[i + 1];
    }
    if exists i :: 1 <= i < |terms| && Contains(Normalize(name), Normalize(terms[i])) {
      var i :| 1 <= i < |terms| && Contains(Normalize(name), Normalize(terms[i]));
      assert terms[1..][i - 1] == terms[i];
    }
  }

  /** `match(matchValue, matchList)`: an empty list or a null name passes; otherwise some term must occur. */
  function Matches(name: Option<string>, terms: seq<string>): (r: bool)
    ensures |terms| == 0 ==> r
    ensures name.None? ==> r
    ensures name.Some? && |terms| > 0 ==>
      (r <==> exists i :: 0 <= i < |terms| && Contains(Normalize(name.value), Normalize(terms[i])))
  {
    if |terms| == 0 || name.None? then true else AnyTermIn(name.value, terms)
  }

  /** Line 131: comparing the argument string with `0` never succeeds, so the argument is always split on `;`. */
  function FilterTerms(arg: string): (terms: seq<string>)
    ensures |terms| >= 1
  {
    Split(arg, ';')
  }

  /** An empty filter argument becomes `[""]`, and the empty term occurs in every name. */
  lemma EmptyFilterPassesAll(name: Option<string>)
    ensures FilterTerms("") == [""]
    ensures Matches(name, FilterTerms(""))
  {
    assert Normalize("") == "";
    if name.Some? {
      IndexOfAt(Normalize(name.value), "", 0);
    }
  }

  /** Case does not matter: the term `ROOT` selects the object `root-app`. */
  lemma FilterIgnoresCase()
    ensures Matches(Some("root-app"), ["ROOT"])
  {
    TrimOfTrimmed("ROOT");
    TrimOfTrimmed("root-app");
    assert Normalize("ROOT") == "root";
    assert Normalize("root-app") == "root-app";
    assert "root-app"[0..4] == "root";
    IndexOfAt("root-app", "root", 0);
  }

  /** Text that differs only in case compares alike. */
  lemma NormalizeCaseless(s: string, t: string)
    requires SameUpToCase(s, t)
    ensures Normalize(s) == Normalize(t)
  {
    TrimCaseless(s, t);
  }

  /**
   * The filter ignores case on both sides: changing the case of the object
   * name or of any term never changes whether the name passes.
   */
  lemma MatchesIgnoresCase(name: Option<string>, name': Option<string>, terms: seq<string>, terms': seq<string>)
    requires name.Some? <==> name'.Some?
    requires name.Some? ==> SameUpToCase(name.value, name'.value)
    requires |terms| == |terms'| && forall i :: 0 <= i < |terms| ==> SameUpToCase(terms[i], terms'[i])
    ensures Matches(name, terms) == Matches(name', terms')
  {
    if name.Some? && |terms| > 0 {
      NormalizeCaseless(name.value, name'.value);
      forall i | 0 <= i < |terms| ensures Normalize(terms[i]) == Normalize(terms'[i]) {
        NormalizeCaseless(terms[i], terms'[i]);
      }
      if Matches(name, terms) {
        var i :| 0 <= i < |terms| && Contains(Normalize(name.value), Normalize(terms[i]));
        assert Contains(Normalize(name'.value), Normalize(terms'[i]));
      }
      if Matches(name', terms') {
        var i :| 0 <= i < |terms'| && Contains(Normalize(name'.value), Normalize(terms'[i]));
        assert Contains(Normalize(name.value), Normalize(terms[i]));
      }
    }
  }

  /** In particular a lower-cased object name passes exactly when the name does. */
  lemma MatchesLowered(name: string, terms: seq<string>)
    ensures Matches(Some(Lower(name)), terms) == Matches(Some(name), terms)
  {
    LowerIdempotent(name);
    MatchesIgnoresCase(Some(name), Some(Lower(name)), terms, terms);
  }

  /** The data points the filter keeps, in their original order. */
  function Keep(ds: seq<DataPoint>, terms: seq<string>): (r: seq<DataPoint>)
    ensures |r| <= |ds|
    ensures forall k :: 0 <= k < |r| ==> r[k] in ds && Matches(r[k].objectName, terms)
  {
    if |ds| == 0 then []
    else
      var last := ds[|ds| - 1];
      Keep(ds[..|ds| - 1], terms) + (if Matches(last.objectName, terms) then [last] else [])
  }

  /** Nothing that passes is dropped: when every point passes, all are kept. */
  lemma {:induction false} KeepAll(ds: seq<DataPoint>, terms: seq<string>)
    requires forall k :: 0 <= k < |ds| ==> Matches(ds[k].objectName, terms)
    ensures Keep(ds, terms) == ds
    decreases |ds|
  {
    if |ds| > 0 {
      var n := |ds| - 1;
      KeepAll(ds[..n], terms);
      assert Matches(ds[n].objectName, terms);
      assert ds[..n] + [ds[n]] == ds;
    }
  }

  /** An empty filter list keeps every data point. */
  lemma KeepWithoutFilter(ds: seq<DataPoint>)
    ensures Keep(ds, []) == ds
  {
    KeepAll(ds, []);
  }

  /** Filtering is done point by point: it distributes over concatenation. */
  lemma {:induction false} KeepAppend(a: seq<DataPoint>, b: seq<DataPoint>, terms: seq<string>)
    ensures Keep(a + b, terms) == Keep(a, terms) + Keep(b, terms)
    decreases |b|
  {
    if |b| == 0 {
      assert a + b == a;
    } else {
      assert (a + b)[..|a + b| - 1] == a + b[..|b| - 1];
      KeepAppend(a, b[..|b| - 1], terms);
    }
  }
}
