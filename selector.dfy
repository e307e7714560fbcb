/**
 * The selection loop: for the requested object type, the enable tokens are
 * applied in order to the metrics of that type only, so token positions are
 * local to the type. Metrics of other types keep their state.
 */
module Selector {

  import opened Outcomes
  import opened Catalog

  /** How many metrics of type `t` the sequence holds. */
  function CountOf(ms: seq<Metric>, t: ObjectType): (n: nat)
    ensures n <= |ms|
  {
    if |ms| == 0 then 0
    else CountOf(ms[..|ms| - 1], t) + (if ms[|ms| - 1].objType == t then 1 else 0)
  }

  /** `tokens[j] === '1'`; a missing token reads as `undefined`, which is not `'1'`. */
  predicate TokenOn(tokens: seq<string>, j: nat) {
    j < |tokens| && tokens[j] == "1"
  }

  /** Position of metric `i` among the metrics of its own type. */
  function Rank(ms: seq<Metric>, i: nat): nat
    requires i < |ms|
  {
    CountOf(ms[..i], ms[i].objType)
  }

  /** The catalog after selecting type `t` with `tokens`. */
  function Selected(ms: seq<Metric>, t: Option<ObjectType>, tokens: seq<string>): (r: seq<Metric>)
    ensures |r| == |ms|
    ensures forall i :: 0 <= i < |ms| ==> r[i].(state := ms[i].state) == ms[i]
    ensures forall i :: 0 <= i < |ms| && t != Some(ms[i].objType) ==> r[i] == ms[i]
  {
    seq(|ms|, i requires 0 <= i < |ms| =>
      if t == Some(ms[i].objType) then ms[i].(state := TokenOn(tokens, Rank(ms, i))) else ms[i])
  }

  /** Lines 142-150: one pass over the table, with a counter of the metrics of the requested type seen so far. */
  method Select(metrics: array<Metric>, t: Option<ObjectType>, tokens: seq<string>)
    modifies metrics
    ensures metrics[..] == Selected(old(metrics[..]), t, tokens)
  {
    ghost var ms := metrics[..];
    var i, j := 0, 0;
    while i < metrics.Length
      invariant 0 <= i <= metrics.Length
      invariant t.Some? ==> j == CountOf(ms[..i], t.value)
      invariant forall k :: 0 <= k < i ==> metrics[k] == Selected(ms, t, tokens)[k]
      invariant forall k :: i <= k < metrics.Length ==> metrics[k] == ms[k]
    {
      assert ms[..i + 1][..i] == ms[..i];
      if t == Some(metrics[i].objType) {
        metrics[i] := metrics[i].(state := TokenOn(tokens, j));
        j := j + 1;
      }
      i := i + 1;
    }
    assert metrics[..] == Selected(ms, t, tokens);
  }

  /** Counting is additive over concatenation. */
  lemma {:induction false} CountOfAppend(a: seq<Metric>, b: seq<Metric>, t: ObjectType)
    ensures CountOf(a + b, t) == CountOf(a, t) + CountOf(b, t)
    decreases |b|
  {
    if |b| == 0 {
      assert a + b == a;
    } else {
      assert (a + b)[..|a + b| - 1] == a + b[..|b| - 1];
      CountOfAppend(a, b[..|b| - 1], t);
    }
  }

  /** Counting over a longer prefix never counts fewer. */
  lemma {:induction false} CountOfMonotone(ms: seq<Metric>, a: nat, b: nat, t: ObjectType)
    requires a <= b <= |ms|
    ensures CountOf(ms[..a], t) <= CountOf(ms[..b], t)
    decreases b - a
  {
    if a < b {
      CountOfMonotone(ms, a, b - 1, t);
      assert ms[..b][..b - 1] == ms[..b - 1];
    }
  }

  /** Two metrics of the same type get different, ordered token positions. */
  lemma RanksIncrease(ms: seq<Metric>, i1: nat, i2: nat)
    requires i1 < i2 < |ms| && ms[i1].objType == ms[i2].objType
    ensures Rank(ms, i1) < Rank(ms, i2)
  {
    var t := ms[i1].objType;
    assert ms[..i1 + 1][..i1] == ms[..i1];
    CountOfMonotone(ms, i1 + 1, i2, t);
  }

  /** Every token position below the number of metrics of a type belongs to one of them. */
  lemma {:induction false} RankCovers(ms: seq<Metric>, t: ObjectType, j: nat)
    requires j < CountOf(ms, t)
    ensures exists i :: 0 <= i < |ms| && ms[i].objType == t && Rank(ms, i) == j
    decreases |ms|
  {
    var n := |ms| - 1;
    var init := ms[..n];
    if j < CountOf(init, t) {
      RankCovers(init, t, j);
      var i :| 0 <= i < |init| && init[i].objType == t && Rank(init, i) == j;
      assert init[..i] == ms[..i];
    } else {
      assert ms[n].objType == t && CountOf(init, t) == j;
      assert ms[..n] == init;
    }
  }

  /**
   * The j-th metric of the selected type is enabled exactly when `tokens[j]` is `"1"`:
   * token positions and metrics of that type correspond one to one.
   */
  lemma SelectedByRank(ms: seq<Metric>, t: ObjectType, tokens: seq<string>, j: nat)
    requires j < CountOf(ms, t)
    ensures exists i :: (0 <= i < |ms| && ms[i].objType == t && Rank(ms, i) == j
      && Selected(ms, Some(t), tokens)[i].state == TokenOn(tokens, j)
      && forall i' :: 0 <= i' < |ms| && i' != i && ms[i'].objType == t ==> Rank(ms, i') != j)
  {
    RankCovers(ms, t, j);
    var i :| 0 <= i < |ms| && ms[i].objType == t && Rank(ms, i) == j;
    forall i' | 0 <= i' < |ms| && i' != i && ms[i'].objType == t
      ensures Rank(ms, i') != j
    {
      if i' < i { RanksIncrease(ms, i', i); } else { RanksIncrease(ms, i, i'); }
    }
  }

  /** A run of one type counts fully; a run of other types counts nothing. */
  lemma {:induction false} CountOfUniform(ms: seq<Metric>, t: ObjectType)
    ensures (forall i :: 0 <= i < |ms| ==> ms[i].objType == t) ==> CountOf(ms, t) == |ms|
    ensures (forall i :: 0 <= i < |ms| ==> ms[i].objType != t) ==> CountOf(ms, t) == 0
    decreases |ms|
  {
    if |ms| > 0 {
      CountOfUniform(ms[..|ms| - 1], t);
    }
  }

  /** In the declared catalog, each metric's token position is its offset within its type's group. */
  lemma CatalogRanks()
    ensures forall i :: 0 <= i < 5 ==> Rank(Definitions(), i) == i
    ensures forall i :: 5 <= i < 14 ==> Rank(Definitions(), i) == i - 5
    ensures forall i :: 14 <= i < 17 ==> Rank(Definitions(), i) == i - 14
  {
    var d := Definitions();
    CatalogLayout();
    forall i | 0 <= i < 5 ensures Rank(d, i) == i {
      CountOfUniform(d[..i], Context);
    }
    forall i | 5 <= i < 14 ensures Rank(d, i) == i - 5 {
      GroupRank(d, 5, i, Connector);
    }
    forall i | 14 <= i < 17 ensures Rank(d, i) == i - 14 {
      GroupRank(d, 14, i, WebModule);
    }
  }

  /** Inside a group of one type that follows only other types, rank is the offset in the group. */
  lemma GroupRank(ms: seq<Metric>, g: nat, i: nat, t: ObjectType)
    requires g <= i < |ms|
    requires forall k :: 0 <= k < g ==> ms[k].objType != t
    requires forall k :: g <= k <= i ==> ms[k].objType == t
    ensures Rank(ms, i) == i - g
  {
    assert ms[..i] == ms[..g] + ms[g..i];
    CountOfAppend(ms[..g], ms[g..i], t);
    CountOfUniform(ms[..g], t);
    CountOfUniform(ms[g..i], t);
  }

  /** On the declared catalog: token j of type 1, 2 or 3 drives metric j, 5 + j or 14 + j. */
  lemma CatalogSelection(tokens: seq<string>)
    ensures forall i :: 0 <= i < 5 ==>
      Selected(Definitions(), Some(Context), tokens)[i].state == TokenOn(tokens, i)
    ensures forall i :: 5 <= i < 14 ==>
      Selected(Definitions(), Some(Connector), tokens)[i].state == TokenOn(tokens, i - 5)
    ensures forall i :: 14 <= i < 17 ==>
      Selected(Definitions(), Some(WebModule), tokens)[i].state == TokenOn(tokens, i - 14)
  {
    CatalogLayout();
    CatalogRanks();
  }
}
