/**
 * The regular expressions of the metric catalog. Every catalog pattern is a
 * literal prefix, the group `(.*)`, and a literal suffix, with no
 * metacharacter in either literal, and `line.match(pattern)` searches without
 * anchors. JavaScript's matcher takes the leftmost start at which the pattern
 * matches and, there, the longest capture (`.*` is greedy); `.` accepts any
 * character but a line terminator.
 */
module Patterns {

  import opened Outcomes
  import opened Text

  /** The pattern `prefix(.*)suffix`. */
  datatype Pattern = Pattern(prefix: string, suffix: string)

  /** Where a match starts in the subject and how long its capture is. */
  datatype Span = Span(start: nat, len: nat)

  /** `prefix`, then `len` characters that `.` accepts, then `suffix` occur in `s` from position `i`. */
  predicate MatchesAt(s: string, p: Pattern, i: nat, len: nat) {
    var c := i + |p.prefix|;
    var e := c + len;
    && e + |p.suffix| <= |s|
    && s[i..c] == p.prefix
    && (forall k :: c <= k < e ==> !IsLineTerminator(s[k]))
    && s[e..e + |p.suffix|] == p.suffix
  }

  /** The span JavaScript reports: leftmost start, and at that start the longest capture. */
  ghost predicate IsLeftmostGreedy(s: string, p: Pattern, sp: Span) {
    && MatchesAt(s, p, sp.start, sp.len)
    && (forall j: nat, l: nat :: j < sp.start ==> !MatchesAt(s, p, j, l))
    && (forall l: nat :: sp.len < l ==> !MatchesAt(s, p, sp.start, l))
  }

  /** Length of the run of characters `.` accepts, starting at `c`. */
  function Run(s: string, c: nat): (n: nat)
    requires c <= |s|
    ensures c + n <= |s|
    ensures forall k :: c <= k < c + n ==> !IsLineTerminator(s[k])
    ensures c + n < |s| ==> IsLineTerminator(s[c + n])
    decreases |s| - c
  {
    if c < |s| && !IsLineTerminator(s[c]) then 1 + Run(s, c + 1) else 0
  }

  /** Backtracking of `.*` at start `i`: the longest capture of at most `len` characters that lets the suffix follow. */
  function Longest(s: string, p: Pattern, i: nat, len: nat): (r: Option<nat>)
    requires i + |p.prefix| + len <= |s|
    requires s[i..i + |p.prefix|] == p.prefix
    requires forall k :: i + |p.prefix| <= k < i + |p.prefix| + len ==> !IsLineTerminator(s[k])
    ensures r.Some? ==> r.value <= len && MatchesAt(s, p, i, r.value)
    ensures r.Some? ==> forall l: nat :: r.value < l <= len ==> !MatchesAt(s, p, i, l)
    ensures r.None? ==> forall l: nat :: l <= len ==> !MatchesAt(s, p, i, l)
    decreases len
  {
    var e := i + |p.prefix| + len;
    if e + |p.suffix| <= |s| && s[e..e + |p.suffix|] == p.suffix then
      Some(len)
    else if len == 0 then None
    else
      var r := Longest(s, p, i, len - 1);
      assert !MatchesAt(s, p, i, len);
      r
  }

  /** No capture can run past the first line terminator after the prefix. */
  lemma BeyondRun(s: string, p: Pattern, i: nat, l: nat)
    requires i + |p.prefix| <= |s|
    requires l > Run(s, i + |p.prefix|)
    ensures !MatchesAt(s, p, i, l)
  {
    var c := i + |p.prefix|;
    var n := Run(s, c);
    if c + n < |s| {
      assert IsLineTerminator(s[c + n]);
    }
  }

  /** The regex attempted at one start position. */
  function AtStart(s: string, p: Pattern, i: nat): (r: Option<nat>)
    ensures r.Some? ==> MatchesAt(s, p, i, r.value)
    ensures r.Some? ==> forall l: nat :: r.value < l ==> !MatchesAt(s, p, i, l)
    ensures r.None? ==> forall l: nat :: !MatchesAt(s, p, i, l)
  {
    var c := i + |p.prefix|;
    if c <= |s| && s[i..c] == p.prefix then
      var n := Run(s, c);
      var r := Longest(s, p, i, n);
      assert forall l: nat :: n < l ==> !MatchesAt(s, p, i, l) by {
        forall l: nat | n < l ensures !MatchesAt(s, p, i, l) {
          BeyondRun(s, p, i, l);
        }
      }
      r
    else None
  }

  /** The unanchored search, trying start positions from `i` on. */
  function FindFrom(s: string, p: Pattern, i: nat): (r: Option<Span>)
    ensures r.Some? ==> i <= r.value.start && MatchesAt(s, p, r.value.start, r.value.len)
    ensures r.Some? ==> forall j: nat, l: nat :: i <= j < r.value.start ==> !MatchesAt(s, p, j, l)
    ensures r.Some? ==> forall l: nat :: r.value.len < l ==> !MatchesAt(s, p, r.value.start, l)
    ensures r.None? ==> forall j: nat, l: nat :: i <= j ==> !MatchesAt(s, p, j, l)
    decreases |s| + 1 - i
  {
    if i > |s| then None
    else
      match AtStart(s, p, i)
      case Some(l) => Some(Span(i, l))
      case None => FindFrom(s, p, i + 1)
  }

  /** Where `s.match(p)` matches, if anywhere. */
  function Find(s: string, p: Pattern): (r: Option<Span>)
    ensures r.Some? ==> IsLeftmostGreedy(s, p, r.value)
    ensures r.None? ==> forall j: nat, l: nat :: !MatchesAt(s, p, j, l)
  {
    FindFrom(s, p, 0)
  }

  /** The text of the capture group of a span that matches. */
  function Capture(s: string, p: Pattern, sp: Span): (c: string)
    requires MatchesAt(s, p, sp.start, sp.len)
    ensures |c| == sp.len
    ensures OccursAt(s, p.prefix + c + p.suffix, sp.start)
  {
    var c := s[sp.start + |p.prefix|..sp.start + |p.prefix| + sp.len];
    assert s[sp.start..sp.start + |p.prefix| + sp.len + |p.suffix|] == p.prefix + c + p.suffix;
    c
  }

  /** `s.match(p)`: null, or the text of capture group 1. */
  function Match(s: string, p: Pattern): (r: Option<string>)
    ensures r.Some? ==> forall k :: 0 <= k < |r.value| ==> !IsLineTerminator(r.value[k])
  {
    match Find(s, p)
    case None => None
    case Some(sp) => Some(Capture(s, p, sp))
  }

  /** The pattern matches somewhere exactly when `s.match(p)` is not null. */
  lemma MatchIff(s: string, p: Pattern)
    ensures Match(s, p).Some? <==> exists j: nat, l: nat :: MatchesAt(s, p, j, l)
  {
  }

  /** There is exactly one leftmost-greedy span, and Find reports it. */
  lemma FindExactly(s: string, p: Pattern, sp: Span)
    ensures Find(s, p) == Some(sp) <==> IsLeftmostGreedy(s, p, sp)
  {
    if IsLeftmostGreedy(s, p, sp) {
      assert MatchesAt(s, p, sp.start, sp.len);
      var q := Find(s, p).value;
      assert !(q.start < sp.start) && !(sp.start < q.start);
      assert !(q.len < sp.len) && !(sp.len < q.len);
    }
  }

  /** On success the subject holds prefix, capture and suffix side by side; conversely any such occurrence is found. */
  lemma MatchOccurrence(s: string, p: Pattern, c: string)
    requires Match(s, p) == Some(c)
    ensures exists i: nat :: OccursAt(s, p.prefix + c + p.suffix, i)
    ensures forall k :: 0 <= k < |c| ==> !IsLineTerminator(c[k])
  {
    var sp := Find(s, p).value;
    assert OccursAt(s, p.prefix + c + p.suffix, sp.start);
  }

  lemma OccurrenceMatches(s: string, p: Pattern, c: string, i: nat)
    requires OccursAt(s, p.prefix + c + p.suffix, i)
    requires forall k :: 0 <= k < |c| ==> !IsLineTerminator(c[k])
    ensures Match(s, p).Some?
  {
    var w := p.prefix + c + p.suffix;
    var a := i + |p.prefix|;
    var e := a + |c|;
    assert s[i..i + |w|] == w;
    assert forall k :: i <= k < i + |w| ==> s[k] == w[k - i];
    assert s[i..a] == p.prefix;
    assert forall k :: a <= k < e ==> s[k] == c[k - a];
    assert s[e..e + |p.suffix|] == p.suffix;
    assert MatchesAt(s, p, i, |c|);
  }

  /** Both literal parts are non-empty and the whole pattern starts and ends with a non-whitespace character. */
  predicate Anchored(p: Pattern) {
    && |p.prefix| > 0 && !IsWhitespace(p.prefix[0])
    && |p.suffix| > 0 && !IsWhitespace(p.suffix[|p.suffix| - 1])
  }

  /** A match inside a window `t` of `s` is a match of `s` shifted by the window's offset, and back. */
  lemma MatchesInWindow(s: string, t: string, a: nat, p: Pattern, i: nat, l: nat)
    requires a + |t| <= |s| && s[a..a + |t|] == t
    ensures MatchesAt(t, p, i, l) ==> MatchesAt(s, p, i + a, l)
    ensures MatchesAt(s, p, i + a, l) && i + |p.prefix| + l + |p.suffix| <= |t| ==> MatchesAt(t, p, i, l)
  {
    var c := i + |p.prefix|;
    var e := c + l;
    if e + |p.suffix| <= |t| {
      forall k | 0 <= k < |t| ensures t[k] == s[a + k] {
        assert t[k] == s[a..a + |t|][k];
      }
      SliceOfSlice(s, a, a + |t|, i, c);
      SliceOfSlice(s, a, a + |t|, e, e + |p.suffix|);
      assert (forall k :: c <= k < e ==> !IsLineTerminator(t[k]))
        <==> (forall k :: c + a <= k < e + a ==> !IsLineTerminator(s[k]));
    }
  }

  /** A match of an anchored pattern lies inside the trimmed part of the subject. */
  lemma MatchWithinTrim(s: string, p: Pattern, j: nat, l: nat)
    requires Anchored(p) && MatchesAt(s, p, j, l)
    ensures LeadingWhitespace(s) <= j
    ensures j + |p.prefix| + l + |p.suffix| <= LeadingWhitespace(s) + |Trim(s)|
  {
    var a := LeadingWhitespace(s);
    var b := a + |Trim(s)|;
    var e := j + |p.prefix| + l + |p.suffix|;
    assert s[j] == p.prefix[0];
    assert s[e - 1] == p.suffix[|p.suffix| - 1];
    assert forall k :: 0 <= k < a ==> s[..a][k] == s[k];
    assert forall k :: b <= k < |s| ==> s[b..][k - b] == s[k];
  }

  /** The leftmost-greedy span of a subject, when it lies inside a window, is the window's own, shifted. */
  lemma WindowLeftmost(s: string, t: string, a: nat, p: Pattern, sp: Span)
    requires a + |t| <= |s| && s[a..a + |t|] == t
    requires IsLeftmostGreedy(s, p, sp)
    requires a <= sp.start && sp.start + |p.prefix| + sp.len + |p.suffix| <= a + |t|
    ensures IsLeftmostGreedy(t, p, Span(sp.start - a, sp.len))
  {
    var i := sp.start - a;
    MatchesInWindow(s, t, a, p, i, sp.len);
    forall j: nat, l: nat | j < i ensures !MatchesAt(t, p, j, l) {
      MatchesInWindow(s, t, a, p, j, l);
      assert !MatchesAt(s, p, j + a, l);
    }
    forall l: nat | sp.len < l ensures !MatchesAt(t, p, i, l) {
      MatchesInWindow(s, t, a, p, i, l);
      assert !MatchesAt(s, p, sp.start, l);
    }
  }

  /** Trimming keeps the leftmost-greedy span of an anchored pattern, shifted by the leading whitespace. */
  lemma TrimmedLeftmost(s: string, p: Pattern, sp: Span)
    requires Anchored(p) && IsLeftmostGreedy(s, p, sp)
    ensures sp.start >= LeadingWhitespace(s)
    ensures IsLeftmostGreedy(Trim(s), p, Span(sp.start - LeadingWhitespace(s), sp.len))
  {
    var t, a := Trim(s), LeadingWhitespace(s);
    assert a + |t| <= |s| && s[a..a + |t|] == t;
    MatchWithinTrim(s, p, sp.start, sp.len);
    WindowLeftmost(s, t, a, p, sp);
  }

  /** Where the trimmed subject matches an anchored pattern, given where the subject does. */
  lemma TrimmedFind(s: string, p: Pattern, sp: Span)
    requires Anchored(p) && Find(s, p) == Some(sp)
    ensures sp.start >= LeadingWhitespace(s)
    ensures Find(Trim(s), p) == Some(Span(sp.start - LeadingWhitespace(s), sp.len))
  {
    FindExactly(s, p, sp);
    TrimmedLeftmost(s, p, sp);
    FindExactly(Trim(s), p, Span(sp.start - LeadingWhitespace(s), sp.len));
  }

  /**
   * Trimming the subject does not change what an anchored pattern captures:
   * discovery matches raw dump lines, the echo stream reports them trimmed.
   */
  lemma MatchTrimmed(s: string, p: Pattern)
    requires Anchored(p)
    ensures Match(Trim(s), p) == Match(s, p)
  {
    match Find(s, p)
    case None =>
      WindowNone(s, Trim(s), LeadingWhitespace(s), p);
    case Some(sp) =>
      TrimmedCapture(s, p, sp);
  }

  /** Where the subject matches an anchored pattern, the trimmed subject captures the same text. */
  lemma TrimmedCapture(s: string, p: Pattern, sp: Span)
    requires Anchored(p) && Find(s, p) == Some(sp)
    ensures Match(Trim(s), p) == Some(Capture(s, p, sp))
  {
    TrimmedFind(s, p, sp);
    FindExactly(s, p, sp);
    CaptureTrimmed(s, p, sp);
  }

  /** The capture of a leftmost-greedy span reads the same from the trimmed subject. */
  lemma CaptureTrimmed(s: string, p: Pattern, sp: Span)
    requires Anchored(p) && IsLeftmostGreedy(s, p, sp)
    ensures sp.start >= LeadingWhitespace(s)
    ensures MatchesAt(Trim(s), p, sp.start - LeadingWhitespace(s), sp.len)
    ensures Capture(Trim(s), p, Span(sp.start - LeadingWhitespace(s), sp.len)) == Capture(s, p, sp)
  {
    TrimmedLeftmost(s, p, sp);
    CaptureInWindow(s, Trim(s), LeadingWhitespace(s), p, sp);
  }

  /** A window of a subject without a match has no match either. */
  lemma WindowNone(s: string, t: string, a: nat, p: Pattern)
    requires a + |t| <= |s| && s[a..a + |t|] == t
    requires Find(s, p).None?
    ensures Find(t, p).None?
  {
    if Find(t, p).Some? {
      var q := Find(t, p).value;
      MatchesInWindow(s, t, a, p, q.start, q.len);
    }
  }

  /** The capture of a match inside a window is the same text whether read from the window or the subject. */
  lemma CaptureInWindow(s: string, t: string, a: nat, p: Pattern, sp: Span)
    requires a + |t| <= |s| && s[a..a + |t|] == t
    requires MatchesAt(s, p, sp.start, sp.len) && a <= sp.start
    requires MatchesAt(t, p, sp.start - a, sp.len)
    ensures Capture(t, p, Span(sp.start - a, sp.len)) == Capture(s, p, sp)
  {
    var lo := sp.start + |p.prefix|;
    var c := lo - a;
    assert c + sp.len <= |t|;
    assert t[c..c + sp.len] == s[a..a + |t|][c..c + sp.len];
    SliceOfSlice(s, a, a + |t|, c, c + sp.len);
  }
}
