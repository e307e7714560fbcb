/**
 * The JavaScript string built-ins the monitor relies on, over `seq<char>`:
 * `trim`, `split` on a one-character separator, `indexOf`, `replace` with a
 * string pattern (first occurrence only), `replace(/x/g, '')` and an ASCII
 * `toLowerCase`.
 */
module Text {

  import opened Outcomes

  /** ECMAScript WhiteSpace and LineTerminator code points: what `String.prototype.trim` removes. */
  predicate IsWhitespace(c: char) {
    var n := c as int;
    n == 0x09 || n == 0x0A || n == 0x0B || n == 0x0C || n == 0x0D || n == 0x20
    || n == 0xA0 || n == 0x1680 || (0x2000 <= n <= 0x200A) || n == 0x2028 || n == 0x2029
    || n == 0x202F || n == 0x205F || n == 0x3000 || n == 0xFEFF
  }

  /** ECMAScript LineTerminator code points: the characters a regular-expression `.` does not match. */
  predicate IsLineTerminator(c: char) {
    c == '\n' || c == '\r' || c as int == 0x2028 || c as int == 0x2029
  }

  predicate AllWhitespace(s: string) {
    forall k :: 0 <= k < |s| ==> IsWhitespace(s[k])
  }

  /** Number of whitespace characters at the front of `s`. */
  function LeadingWhitespace(s: string): (a: nat)
    ensures a <= |s| && AllWhitespace(s[..a])
    ensures a < |s| ==> !IsWhitespace(s[a])
  {
    if |s| > 0 && IsWhitespace(s[0]) then
      var a' := LeadingWhitespace(s[1..]);
      assert s[..1 + a'] == [s[0]] + s[1..][..a'];
      1 + a'
    else 0
  }

  /** End of the content of `s` once trailing whitespace after position `a` is dropped. */
  function ContentEnd(s: string, a: nat): (b: nat)
    requires a <= |s|
    ensures a <= b <= |s| && AllWhitespace(s[b..])
    ensures b > a ==> !IsWhitespace(s[b - 1])
    decreases |s|
  {
    if |s| > a && IsWhitespace(s[|s| - 1]) then
      var b := ContentEnd(s[..|s| - 1], a);
      assert s[b..] == s[..|s| - 1][b..] + [s[|s| - 1]];
      b
    else |s|
  }

  /** `s.trim()`: `s` is some whitespace, then the result, then some whitespace. */
  function Trim(s: string): (r: string)
    ensures LeadingWhitespace(s) + |r| <= |s|
    ensures s[LeadingWhitespace(s)..LeadingWhitespace(s) + |r|] == r
    ensures AllWhitespace(s[..LeadingWhitespace(s)]) && AllWhitespace(s[LeadingWhitespace(s) + |r|..])
    ensures |r| > 0 ==> !IsWhitespace(r[0]) && !IsWhitespace(r[|r| - 1])
  {
    var a := LeadingWhitespace(s);
    s[a..ContentEnd(s, a)]
  }

  /** Trimming twice is trimming once. */
  lemma TrimIdempotent(s: string)
    ensures Trim(Trim(s)) == Trim(s)
  {
    var t := Trim(s);
    if |t| > 0 {
      assert LeadingWhitespace(t) == 0;
      assert ContentEnd(t, 0) == |t|;
    }
  }

  /** A string with no whitespace at either end is its own trim. */
  lemma TrimOfTrimmed(s: string)
    requires |s| > 0 ==> !IsWhitespace(s[0]) && !IsWhitespace(s[|s| - 1])
    ensures Trim(s) == s
  {
    if |s| > 0 {
      assert LeadingWhitespace(s) == 0;
      assert ContentEnd(s, 0) == |s|;
    }
  }

  /** A slice of a slice is a slice of the original. */
  lemma SliceOfSlice<T>(s: seq<T>, a: nat, b: nat, c: nat, d: nat)
    requires a <= b <= |s| && c <= d <= b - a
    ensures s[a..b][c..d] == s[a + c..a + d]
  {
    forall k | 0 <= k < d - c
      ensures s[a..b][c..d][k] == s[a + c..a + d][k]
    {
      assert s[a..b][c..d][k] == s[a..b][c + k] == s[a + c + k];
    }
  }

  /** `s.split(d)` for a one-character separator: never empty, pieces hold no `d`. */
  function Split(s: string, d: char): (r: seq<string>)
    ensures |r| >= 1
    ensures forall k :: 0 <= k < |r| ==> d !in r[k]
    decreases |s|
  {
    if |s| == 0 then [""]
    else
      var rest := Split(s[1..], d);
      if s[0] == d then [""] + rest
      else [[s[0]] + rest[0]] + rest[1..]
  }

  /** The pieces joined back with `d` between them (the inverse of Split). */
  function Join(xs: seq<string>, d: char): string
    requires |xs| >= 1
  {
    if |xs| == 1 then xs[0] else xs[0] + [d] + Join(xs[1..], d)
  }

  lemma {:induction false} SplitNoSeparator(s: string, d: char)
    requires d !in s
    ensures Split(s, d) == [s]
    decreases |s|
  {
    if |s| > 0 {
      SplitNoSeparator(s[1..], d);
      assert [s[0]] + s[1..] == s;
    }
  }

  /** A character absent from `s` is absent from every piece of it. */
  lemma {:induction false} SplitKeepsOut(s: string, d: char, c: char)
    requires c !in s
    ensures forall k :: 0 <= k < |Split(s, d)| ==> c !in Split(s, d)[k]
    decreases |s|
  {
    if |s| > 0 {
      assert s[0] in s;
      assert forall x :: x in s[1..] ==> x in s;
      SplitKeepsOut(s[1..], d, c);
    }
  }

  /** Splitting distributes over a separator: the pieces of `a` followed by the pieces of `b`. */
  lemma {:induction false} SplitAtSeparator(a: string, b: string, d: char)
    ensures Split(a + [d] + b, d) == Split(a, d) + Split(b, d)
    decreases |a|
  {
    if |a| == 0 {
      assert a + [d] + b == [d] + b;
      assert ([d] + b)[1..] == b;
    } else {
      assert (a + [d] + b)[1..] == a[1..] + [d] + b;
      SplitAtSeparator(a[1..], b, d);
    }
  }

  /** Split undoes Join when no piece contains the separator. */
  lemma {:induction false} SplitJoin(xs: seq<string>, d: char)
    requires |xs| >= 1
    requires forall k :: 0 <= k < |xs| ==> d !in xs[k]
    ensures Split(Join(xs, d), d) == xs
    decreases |xs|
  {
    if |xs| == 1 {
      SplitNoSeparator(xs[0], d);
    } else {
      SplitJoin(xs[1..], d);
      SplitAtSeparator(xs[0], Join(xs[1..], d), d);
      SplitNoSeparator(xs[0], d);
      assert [xs[0]] + xs[1..] == xs;
    }
  }

  /** Join adds one separator before a last piece. */
  lemma {:induction false} JoinSnoc(xs: seq<string>, y: string, d: char)
    requires |xs| >= 1
    ensures Join(xs + [y], d) == Join(xs, d) + [d] + y
    decreases |xs|
  {
    if |xs| > 1 {
      assert (xs + [y])[1..] == xs[1..] + [y];
      JoinSnoc(xs[1..], y, d);
    }
  }

  /** `pat` occurs in `s` at position `k`. */
  predicate OccursAt(s: string, pat: string, k: nat) {
    k + |pat| <= |s| && s[k..k + |pat|] == pat
  }

  /** `s.indexOf(pat, from)`: the leftmost occurrence at or after `from`, or none. */
  function IndexOfFrom(s: string, pat: string, from: nat): (r: Option<nat>)
    ensures r.Some? ==> from <= r.value && OccursAt(s, pat, r.value)
    ensures r.Some? ==> forall k :: from <= k < r.value ==> !OccursAt(s, pat, k)
    ensures r.None? ==> forall k :: from <= k ==> !OccursAt(s, pat, k)
    decreases |s| + 1 - from
  {
    if from + |pat| > |s| then None
    else if s[from..from + |pat|] == pat then Some(from)
    else IndexOfFrom(s, pat, from + 1)
  }

  function IndexOf(s: string, pat: string): (r: Option<nat>)
    ensures r.Some? ==> OccursAt(s, pat, r.value) && forall k :: 0 <= k < r.value ==> !OccursAt(s, pat, k)
    ensures r.None? ==> forall k :: 0 <= k ==> !OccursAt(s, pat, k)
  {
    IndexOfFrom(s, pat, 0)
  }

  /** `s.indexOf(pat) !== -1`. */
  predicate Contains(s: string, pat: string) {
    IndexOf(s, pat).Some?
  }

  /** Containment means an occurrence somewhere, in both directions. */
  lemma ContainsIff(s: string, pat: string)
    ensures Contains(s, pat) <==> exists k: nat :: OccursAt(s, pat, k)
  {
  }

  /** `s.replace(pat, rep)` with a string pattern: only the first occurrence is replaced. */
  function ReplaceFirst(s: string, pat: string, rep: string): (r: string)
    ensures !Contains(s, pat) ==> r == s
    ensures Contains(s, pat) ==> |r| == |s| - |pat| + |rep|
    ensures forall x :: x in r ==> x in s || x in rep
  {
    match IndexOf(s, pat)
    case None => s
    case Some(k) =>
      assert forall x :: x in s[..k] || x in s[k + |pat|..] ==> x in s;
      s[..k] + rep + s[k + |pat|..]
  }

  /** The replacement happens at the first occurrence: the text before it and after the pattern is kept. */
  lemma ReplaceFirstAt(s: string, pat: string, rep: string, k: nat)
    requires OccursAt(s, pat, k)
    requires forall j :: 0 <= j < k ==> !OccursAt(s, pat, j)
    ensures ReplaceFirst(s, pat, rep) == s[..k] + rep + s[k + |pat|..]
  {
    IndexOfAt(s, pat, k);
  }

  /** The first occurrence of `pat` is at `k` when it occurs there and nowhere before. */
  lemma IndexOfAt(s: string, pat: string, k: nat)
    requires OccursAt(s, pat, k)
    requires forall j :: 0 <= j < k ==> !OccursAt(s, pat, j)
    ensures IndexOf(s, pat) == Some(k)
  {
  }

  /** An occurrence is the first one when the pattern's first character appears nowhere before it. */
  lemma IndexOfFirstChar(s: string, pat: string, k: nat)
    requires |pat| > 0 && OccursAt(s, pat, k)
    requires pat[0] !in s[..k]
    ensures IndexOf(s, pat) == Some(k)
  {
    forall j | 0 <= j < k
      ensures !OccursAt(s, pat, j)
    {
      assert s[..k][j] == s[j];
    }
    IndexOfAt(s, pat, k);
  }

  /** `s.replace(/c/g, '')`: every `c` removed, everything else kept in order. */
  function RemoveAll(s: string, c: char): (r: string)
    ensures c !in r
    ensures |r| <= |s|
  {
    if |s| == 0 then ""
    else (if s[0] == c then "" else [s[0]]) + RemoveAll(s[1..], c)
  }

  /** Text without `c` is left as it is. */
  lemma {:induction false} RemoveAllAbsent(s: string, c: char)
    requires c !in s
    ensures RemoveAll(s, c) == s
    decreases |s|
  {
    if |s| > 0 {
      assert s[0] in s && s[1..] <= s[1..];
      assert c !in s[1..];
      RemoveAllAbsent(s[1..], c);
      assert [s[0]] + s[1..] == s;
    }
  }

  /** Every character other than `c` is kept as often as it occurs; `c` never is. */
  lemma {:induction false} RemoveAllCounts(s: string, c: char)
    ensures multiset(RemoveAll(s, c)) == multiset(s)[c := 0]
    decreases |s|
  {
    if |s| > 0 {
      RemoveAllCounts(s[1..], c);
      assert s == [s[0]] + s[1..];
    }
  }

  /** Removal works character by character: it distributes over concatenation, so order is kept. */
  lemma {:induction false} RemoveAllAppend(a: string, b: string, c: char)
    ensures RemoveAll(a + b, c) == RemoveAll(a, c) + RemoveAll(b, c)
    decreases |a|
  {
    if |a| == 0 {
      assert a + b == b;
    } else {
      HeadTail(a, b);
      RemoveAllAppend(a[1..], b, c);
    }
  }

  /** Splitting a non-empty text off the front of a concatenation. */
  lemma HeadTail(a: string, r: string)
    requires |a| > 0
    ensures (a + r)[0] == a[0] && (a + r)[1..] == a[1..] + r
    ensures [a[0]] + (a[1..] + r) == a + r
  {
    assert [a[0]] + a[1..] == a;
  }

  /** Lower-case of an ASCII letter; other characters unchanged. */
  function LowerChar(c: char): (r: char)
    ensures 'A' <= c <= 'Z' ==> 'a' <= r <= 'z' && r as int == c as int + 32
    ensures !('A' <= c <= 'Z') ==> r == c
  {
    if 'A' <= c <= 'Z' then (c as int + 32) as char else c
  }

  /** `s.toLowerCase()` restricted to ASCII case folding. */
  function Lower(s: string): (r: string)
    ensures |r| == |s|
    ensures forall k :: 0 <= k < |s| ==> r[k] == LowerChar(s[k])
  {
    seq(|s|, k requires 0 <= k < |s| => LowerChar(s[k]))
  }

  /** `s` and `t` differ at most in the case of ASCII letters. */
  predicate SameUpToCase(s: string, t: string) {
    |s| == |t| && forall k :: 0 <= k < |s| ==> LowerChar(s[k]) == LowerChar(t[k])
  }

  /** Lower-casing is idempotent, and it changes a string only in case. */
  lemma LowerIdempotent(s: string)
    ensures Lower(Lower(s)) == Lower(s)
    ensures SameUpToCase(s, Lower(s))
  {
  }

  /** Strings that differ only in case lower-case alike. */
  lemma LowerCaseless(s: string, t: string)
    requires SameUpToCase(s, t)
    ensures Lower(s) == Lower(t)
  {
  }

  /** Case folding never turns whitespace into non-whitespace or back. */
  lemma WhitespaceCaseless(c: char, d: char)
    requires LowerChar(c) == LowerChar(d)
    ensures IsWhitespace(c) <==> IsWhitespace(d)
  {
  }

  lemma {:induction false} LeadingWhitespaceCaseless(s: string, t: string)
    requires SameUpToCase(s, t)
    ensures LeadingWhitespace(s) == LeadingWhitespace(t)
    decreases |s|
  {
    if |s| > 0 {
      WhitespaceCaseless(s[0], t[0]);
      assert SameUpToCase(s[1..], t[1..]) by {
        forall k | 0 <= k < |s| - 1 ensures LowerChar(s[1..][k]) == LowerChar(t[1..][k]) {
          assert s[1..][k] == s[k + 1] && t[1..][k] == t[k + 1];
        }
      }
      LeadingWhitespaceCaseless(s[1..], t[1..]);
    }
  }

  lemma {:induction false} ContentEndCaseless(s: string, t: string, a: nat)
    requires SameUpToCase(s, t) && a <= |s|
    ensures ContentEnd(s, a) == ContentEnd(t, a)
    decreases |s|
  {
    if |s| > a {
      var n := |s| - 1;
      WhitespaceCaseless(s[n], t[n]);
      assert SameUpToCase(s[..n], t[..n]) by {
        forall k | 0 <= k < n ensures LowerChar(s[..n][k]) == LowerChar(t[..n][k]) {
          assert s[..n][k] == s[k] && t[..n][k] == t[k];
        }
      }
      ContentEndCaseless(s[..n], t[..n], a);
    }
  }

  /** Trimming cuts strings that differ only in case at the same places. */
  lemma TrimCaseless(s: string, t: string)
    requires SameUpToCase(s, t)
    ensures SameUpToCase(Trim(s), Trim(t))
    ensures Lower(Trim(s)) == Lower(Trim(t))
  {
    var a := LeadingWhitespace(s);
    LeadingWhitespaceCaseless(s, t);
    ContentEndCaseless(s, t, a);
    var b := ContentEnd(s, a);
    assert Trim(s) == s[a..b] && Trim(t) == t[a..b];
    SliceCaseless(s, t, a, b);
    LowerCaseless(Trim(s), Trim(t));
  }

  /** The same slice of two strings equal up to case is equal up to case. */
  lemma SliceCaseless(s: string, t: string, a: nat, b: nat)
    requires SameUpToCase(s, t) && a <= b <= |s|
    ensures SameUpToCase(s[a..b], t[a..b])
  {
    forall k | 0 <= k < b - a ensures LowerChar(s[a..b][k]) == LowerChar(t[a..b][k]) {
      assert s[a..b][k] == s[a + k] && t[a..b][k] == t[a + k];
    }
  }
}
