/** The three regular expressions of the engine bridge (backend/server.py),
    each written out as the span Python's leftmost, greedy, backtracking
    search returns for it:
    - `depth (\d+)` and `multipv (\d+)` in `process_engine_line`;
    - `pv\s+((?:\w+\d+\w+\d+\s*)+)` in `parse_engine_output`. */
module Patterns {
  import opened Wrappers
  import opened Text

  // ---------------------------------------------------------------------------
  // `key(\d+)`: the number after the first occurrence of `key` that is
  // directly followed by a digit.

  /** The first index at or after `p` that does not hold a digit. */
  function DigitRunEnd(s: string, p: nat): (e: nat)
    requires p <= |s|
    ensures p <= e <= |s|
    ensures forall j :: p <= j < e ==> IsDigit(s[j])
    ensures e == |s| || !IsDigit(s[e])
    decreases |s| - p
  {
    if p == |s| || !IsDigit(s[p]) then p else DigitRunEnd(s, p + 1)
  }

  /** Python's `int` of a string of decimal digits (leading zeros allowed). */
  function DecimalValue(digits: string): nat
    requires forall i :: 0 <= i < |digits| ==> IsDigit(digits[i])
    decreases |digits|
  {
    if digits == [] then 0
    else
      var d := digits[|digits| - 1];
      assert IsDigit(d);
      10 * DecimalValue(digits[..|digits| - 1]) + (d as int - '0' as int)
  }

  /** `key(\d+)` matches at `p`. */
  predicate NumberAt(s: string, key: string, p: nat) {
    OccursAt(s, key, p) && p + |key| < |s| && IsDigit(s[p + |key|])
  }

  /** Where `re.search` finds `key(\d+)`, scanning from `from`: the leftmost match. */
  function FindNumber(s: string, key: string, from: nat): (r: Option<nat>)
    ensures r.Some? ==> from <= r.value && NumberAt(s, key, r.value)
    ensures r.Some? ==> forall p :: from <= p < r.value ==> !NumberAt(s, key, p)
    ensures r.None? ==> forall p :: from <= p ==> !NumberAt(s, key, p)
    decreases |s| - from
  {
    if from >= |s| then None
    else if NumberAt(s, key, from) then Some(from)
    else FindNumber(s, key, from + 1)
  }

  /** `int(re.search(key + r'(\d+)', s).group(1))`, or None when there is no match. */
  function NumberAfter(s: string, key: string): (r: Option<nat>)
    ensures r.Some? <==> exists p :: NumberAt(s, key, p)
  {
    match FindNumber(s, key, 0)
    case None => None
    case Some(p) =>
      var q := p + |key|;
      Some(DecimalValue(s[q..DigitRunEnd(s, q)]))
  }

  /** The number found is the value of the whole digit run after the
      leftmost match: for any leftmost match at `p` whose digits run to `e`,
      the result is the decimal value of `s[p + |key|..e]`. */
  lemma NumberAfterValue(s: string, key: string, p: nat, e: nat)
    requires NumberAt(s, key, p)
    requires forall p' :: 0 <= p' < p ==> !NumberAt(s, key, p')
    requires p + |key| < e <= |s|
    requires forall j :: p + |key| <= j < e ==> IsDigit(s[j])
    requires e == |s| || !IsDigit(s[e])
    ensures NumberAfter(s, key) == Some(DecimalValue(s[p + |key|..e]))
  {
  }

  // ---------------------------------------------------------------------------
  // `pv\s+((?:\w+\d+\w+\d+\s*)+)`

  /** The first index at or after `p` that does not hold a word character. */
  function WordRunEnd(s: string, p: nat): (e: nat)
    requires p <= |s|
    ensures p <= e <= |s|
    ensures forall j :: p <= j < e ==> IsWordChar(s[j])
    ensures e == |s| || !IsWordChar(s[e])
    decreases |s| - p
  {
    if p == |s| || !IsWordChar(s[p]) then p else WordRunEnd(s, p + 1)
  }

  /** The last index in [lo, hi) that holds a digit. */
  function LastDigit(s: string, lo: nat, hi: nat): (r: Option<nat>)
    requires lo <= hi <= |s|
    ensures r.Some? ==> lo <= r.value < hi && IsDigit(s[r.value])
    ensures r.Some? ==> forall j :: r.value < j < hi ==> !IsDigit(s[j])
    ensures r.None? ==> forall j :: lo <= j < hi ==> !IsDigit(s[j])
    decreases hi - lo
  {
    if lo == hi then None
    else if IsDigit(s[hi - 1]) then Some(hi - 1)
    else LastDigit(s, lo, hi - 1)
  }

  /** `s[p..e]` splits as `\w+ \d+ \w+ \d+` at the cut points a, b and c. */
  ghost predicate ChunkShape(s: string, p: nat, a: nat, b: nat, c: nat, e: nat) {
    && p < a < b < c < e <= |s|
    && (forall x :: p <= x < e ==> IsWordChar(s[x]))
    && (forall x :: a <= x < b ==> IsDigit(s[x]))
    && (forall x :: c <= x < e ==> IsDigit(s[x]))
  }

  /** Where the greedy `\w+\d+\w+\d+` tried at `p` ends: right after the last
      digit of the word run at `p`, provided the run has a digit after its
      first character and another digit at least two places further on. */
  function ChunkEnd(s: string, p: nat): (r: Option<nat>)
    requires p <= |s|
    ensures r.Some? ==> p + 4 <= r.value <= |s|
  {
    var e := WordRunEnd(s, p);
    match LastDigit(s, p, e)
    case None => None
    case Some(last) =>
      if p + 2 <= last && LastDigit(s, p + 1, last - 1).Some? then Some(last + 1) else None
  }

  /** ChunkEnd's span has the shape of the pattern. */
  lemma ChunkEndMatches(s: string, p: nat)
    requires p <= |s| && ChunkEnd(s, p).Some?
    ensures exists a, b, c :: ChunkShape(s, p, a, b, c, ChunkEnd(s, p).value)
  {
    var e := WordRunEnd(s, p);
    var last := LastDigit(s, p, e).value;
    var i := LastDigit(s, p + 1, last - 1).value;
    assert ChunkShape(s, p, i, i + 1, last, last + 1);
  }

  /** The pattern matches at `p` only where ChunkEnd finds a span, and no
      split of the pattern ends later than that span. */
  lemma ChunkEndLongest(s: string, p: nat, a: nat, b: nat, c: nat, e: nat)
    requires p <= |s| && ChunkShape(s, p, a, b, c, e)
    ensures ChunkEnd(s, p).Some? && e <= ChunkEnd(s, p).value
  {
    var run := WordRunEnd(s, p);
    assert e <= run;
    assert IsDigit(s[e - 1]) && IsDigit(s[a]);
    var last := LastDigit(s, p, run).value;
    assert e - 1 <= last;
    assert a < last - 1;
    var i := LastDigit(s, p + 1, last - 1);
  }

  /** The repetitions of `\w+\d+\w+\d+\s*` from `q` on: where the group ends. */
  function GroupEnd(s: string, q: nat): (e: nat)
    requires q <= |s|
    ensures q <= e <= |s|
    ensures ChunkEnd(s, q).Some? ==> ChunkEnd(s, q).value <= e
    decreases |s| - q
  {
    match ChunkEnd(s, q)
    case None => q
    case Some(c) => GroupEnd(s, SkipSpaces(s, c))
  }

  /** `s[q..c]` is the chunk `\w+\d+\w+\d+` at `q`, as long as any way of
      matching it there, and `s[c..w]` is all the whitespace after it. */
  ghost predicate GreedyChunk(s: string, q: nat, c: nat, w: nat) {
    && q < c <= w <= |s|
    && (exists a: nat, b: nat, x: nat :: ChunkShape(s, q, a, b, x, c))
    && (forall a: nat, b: nat, x: nat, c': nat :: ChunkShape(s, q, a, b, x, c') ==> c' <= c)
    && (forall j :: c <= j < w ==> IsSpace(s[j]))
    && (w == |s| || !IsSpace(s[w]))
  }

  /** `s[q..e]` is one or more greedy chunks, each followed by its
      whitespace. */
  ghost predicate Repetition(s: string, q: nat, e: nat)
    decreases e - q
  {
    exists c: nat, w: nat :: GreedyChunk(s, q, c, w) && w <= e && (w == e || Repetition(s, w, e))
  }

  /** The group is a run of greedy chunks with their whitespace, and it ends
      where no further chunk starts. */
  lemma {:induction false} GroupEndRepeats(s: string, q: nat)
    requires q <= |s| && ChunkEnd(s, q).Some?
    ensures Repetition(s, q, GroupEnd(s, q))
    ensures forall a: nat, b: nat, x: nat, c: nat :: !ChunkShape(s, GroupEnd(s, q), a, b, x, c)
    decreases |s| - q
  {
    var c := ChunkEnd(s, q).value;
    var w := SkipSpaces(s, c);
    var e := GroupEnd(s, q);
    assert e == GroupEnd(s, w);
    ChunkEndMatches(s, q);
    forall a: nat, b: nat, x: nat, c': nat | ChunkShape(s, q, a, b, x, c')
      ensures c' <= c
    {
      ChunkEndLongest(s, q, a, b, x, c');
    }
    assert GreedyChunk(s, q, c, w);
    if ChunkEnd(s, w).Some? {
      GroupEndRepeats(s, w);
      assert w < e;
    } else {
      assert e == w;
      forall a: nat, b: nat, x: nat, c': nat | ChunkShape(s, w, a, b, x, c')
        ensures false
      {
        ChunkEndLongest(s, w, a, b, x, c');
      }
    }
  }

  /** The span of group 1 when the pattern is tried at `p`. */
  function PvGroupAt(s: string, p: nat): (r: Option<(nat, nat)>)
    requires p <= |s|
    ensures r.Some? ==> OccursAt(s, "pv", p) && p + 2 < r.value.0 < r.value.1 <= |s|
    ensures r.Some? ==> forall j :: p + 2 <= j < r.value.0 ==> IsSpace(s[j])
  {
    if p + 3 <= |s| && s[p..p + 2] == "pv" && IsSpace(s[p + 2]) then
      var q := SkipSpaces(s, p + 2);
      if ChunkEnd(s, q).Some? then Some((q, GroupEnd(s, q))) else None
    else None
  }

  /** Some split of `\w+\d+\w+\d+` matches at `q`. */
  ghost predicate ChunkAt(s: string, q: nat) {
    exists a: nat, b: nat, c: nat, e: nat :: ChunkShape(s, q, a, b, c, e)
  }

  /** ChunkEnd finds a span exactly where the chunk pattern matches. */
  lemma ChunkAtIff(s: string, q: nat)
    requires q <= |s|
    ensures ChunkAt(s, q) <==> ChunkEnd(s, q).Some?
  {
    if ChunkEnd(s, q).Some? {
      ChunkEndMatches(s, q);
    }
    if ChunkAt(s, q) {
      var a: nat, b: nat, c: nat, e: nat :| ChunkShape(s, q, a, b, c, e);
      ChunkEndLongest(s, q, a, b, c, e);
    }
  }

  /** `pv\s+((?:\w+\d+\w+\d+\s*)+)` matches at `p` exactly when "pv" and
      some whitespace stand at `p` and a chunk starts after the whitespace;
      group 1 then starts after all of that whitespace, is a run of greedy
      chunks with their whitespace, and ends where no further chunk starts. */
  lemma PvGroupAtSpec(s: string, p: nat)
    requires p <= |s|
    ensures PvGroupAt(s, p).Some? <==>
      p + 3 <= |s| && OccursAt(s, "pv", p) && IsSpace(s[p + 2]) && ChunkAt(s, SkipSpaces(s, p + 2))
    ensures PvGroupAt(s, p).Some? ==>
      var (q, e) := PvGroupAt(s, p).value;
      && q == SkipSpaces(s, p + 2)
      && Repetition(s, q, e)
      && forall a: nat, b: nat, x: nat, c: nat :: !ChunkShape(s, e, a, b, x, c)
  {
    if p + 3 <= |s| && OccursAt(s, "pv", p) && IsSpace(s[p + 2]) {
      var q := SkipSpaces(s, p + 2);
      ChunkAtIff(s, q);
      if ChunkEnd(s, q).Some? {
        GroupEndRepeats(s, q);
      }
    }
  }

  /** The leftmost position at or after `from` where the pattern matches. */
  function PvSearch(s: string, from: nat): (r: Option<nat>)
    requires from <= |s|
    ensures r.Some? ==> from <= r.value <= |s| && PvGroupAt(s, r.value).Some?
    ensures r.Some? ==> forall p :: from <= p < r.value ==> PvGroupAt(s, p).None?
    ensures r.None? ==> forall p :: from <= p <= |s| ==> PvGroupAt(s, p).None?
    decreases |s| - from
  {
    if PvGroupAt(s, from).Some? then Some(from)
    else if from == |s| then None
    else PvSearch(s, from + 1)
  }

  /** `re.search(r'pv\s+((?:\w+\d+\w+\d+\s*)+)', s)`: the span (start(1), end(1))
      of group 1 of the leftmost match, or None. */
  function PvGroup(s: string): (r: Option<(nat, nat)>)
    ensures r.Some? ==> 3 <= r.value.0 < r.value.1 <= |s|
    ensures r.Some? ==> PvSearch(s, 0).Some? && r == PvGroupAt(s, PvSearch(s, 0).value)
    ensures r.None? ==> forall p :: 0 <= p <= |s| ==> PvGroupAt(s, p).None?
  {
    match PvSearch(s, 0)
    case None => None
    case Some(p) => PvGroupAt(s, p)
  }
}
