/** Character classes and string helpers shared by the engine bridge and the
    content script. Character classes are ASCII. */
module Text {
  import opened Wrappers

  predicate IsDigit(c: char) { '0' <= c <= '9' }

  predicate IsUpper(c: char) { 'A' <= c <= 'Z' }

  predicate IsLower(c: char) { 'a' <= c <= 'z' }

  /** The regular-expression class `\w`. */
  predicate IsWordChar(c: char) { IsDigit(c) || IsUpper(c) || IsLower(c) || c == '_' }

  /** The regular-expression class `\s`, and what `strip()` and `trim()` remove:
      space, tab, line feed, vertical tab, form feed, carriage return. */
  predicate IsSpace(c: char) {
    c == ' ' || c == '\t' || c == '\n' || c == '\r' || c as int == 0x0B || c as int == 0x0C
  }

  function ToLower(c: char): (r: char)
    ensures IsUpper(c) ==> IsLower(r) && r as int == c as int + 32
    ensures !IsUpper(c) ==> r == c
  {
    if IsUpper(c) then (c as int + 32) as char else c
  }

  function ToUpper(c: char): (r: char)
    ensures IsLower(c) ==> IsUpper(r) && r as int == c as int - 32
    ensures !IsLower(c) ==> r == c
  {
    if IsLower(c) then (c as int - 32) as char else c
  }

  // ---------------------------------------------------------------------------
  // Substring search (Python's `in` on strings)

  predicate OccursAt(s: string, t: string, i: nat) {
    i + |t| <= |s| && s[i..i + |t|] == t
  }

  /** The first index at or after `from` where `t` occurs in `s`. */
  function IndexOf(s: string, t: string, from: nat): (r: Option<nat>)
    ensures r.Some? ==> from <= r.value && OccursAt(s, t, r.value)
    ensures r.Some? ==> forall i :: from <= i < r.value ==> !OccursAt(s, t, i)
    ensures r.None? ==> forall i :: from <= i ==> !OccursAt(s, t, i)
    decreases |s| - from
  {
    if from + |t| > |s| then None
    else if s[from..from + |t|] == t then Some(from)
    else IndexOf(s, t, from + 1)
  }

  predicate Contains(s: string, t: string) {
    IndexOf(s, t, 0).Some?
  }

  // ---------------------------------------------------------------------------
  // Whitespace: Python's `strip()` and `split()`, JavaScript's `trim()`

  /** The first index at or after `p` that does not hold whitespace. */
  function SkipSpaces(s: string, p: nat): (e: nat)
    requires p <= |s|
    ensures p <= e <= |s|
    ensures forall j :: p <= j < e ==> IsSpace(s[j])
    ensures e == |s| || !IsSpace(s[e])
    decreases |s| - p
  {
    if p == |s| || !IsSpace(s[p]) then p else SkipSpaces(s, p + 1)
  }

  /** The first index at or after `p` that holds whitespace. */
  function SkipNonSpaces(s: string, p: nat): (e: nat)
    requires p <= |s|
    ensures p <= e <= |s|
    ensures forall j :: p <= j < e ==> !IsSpace(s[j])
    ensures e == |s| || IsSpace(s[e])
    decreases |s| - p
  {
    if p == |s| || IsSpace(s[p]) then p else SkipNonSpaces(s, p + 1)
  }

  /** The end of `s[lo..hi]` once trailing whitespace is dropped. */
  function TrimEnd(s: string, lo: nat, hi: nat): (e: nat)
    requires lo <= hi <= |s|
    ensures lo <= e <= hi
    ensures forall j :: e <= j < hi ==> IsSpace(s[j])
    ensures e == lo || !IsSpace(s[e - 1])
    decreases hi - lo
  {
    if hi == lo || !IsSpace(s[hi - 1]) then hi else TrimEnd(s, lo, hi - 1)
  }

  /** Removes leading and trailing whitespace: the result is a slice of `s`
      with only whitespace before and after it, and it neither starts nor
      ends with whitespace. */
  function Strip(s: string): (r: string)
    ensures |r| <= |s|
    ensures r == [] || (!IsSpace(r[0]) && !IsSpace(r[|r| - 1]))
    ensures exists a: nat ::
      && a <= |s| && r <= s[a..]
      && (forall j :: 0 <= j < a ==> IsSpace(s[j]))
      && (forall j :: a + |r| <= j < |s| ==> IsSpace(s[j]))
    ensures s == [] || (!IsSpace(s[0]) && !IsSpace(s[|s| - 1])) ==> r == s
  {
    var a := SkipSpaces(s, 0);
    var e := TrimEnd(s, a, |s|);
    assert s[a..e] <= s[a..];
    s[a..e]
  }

  /** A word of `str.split()`: a non-empty run without whitespace. */
  predicate IsWord(w: string) {
    w != [] && forall j :: 0 <= j < |w| ==> !IsSpace(w[j])
  }

  /** Python's `str.split()` with no argument: the maximal runs of
      non-whitespace characters, in order. A non-whitespace character starts
      a word, or extends the word that starts right after it. The lemmas
      below pin it down: no words in whitespace (`WordsAllSpace`), one word
      for a run without whitespace (`WordsSingle`), and a whitespace
      character splits the words (`WordsSplitAt`). */
  function Words(s: string): (r: seq<string>)
    ensures forall j :: 0 <= j < |r| ==> IsWord(r[j])
    ensures |r| <= |s|
    ensures s != [] && !IsSpace(s[0]) ==> r != [] && |r[0]| > 0 && r[0][0] == s[0]
    decreases |s|
  {
    if s == [] then []
    else
      var rest := Words(s[1..]);
      if IsSpace(s[0]) then rest
      else if |s| > 1 && !IsSpace(s[1]) then [[s[0]] + rest[0]] + rest[1..]
      else [[s[0]]] + rest
  }

  /** A string of whitespace only has no words. */
  lemma {:induction false} WordsAllSpace(s: string)
    requires forall j :: 0 <= j < |s| ==> IsSpace(s[j])
    ensures Words(s) == []
    decreases |s|
  {
    if s != [] {
      WordsAllSpace(s[1..]);
    }
  }

  /** A non-empty run without whitespace is one word. */
  lemma {:induction false} WordsSingle(w: string)
    requires IsWord(w)
    ensures Words(w) == [w]
    decreases |w|
  {
    if |w| > 1 {
      WordsSingle(w[1..]);
      assert [w[0]] + w[1..] == w;
    } else {
      assert w[1..] == [];
      assert [w[0]] == w;
    }
  }

  /** Leading whitespace does not change the words. */
  lemma {:induction false} WordsDropSpaces(pre: string, b: string)
    requires forall j :: 0 <= j < |pre| ==> IsSpace(pre[j])
    ensures Words(pre + b) == Words(b)
    decreases |pre|
  {
    if pre != [] {
      assert (pre + b)[0] == pre[0];
      assert (pre + b)[1..] == pre[1..] + b;
      assert Words(pre + b) == Words(pre[1..] + b);
      WordsDropSpaces(pre[1..], b);
    } else {
      assert pre + b == b;
    }
  }

  /** Words one character at a time: a leading whitespace character is
      dropped, and any other character starts a word of its own or joins the
      word that starts right after it. */
  lemma WordsCons(x: char, t: string)
    ensures IsSpace(x) ==> Words([x] + t) == Words(t)
    ensures !IsSpace(x) && t != [] && !IsSpace(t[0]) ==>
      Words(t) != [] && Words([x] + t) == [[x] + Words(t)[0]] + Words(t)[1..]
    ensures !IsSpace(x) && (t == [] || IsSpace(t[0])) ==> Words([x] + t) == [[x]] + Words(t)
  {
    assert ([x] + t)[1..] == t;
  }

  /** A whitespace character separates the words on either side of it: the
      words of the whole are the words before it, then the words after it. */
  lemma {:induction false} WordsSplitAt(a: string, c: char, b: string)
    requires IsSpace(c)
    ensures Words(a + [c] + b) == Words(a) + Words(b)
    decreases |a|
  {
    if a == [] {
      assert a + [c] + b == [c] + b;
      WordsCons(c, b);
    } else {
      var x, a' := a[0], a[1..];
      assert a == [x] + a' && a + [c] + b == [x] + (a' + [c] + b);
      WordsSplitAt(a', c, b);
      WordsSplitStep(x, a', c, b);
    }
  }

  /** The inductive step of WordsSplitAt: putting a character in front. */
  lemma WordsSplitStep(x: char, a: string, c: char, b: string)
    requires IsSpace(c)
    requires Words(a + [c] + b) == Words(a) + Words(b)
    ensures Words([x] + (a + [c] + b)) == Words([x] + a) + Words(b)
  {
    var t := a + [c] + b;
    WordsCons(x, t);
    WordsCons(x, a);
    if !IsSpace(x) && a != [] && !IsSpace(a[0]) {
      assert t[0] == a[0];
      JoinFirstWord([x], Words(a), Words(b));
    } else if !IsSpace(x) {
      assert t[0] == if a == [] then c else a[0];
      ConsWord([x], Words(a), Words(b));
    }
  }

  /** A word put in front of `wa + wb` is put in front of `wa`. */
  lemma ConsWord(h: string, wa: seq<string>, wb: seq<string>)
    ensures [h] + (wa + wb) == [h] + wa + wb
  {
  }

  /** Extending the first word of `wa + wb` extends the first word of `wa`. */
  lemma JoinFirstWord(h: string, wa: seq<string>, wb: seq<string>)
    requires wa != []
    ensures [h + (wa + wb)[0]] + (wa + wb)[1..] == [h + wa[0]] + wa[1..] + wb
  {
    assert (wa + wb)[1..] == wa[1..] + wb;
  }

  /** Trailing whitespace does not change the words. */
  lemma WordsTrailingSpaces(r: string, t: string)
    requires forall j :: 0 <= j < |t| ==> IsSpace(t[j])
    ensures Words(r + t) == Words(r)
  {
    if t == [] {
      assert r + t == r;
    } else {
      assert r + t == r + [t[0]] + t[1..];
      WordsSplitAt(r, t[0], t[1..]);
      WordsAllSpace(t[1..]);
    }
  }

  /** The words of `s` are those of `t == s[a..]` when `s[..a]` is
      whitespace. */
  lemma WordsDropFront(s: string, a: nat, t: string)
    requires a <= |s| && t == s[a..]
    requires forall j :: 0 <= j < a ==> IsSpace(s[j])
    ensures Words(t) == Words(s)
  {
    assert s == s[..a] + t;
    WordsDropSpaces(s[..a], t);
  }

  /** The words of `s` are those of `t == s[..e]` when `s[e..]` is
      whitespace. */
  lemma WordsDropBack(s: string, e: nat, t: string)
    requires e <= |s| && t == s[..e]
    requires forall j :: e <= j < |s| ==> IsSpace(s[j])
    ensures Words(t) == Words(s)
  {
    assert s == t + s[e..];
    WordsTrailingSpaces(t, s[e..]);
  }

  /** The words of `s` are those of its slice `m == s[a..e]` when only
      whitespace lies outside the slice. */
  lemma WordsOfSlice(s: string, a: nat, e: nat, m: string)
    requires a <= e <= |s| && m == s[a..e]
    requires forall j :: 0 <= j < a ==> IsSpace(s[j])
    requires forall j :: e <= j < |s| ==> IsSpace(s[j])
    ensures Words(m) == Words(s)
  {
    var t := s[a..];
    WordsDropFront(s, a, t);
    WordsDropBack(t, e - a, m);
  }

  /** Stripping does not change the words. */
  lemma WordsStrip(s: string)
    ensures Words(Strip(s)) == Words(s)
  {
    var a := SkipSpaces(s, 0);
    var e := TrimEnd(s, a, |s|);
    WordsOfSlice(s, a, e, Strip(s));
  }

  // ---------------------------------------------------------------------------
  // Joining and splitting on a separator

  /** Python's `sep.join(parts)` and JavaScript's `parts.join(sep)`. */
  function Join(sep: string, parts: seq<string>): string
    decreases |parts|
  {
    if parts == [] then ""
    else if |parts| == 1 then parts[0]
    else parts[0] + sep + Join(sep, parts[1..])
  }

  lemma {:induction false} JoinAppend(sep: string, a: seq<string>, b: seq<string>)
    requires a != [] && b != []
    ensures Join(sep, a + b) == Join(sep, a) + sep + Join(sep, b)
    decreases |a|
  {
    if |a| == 1 {
      assert (a + b)[1..] == b;
    } else {
      assert (a + b)[1..] == a[1..] + b;
      JoinAppend(sep, a[1..], b);
    }
  }

  /** JavaScript's `s.split(sep)` for a one-character separator: the pieces
      between separators, including empty ones; never an empty list. */
  function Split(s: string, sep: char): (parts: seq<string>)
    ensures |parts| >= 1
    ensures forall i :: 0 <= i < |parts| ==> sep !in parts[i]
    decreases |s|
  {
    if s == [] then [""]
    else
      var rest := Split(s[1..], sep);
      if s[0] == sep then [""] + rest else [[s[0]] + rest[0]] + rest[1..]
  }

  /** Joining the pieces of a split with the same separator gives back the string. */
  lemma {:induction false} JoinSplit(s: string, sep: char)
    ensures Join([sep], Split(s, sep)) == s
    decreases |s|
  {
    if s != [] {
      var rest := Split(s[1..], sep);
      JoinSplit(s[1..], sep);
      if s[0] == sep {
        assert ([""] + rest)[1..] == rest;
      } else {
        var parts := [[s[0]] + rest[0]] + rest[1..];
        assert parts[1..] == rest[1..];
        if |rest| == 1 {
          assert Join([sep], parts) == [s[0]] + rest[0];
        } else {
          assert Join([sep], rest) == rest[0] + [sep] + Join([sep], rest[1..]);
        }
        assert s == [s[0]] + s[1..];
      }
    }
  }

  lemma {:induction false} SplitNoSeparator(s: string, sep: char)
    requires sep !in s
    ensures Split(s, sep) == [s]
    decreases |s|
  {
    if s != [] {
      SplitNoSeparator(s[1..], sep);
      assert s == [s[0]] + s[1..];
    }
  }

  lemma {:induction false} SplitAfterPiece(p: string, sep: char, t: string)
    requires sep !in p
    ensures Split(p + [sep] + t, sep) == [p] + Split(t, sep)
    decreases |p|
  {
    if p == [] {
      assert ([sep] + t)[1..] == t;
    } else {
      assert (p + [sep] + t)[1..] == p[1..] + [sep] + t;
      SplitAfterPiece(p[1..], sep, t);
      assert [p[0]] + p[1..] == p;
    }
  }

  /** Splitting the join of separator-free pieces gives back the pieces. */
  lemma {:induction false} SplitJoin(parts: seq<string>, sep: char)
    requires |parts| >= 1
    requires forall i :: 0 <= i < |parts| ==> sep !in parts[i]
    ensures Split(Join([sep], parts), sep) == parts
    decreases |parts|
  {
    if |parts| == 1 {
      SplitNoSeparator(parts[0], sep);
    } else {
      SplitJoin(parts[1..], sep);
      SplitAfterPiece(parts[0], sep, Join([sep], parts[1..]));
      assert [parts[0]] + parts[1..] == parts;
    }
  }
}
