/** The string helpers of extension/content.js: the token scanner that reads
    the best engine line for display, the camelCase-to-CSS conversion of
    inline styles, and the change detection that decides when the scraped
    move list is sent to the backend. */
module ContentScript {
  import opened Wrappers
  import opened Text

  // ---------------------------------------------------------------------------
  // parseEngineLine

  /** A `depth` or `score` field of the parsed record: still `null`, set to
      `undefined` (the key was the last token), or set to a token. */
  datatype Field = Null | Undefined | Token(text: string)

  /** The `pv` field: the initial empty array, or the joined tail of the line. */
  datatype PvField = NoPv | Pv(text: string)

  /** The record `parseEngineLine` returns. */
  datatype EngineLine = EngineLine(depth: Field, score: Field, pv: PvField)

  const DEPTH_KEY := "depth"
  const SCORE_KEY := "cp"
  const PV_KEY := "pv"

  /** The last index below `n` whose token is exactly `key`. */
  function LastIndexBelow(parts: seq<string>, key: string, n: nat): (r: Option<nat>)
    requires n <= |parts|
    ensures r.Some? ==> r.value < n && parts[r.value] == key
    ensures r.Some? ==> forall j :: r.value < j < n ==> parts[j] != key
    ensures r.None? ==> forall j :: 0 <= j < n ==> parts[j] != key
    decreases n
  {
    if n == 0 then None
    else if parts[n - 1] == key then Some(n - 1)
    else LastIndexBelow(parts, key, n - 1)
  }

  function LastIndex(parts: seq<string>, key: string): Option<nat> {
    LastIndexBelow(parts, key, |parts|)
  }

  /** `parts[i + 1]`, which JavaScript reads as `undefined` past the end. */
  function NextToken(parts: seq<string>, i: nat): Field {
    if i + 1 < |parts| then Token(parts[i + 1]) else Undefined
  }

  /** The field set by the last occurrence of `key` among the first `n`
      tokens, or `null` when there is none. */
  function FieldBelow(parts: seq<string>, key: string, n: nat): Field
    requires n <= |parts|
  {
    match LastIndexBelow(parts, key, n)
    case None => Null
    case Some(i) => NextToken(parts, i)
  }

  /** The `pv` field after the first `n` tokens: the tokens that follow the
      last `pv` among them, joined with single spaces. */
  function PvBelow(parts: seq<string>, n: nat): PvField
    requires n <= |parts|
  {
    match LastIndexBelow(parts, PV_KEY, n)
    case None => NoPv
    case Some(i) => Pv(Join(" ", parts[i + 1..]))
  }

  /** One more token changes a field only when it is the field's key. */
  lemma FieldBelowStep(parts: seq<string>, key: string, i: nat)
    requires i < |parts|
    ensures FieldBelow(parts, key, i + 1)
      == if parts[i] == key then NextToken(parts, i) else FieldBelow(parts, key, i)
  {
  }

  /** One more token changes `pv` only when it is `pv`. */
  lemma PvBelowStep(parts: seq<string>, i: nat)
    requires i < |parts|
    ensures PvBelow(parts, i + 1)
      == if parts[i] == PV_KEY then Pv(Join(" ", parts[i + 1..])) else PvBelow(parts, i)
  {
  }

  /** What `parseEngineLine` returns for `line`. */
  function ParsedLine(line: string): EngineLine {
    var parts := Split(line, ' ');
    EngineLine(FieldBelow(parts, DEPTH_KEY, |parts|), FieldBelow(parts, SCORE_KEY, |parts|), PvBelow(parts, |parts|))
  }

  /** The scan of `parseEngineLine`: every token is compared with the three
      keys, and each match overwrites its field. */
  method ParseEngineLine(line: string) returns (data: EngineLine)
    ensures data == ParsedLine(line)
  {
    var parts := Split(line, ' ');
    var depth, score, pv := Null, Null, NoPv;
    for i := 0 to |parts|
      invariant depth == FieldBelow(parts, DEPTH_KEY, i)
      invariant score == FieldBelow(parts, SCORE_KEY, i)
      invariant pv == PvBelow(parts, i)
    {
      FieldBelowStep(parts, DEPTH_KEY, i);
      FieldBelowStep(parts, SCORE_KEY, i);
      PvBelowStep(parts, i);
      if parts[i] == DEPTH_KEY {
        depth := NextToken(parts, i);
      }
      if parts[i] == SCORE_KEY {
        score := NextToken(parts, i);
      }
      if parts[i] == PV_KEY {
        pv := Pv(Join(" ", parts[i + 1..]));
      }
    }
    data := EngineLine(depth, score, pv);
  }

  /** A field stays `null` exactly when its key is not a token of the line;
      otherwise it is whatever follows the key's last occurrence. Only whole
      tokens count, so `seldepth` or `multipv` never set `depth`. */
  lemma FieldAfterLast(line: string, key: string, i: nat)
    requires key == DEPTH_KEY || key == SCORE_KEY
    requires i < |Split(line, ' ')| && Split(line, ' ')[i] == key
    requires forall j :: i < j < |Split(line, ' ')| ==> Split(line, ' ')[j] != key
    ensures (if key == DEPTH_KEY then ParsedLine(line).depth else ParsedLine(line).score)
      == NextToken(Split(line, ' '), i)
  {
  }

  /** No occurrence of the key leaves the field `null`, and a `null` field
      means the key never occurred. */
  lemma FieldNullIffAbsent(line: string)
    ensures ParsedLine(line).depth == Null <==> DEPTH_KEY !in Split(line, ' ')
    ensures ParsedLine(line).score == Null <==> SCORE_KEY !in Split(line, ' ')
    ensures ParsedLine(line).pv == NoPv <==> PV_KEY !in Split(line, ' ')
  {
    var parts := Split(line, ' ');
    var d := LastIndexBelow(parts, DEPTH_KEY, |parts|);
    var s := LastIndexBelow(parts, SCORE_KEY, |parts|);
    var p := LastIndexBelow(parts, PV_KEY, |parts|);
    if d.Some? { assert parts[d.value] == DEPTH_KEY; }
    if s.Some? { assert parts[s.value] == SCORE_KEY; }
    if p.Some? { assert parts[p.value] == PV_KEY; }
  }

  /** The `pv` field is the exact rest of the line after its last `pv`
      token: the line is the tokens up to and including that `pv`, a space,
      and the field's text; when `pv` is the last token the field is empty. */
  lemma PvIsLineSuffix(line: string, i: nat)
    requires LastIndex(Split(line, ' '), PV_KEY) == Some(i)
    ensures ParsedLine(line).pv.Pv?
    ensures i + 1 < |Split(line, ' ')| ==>
      line == Join(" ", Split(line, ' ')[..i + 1]) + " " + ParsedLine(line).pv.text
    ensures i + 1 == |Split(line, ' ')| ==>
      ParsedLine(line).pv == Pv("") && line == Join(" ", Split(line, ' '))
  {
    var parts := Split(line, ' ');
    JoinSplit(line, ' ');
    if i + 1 < |parts| {
      assert parts == parts[..i + 1] + parts[i + 1..];
      JoinAppend(" ", parts[..i + 1], parts[i + 1..]);
    } else {
      assert parts[i + 1..] == [];
    }
  }

  /** Splitting the `pv` text again gives back exactly the tokens after the
      last `pv` token, and none of them is `pv`. */
  lemma PvTokensRoundTrip(line: string, i: nat)
    requires LastIndex(Split(line, ' '), PV_KEY) == Some(i)
    requires i + 1 < |Split(line, ' ')|
    ensures ParsedLine(line).pv.Pv?
    ensures Split(ParsedLine(line).pv.text, ' ') == Split(line, ' ')[i + 1..]
    ensures PV_KEY !in Split(ParsedLine(line).pv.text, ' ')
  {
    var parts := Split(line, ' ');
    PvOfLine(line, i);
    TailRoundTrip(parts, i);
  }

  lemma PvOfLine(line: string, i: nat)
    requires LastIndex(Split(line, ' '), PV_KEY) == Some(i)
    ensures i < |Split(line, ' ')|
    ensures ParsedLine(line).pv == Pv(Join(" ", Split(line, ' ')[i + 1..]))
  {
  }

  /** The tokens after the last `pv` survive a join and a split, and
      contain no `pv`. */
  lemma TailRoundTrip(parts: seq<string>, i: nat)
    requires LastIndex(parts, PV_KEY) == Some(i)
    requires i + 1 < |parts|
    requires forall j :: 0 <= j < |parts| ==> ' ' !in parts[j]
    ensures Split(Join(" ", parts[i + 1..]), ' ') == parts[i + 1..]
    ensures PV_KEY !in parts[i + 1..]
  {
    var tail := parts[i + 1..];
    forall j | 0 <= j < |tail|
      ensures ' ' !in tail[j] && tail[j] != PV_KEY
    {
      assert tail[j] == parts[i + 1 + j];
    }
    SplitJoin(tail, ' ');
  }

  // ---------------------------------------------------------------------------
  // styleToString

  /** The number of ASCII capitals in `s`. */
  function CountUpper(s: string): nat {
    if s == [] then 0 else (if IsUpper(s[0]) then 1 else 0) + CountUpper(s[1..])
  }

  /** `key.replace(/([A-Z])/g, '-$1')`: a hyphen before every capital. */
  function HyphenateCapitals(key: string): (r: string)
    ensures |r| == |key| + CountUpper(key)
  {
    if key == [] then []
    else (if IsUpper(key[0]) then ['-', key[0]] else [key[0]]) + HyphenateCapitals(key[1..])
  }

  /** `toLowerCase()`, on ASCII letters. */
  function LowerCase(s: string): (r: string)
    ensures |r| == |s|
    ensures forall j :: 0 <= j < |r| ==> !IsUpper(r[j])
  {
    if s == [] then [] else [ToLower(s[0])] + LowerCase(s[1..])
  }

  /** The CSS property name of a camelCase style key: one character longer
      per capital, and with no capital left. */
  function Kebab(key: string): (r: string)
    ensures |r| == |key| + CountUpper(key)
    ensures forall j :: 0 <= j < |r| ==> !IsUpper(r[j])
  {
    LowerCase(HyphenateCapitals(key))
  }

  /** Each capital becomes a hyphen and its lower-case form, and every
      other character is kept. */
  lemma {:induction false} KebabStep(c: char, rest: string)
    ensures Kebab([c] + rest) == (if IsUpper(c) then ['-', ToLower(c)] else [c]) + Kebab(rest)
  {
    assert ([c] + rest)[1..] == rest;
    var h := if IsUpper(c) then ['-', c] else [c];
    LowerAppend(h, HyphenateCapitals(rest));
    if IsUpper(c) {
      assert LowerCase(h) == ['-', ToLower(c)] by {
        assert h[1..] == [c];
        assert LowerCase([c]) == [ToLower(c)] + LowerCase([]);
      }
    } else {
      assert LowerCase(h) == [ToLower(c)] + LowerCase([]);
    }
  }

  lemma {:induction false} LowerAppend(a: string, b: string)
    ensures LowerCase(a + b) == LowerCase(a) + LowerCase(b)
    decreases |a|
  {
    if a == [] {
      assert a + b == b;
    } else {
      assert (a + b)[0] == a[0];
      assert (a + b)[1..] == a[1..] + b;
      LowerAppend(a[1..], b);
      assert LowerCase(a + b) == [ToLower(a[0])] + LowerCase(a[1..] + b);
      assert LowerCase(a) == [ToLower(a[0])] + LowerCase(a[1..]);
      assert LowerCase(a[1..] + b) == LowerCase(a[1..]) + LowerCase(b);
    }
  }

  /** The inverse conversion: a hyphen followed by a letter becomes that
      letter's capital. */
  function Camel(name: string): string
    decreases |name|
  {
    if name == [] then []
    else if name[0] == '-' && |name| >= 2 then [ToUpper(name[1])] + Camel(name[2..])
    else [name[0]] + Camel(name[1..])
  }

  /** A key without hyphens is recovered from its CSS name: the conversion
      loses nothing on such keys, so distinct keys give distinct names. */
  lemma {:induction false} CamelKebab(key: string)
    requires '-' !in key
    ensures Camel(Kebab(key)) == key
    decreases |key|
  {
    if key != [] {
      var c, rest := key[0], key[1..];
      assert key == [c] + rest;
      KebabStep(c, rest);
      CamelKebab(rest);
      var k := Kebab(rest);
      if IsUpper(c) {
        assert Kebab(key) == ['-', ToLower(c)] + k;
        assert (['-', ToLower(c)] + k)[2..] == k;
      } else {
        assert Kebab(key) == [c] + k;
        assert ([c] + k)[1..] == k;
      }
    }
  }

  /** One entry of an inline style: `key: value`. */
  function Declaration(key: string, value: string): (r: string)
    ensures |r| == |Kebab(key)| + 2 + |value|
    ensures r[..|Kebab(key)|] == Kebab(key)
    ensures r[|Kebab(key)|..|Kebab(key)| + 2] == ": "
    ensures r[|Kebab(key)| + 2..] == value
  {
    Kebab(key) + ": " + value
  }

  function Declarations(style: seq<(string, string)>): (r: seq<string>)
    ensures |r| == |style|
    ensures forall j :: 0 <= j < |style| ==> r[j] == Declaration(style[j].0, style[j].1)
  {
    if style == [] then [] else [Declaration(style[0].0, style[0].1)] + Declarations(style[1..])
  }

  /** `styleToString`: a style object's entries, in insertion order, as
      declarations joined by `; `. */
  function StyleToString(style: seq<(string, string)>): string {
    Join("; ", Declarations(style))
  }

  /** Only the empty style gives the empty string. */
  lemma StyleEmptyIff(style: seq<(string, string)>)
    ensures StyleToString(style) == "" <==> style == []
  {
    if style != [] {
      var d := Declarations(style);
      if |d| > 1 {
        assert StyleToString(style) == d[0] + "; " + Join("; ", d[1..]);
      }
      assert |Declaration(style[0].0, style[0].1)| >= 2;
    }
  }

  /** A style with one property is that property's declaration alone. */
  lemma StyleSingle(key: string, value: string)
    ensures StyleToString([(key, value)]) == Kebab(key) + ": " + value
  {
    assert Declarations([(key, value)]) == [Declaration(key, value)];
  }

  /** Adding a property appends its declaration after a `; `, leaving the
      text of the earlier properties as it was; the value is placed verbatim. */
  lemma StyleAppend(style: seq<(string, string)>, key: string, value: string)
    requires style != []
    ensures StyleToString(style + [(key, value)])
      == StyleToString(style) + "; " + Kebab(key) + ": " + value
  {
    var d := Declarations(style + [(key, value)]);
    assert d == Declarations(style) + [Declaration(key, value)];
    JoinAppend("; ", Declarations(style), [Declaration(key, value)]);
  }

  // ---------------------------------------------------------------------------
  // extractMoves

  /** One row of the page's move list: the text of its white and black move
      cells, where present. */
  datatype MoveRow = MoveRow(white: Option<string>, black: Option<string>)

  /** The cells of one row that exist, trimmed, white first. */
  function RowCells(row: MoveRow): (r: seq<string>)
    ensures |r| == (if row.white.Some? then 1 else 0) + (if row.black.Some? then 1 else 0)
    ensures row.white.Some? ==> r[0] == Strip(row.white.value)
    ensures row.black.Some? ==> r[|r| - 1] == Strip(row.black.value)
  {
    (if row.white.Some? then [Strip(row.white.value)] else [])
      + (if row.black.Some? then [Strip(row.black.value)] else [])
  }

  /** The moves scraped from `rows`, in page order. */
  function RowMoves(rows: seq<MoveRow>): seq<string>
    decreases |rows|
  {
    if rows == [] then [] else RowMoves(rows[..|rows| - 1]) + RowCells(rows[|rows| - 1])
  }

  /** The moves of consecutive runs of rows are the moves of each run, in
      page order. */
  lemma {:induction false} RowMovesConcat(a: seq<MoveRow>, b: seq<MoveRow>)
    ensures RowMoves(a + b) == RowMoves(a) + RowMoves(b)
    decreases |b|
  {
    if b == [] {
      assert a + b == a;
    } else {
      var b', row := b[..|b| - 1], b[|b| - 1];
      assert (a + b)[..|a + b| - 1] == a + b' && (a + b)[|a + b| - 1] == row;
      assert RowMoves(a + b) == RowMoves(a + b') + RowCells(row);
      RowMovesConcat(a, b');
      AppendAssoc(RowMoves(a), RowMoves(b'), RowCells(row));
    }
  }

  /** Concatenation of move lists is associative. */
  lemma AppendAssoc(x: seq<string>, y: seq<string>, z: seq<string>)
    ensures x + y + z == x + (y + z)
  {
  }

  /** After a white move the last row holds only the white cell: its move
      comes right after the two moves of each earlier full row. */
  lemma WhiteToMoveRows(rows: seq<MoveRow>)
    requires rows != []
    requires forall j :: 0 <= j < |rows| - 1 ==> rows[j].white.Some? && rows[j].black.Some?
    requires rows[|rows| - 1].white.Some? && rows[|rows| - 1].black.None?
    ensures |RowMoves(rows)| == 2 * |rows| - 1
    ensures forall j :: 0 <= j < |rows| - 1 ==>
      RowMoves(rows)[2 * j] == Strip(rows[j].white.value) && RowMoves(rows)[2 * j + 1] == Strip(rows[j].black.value)
    ensures RowMoves(rows)[2 * |rows| - 2] == Strip(rows[|rows| - 1].white.value)
  {
    var init := rows[..|rows| - 1];
    FullRowsMoves(init);
    assert RowMoves(rows) == RowMoves(init) + [Strip(rows[|rows| - 1].white.value)];
    forall j | 0 <= j < |rows| - 1
      ensures RowMoves(rows)[2 * j] == Strip(rows[j].white.value)
      ensures RowMoves(rows)[2 * j + 1] == Strip(rows[j].black.value)
    {
      assert rows[j] == init[j];
    }
  }

  /** A list of rows with every cell present yields two moves per row, the
      white move of row j at 2j and the black move at 2j + 1. */
  lemma {:induction false} FullRowsMoves(rows: seq<MoveRow>)
    requires forall j :: 0 <= j < |rows| ==> rows[j].white.Some? && rows[j].black.Some?
    ensures |RowMoves(rows)| == 2 * |rows|
    ensures forall j :: 0 <= j < |rows| ==>
      RowMoves(rows)[2 * j] == Strip(rows[j].white.value) && RowMoves(rows)[2 * j + 1] == Strip(rows[j].black.value)
    decreases |rows|
  {
    if rows != [] {
      var init := rows[..|rows| - 1];
      var last := rows[|rows| - 1];
      FullRowsMoves(init);
      var m, prev := RowMoves(rows), RowMoves(init);
      assert m == prev + [Strip(last.white.value), Strip(last.black.value)];
      forall j | 0 <= j < |rows|
        ensures m[2 * j] == Strip(rows[j].white.value)
        ensures m[2 * j + 1] == Strip(rows[j].black.value)
      {
        var k := 2 * j;
        if j < |init| {
          assert rows[j] == init[j];
          assert k + 1 < |prev|;
          assert m[k] == prev[k] && m[k + 1] == prev[k + 1];
        } else {
          assert j == |init| && k == |prev|;
          assert rows[j] == last;
        }
      }
    }
  }

  /** The lists sent when the stored list starts as `stored` and the page
      shows each list of `observed` in turn: a list is sent when it differs
      from the one stored before it. */
  function Sends(stored: seq<string>, observed: seq<seq<string>>): (r: seq<seq<string>>)
    ensures |r| <= |observed|
    ensures forall l :: l in r ==> l in observed
    decreases |observed|
  {
    if observed == [] then []
    else (if observed[0] != stored then [observed[0]] else []) + Sends(observed[0], observed[1..])
  }

  /** The same list is never sent twice in a row, and never right after
      being stored. */
  lemma {:induction false} SendsNoRepeats(stored: seq<string>, observed: seq<seq<string>>)
    ensures Sends(stored, observed) != [] ==> Sends(stored, observed)[0] != stored
    ensures forall j :: 0 < j < |Sends(stored, observed)| ==>
      Sends(stored, observed)[j - 1] != Sends(stored, observed)[j]
    decreases |observed|
  {
    if observed != [] {
      var rest := Sends(observed[0], observed[1..]);
      SendsNoRepeats(observed[0], observed[1..]);
      if observed[0] != stored {
        assert Sends(stored, observed) == [observed[0]] + rest;
      } else {
        assert Sends(stored, observed) == rest;
      }
    }
  }

  /** One more observation sends that list exactly when it differs from
      the list stored before it: the last observed one, or `stored` when
      nothing was observed yet. With `Sends(stored, []) == []` this fixes
      the whole log. */
  lemma {:induction false} SendsSnoc(stored: seq<string>, observed: seq<seq<string>>, m: seq<string>)
    ensures Sends(stored, observed + [m]) == Sends(stored, observed)
      + (if m != (if observed == [] then stored else observed[|observed| - 1]) then [m] else [])
    decreases |observed|
  {
    var o := observed + [m];
    if observed == [] {
      assert o == [m] && o[1..] == [];
    } else {
      assert o[0] == observed[0] && o[1..] == observed[1..] + [m];
      SendsSnoc(observed[0], observed[1..], m);
      if |observed| > 1 {
        assert observed[1..][|observed| - 2] == observed[|observed| - 1];
      }
    }
  }

  /** Seeing the same list twice in a row sends it at most once. */
  lemma SameListTwice(stored: seq<string>, moves: seq<string>)
    ensures Sends(stored, [moves, moves]) == (if moves != stored then [moves] else [])
  {
    assert [moves, moves][1..] == [moves];
    assert Sends(moves, [moves]) == [];
  }

  /** The page-side state: `gameMoves`, and the log of lists handed to
      `sendMovesToBackend`. */
  class MoveTracker {
    var gameMoves: seq<string>
    var sent: seq<seq<string>>

    /** The last list sent is the stored one, and no list is sent twice in
        a row. */
    ghost predicate Valid()
      reads this
    {
      && (sent == [] ==> gameMoves == [])
      && (sent != [] ==> sent[|sent| - 1] == gameMoves && sent[0] != [])
      && (forall j :: 0 < j < |sent| ==> sent[j - 1] != sent[j])
    }

    constructor()
      ensures Valid() && gameMoves == [] && sent == []
    {
      gameMoves := [];
      sent := [];
    }

    /** `extractMoves`: scrape the rows, and store and send the list only
        when it differs from the stored one. */
    method ExtractMoves(rows: seq<MoveRow>) returns (moves: seq<string>)
      requires Valid()
      modifies this
      ensures Valid()
      ensures moves == RowMoves(rows) && gameMoves == moves
      ensures sent == old(sent) + Sends(old(gameMoves), [moves])
      ensures |sent| == |old(sent)| + (if moves != old(gameMoves) then 1 else 0)
    {
      moves := [];
      for i := 0 to |rows|
        invariant moves == RowMoves(rows[..i])
      {
        assert rows[..i + 1][..i] == rows[..i];
        moves := moves + RowCells(rows[i]);
      }
      assert rows[..|rows|] == rows;
      assert Sends(old(gameMoves), [moves]) == (if moves != gameMoves then [moves] else []);
      if moves != gameMoves {
        gameMoves := moves;
        sent := sent + [moves];
      }
    }
  }
}
