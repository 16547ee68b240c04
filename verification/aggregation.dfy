/** The multi-variation depth aggregator of the engine bridge
    (`process_engine_line` in backend/server.py), as pure functions over the
    pair (current_depth, current_depth_buffer), with the properties the
    bridge relies on. The Bridge class applies them to its fields. */
module Aggregation {
  import opened Wrappers
  import opened Text
  import opened Chess
  import opened Patterns
  import opened Notation

  /** The configured number of principal variations, `MULTIPV`. */
  const MULTIPV := 5

  const INFO_MULTIPV := "info multipv"

  /** The depth and variation rank of a multi-variation line: None unless the
      line contains `info multipv` and both `depth (\d+)` and
      `multipv (\d+)` match. */
  function ParseHeader(line: string): Option<(nat, nat)>
  {
    if !Contains(line, INFO_MULTIPV) then None
    else
      match (NumberAfter(line, "depth "), NumberAfter(line, "multipv "))
      case (Some(d), Some(k)) => Some((d, k))
      case _ => None
  }

  /** A line is kept exactly when it contains `info multipv` and both number
      patterns match somewhere in it; the numbers are the leftmost matches. */
  lemma ParseHeaderFilter(line: string)
    ensures ParseHeader(line).Some? <==>
      && Contains(line, INFO_MULTIPV)
      && (exists p :: NumberAt(line, "depth ", p))
      && (exists p :: NumberAt(line, "multipv ", p))
    ensures ParseHeader(line).Some? ==>
      ParseHeader(line).value == (NumberAfter(line, "depth ").value, NumberAfter(line, "multipv ").value)
  {
  }

  /** The globals `current_depth` (None before the first line and after a
      reset) and `current_depth_buffer` (rank to rewritten line). */
  datatype Aggregate = Aggregate(depth: Option<nat>, buffer: map<nat, string>)

  /** Store `text` for rank `k` of depth `d`: a new depth first empties the
      buffer; within a depth the rank's entry is overwritten. */
  function Absorb(agg: Aggregate, d: nat, k: nat, text: string): (r: Aggregate)
    ensures r.depth == Some(d) && k in r.buffer && r.buffer[k] == text
    ensures agg.depth != Some(d) ==> r.buffer.Keys == {k}
    ensures agg.depth == Some(d) ==> r.buffer.Keys == agg.buffer.Keys + {k}
    ensures agg.depth == Some(d) ==> forall j :: j in agg.buffer && j != k ==> r.buffer[j] == agg.buffer[j]
    ensures agg.depth == Some(d) && k in agg.buffer ==> |r.buffer| == |agg.buffer|
  {
    var buffer := if agg.depth == Some(d) then agg.buffer else map[];
    Aggregate(Some(d), buffer[k := text])
  }

  /** The ranks `range(lo, MULTIPV)` that the buffer holds, in the order the
      batch loop visits them. */
  function Ranks(buffer: map<nat, string>, lo: nat): seq<nat>
    decreases MULTIPV - lo
  {
    if lo >= MULTIPV then []
    else (if lo in buffer then [lo] else []) + Ranks(buffer, lo + 1)
  }

  /** Every listed rank is held and lies in `lo..MULTIPV - 1`. */
  lemma {:induction false} RanksHeld(buffer: map<nat, string>, lo: nat)
    ensures forall j :: 0 <= j < |Ranks(buffer, lo)| ==>
      lo <= Ranks(buffer, lo)[j] < MULTIPV && Ranks(buffer, lo)[j] in buffer
    decreases MULTIPV - lo
  {
    if lo < MULTIPV {
      var rest := Ranks(buffer, lo + 1);
      RanksHeld(buffer, lo + 1);
      if lo in buffer {
        var r := [lo] + rest;
        assert Ranks(buffer, lo) == r;
        forall j | 0 < j < |r|
          ensures lo <= r[j] < MULTIPV && r[j] in buffer
        {
          assert r[j] == rest[j - 1];
        }
      } else {
        assert Ranks(buffer, lo) == rest;
      }
    }
  }

  /** The listed ranks are strictly ascending. */
  lemma {:induction false} RanksAscending(buffer: map<nat, string>, lo: nat)
    ensures forall j :: 0 < j < |Ranks(buffer, lo)| ==> Ranks(buffer, lo)[j - 1] < Ranks(buffer, lo)[j]
    decreases MULTIPV - lo
  {
    if lo < MULTIPV {
      var rest := Ranks(buffer, lo + 1);
      RanksAscending(buffer, lo + 1);
      if lo in buffer {
        var r := [lo] + rest;
        assert Ranks(buffer, lo) == r;
        if rest != [] {
          RanksHeld(buffer, lo + 1);
          assert r[0] < rest[0] == r[1];
        }
        forall j | 1 < j < |r|
          ensures r[j - 1] < r[j]
        {
          assert r[j - 1] == rest[j - 2] && r[j] == rest[j - 1];
        }
      } else {
        assert Ranks(buffer, lo) == rest;
      }
    }
  }

  /** Every held rank in `lo..MULTIPV - 1` is listed. */
  lemma {:induction false} RanksComplete(buffer: map<nat, string>, lo: nat)
    ensures forall k :: lo <= k < MULTIPV && k in buffer ==> k in Ranks(buffer, lo)
    decreases MULTIPV - lo
  {
    if lo < MULTIPV {
      var rest := Ranks(buffer, lo + 1);
      RanksComplete(buffer, lo + 1);
      assert Ranks(buffer, lo) == (if lo in buffer then [lo] else []) + rest;
    }
  }

  /** The lines the batch loop collects from rank `lo` on. */
  function BatchFrom(buffer: map<nat, string>, lo: nat): seq<string>
    decreases MULTIPV - lo
  {
    if lo >= MULTIPV then []
    else (if lo in buffer then [buffer[lo]] else []) + BatchFrom(buffer, lo + 1)
  }

  /** The batch from rank `lo` holds one line per collected rank. */
  lemma {:induction false} BatchFromLength(buffer: map<nat, string>, lo: nat)
    ensures |BatchFrom(buffer, lo)| == |Ranks(buffer, lo)|
    decreases MULTIPV - lo
  {
    if lo < MULTIPV {
      BatchFromLength(buffer, lo + 1);
      assert Ranks(buffer, lo) == (if lo in buffer then [lo] else []) + Ranks(buffer, lo + 1);
    }
  }

  lemma {:induction false} BatchFromRanks(buffer: map<nat, string>, lo: nat)
    ensures |BatchFrom(buffer, lo)| == |Ranks(buffer, lo)|
    ensures forall j :: 0 <= j < |BatchFrom(buffer, lo)| ==>
      Ranks(buffer, lo)[j] in buffer && BatchFrom(buffer, lo)[j] == buffer[Ranks(buffer, lo)[j]]
    decreases MULTIPV - lo
  {
    if lo < MULTIPV {
      var ranks, batch := Ranks(buffer, lo + 1), BatchFrom(buffer, lo + 1);
      BatchFromRanks(buffer, lo + 1);
      if lo in buffer {
        assert Ranks(buffer, lo) == [lo] + ranks;
        assert BatchFrom(buffer, lo) == [buffer[lo]] + batch;
        forall j | 1 <= j < |batch| + 1
          ensures ([lo] + ranks)[j] in buffer && ([buffer[lo]] + batch)[j] == buffer[([lo] + ranks)[j]]
        {
          assert ([buffer[lo]] + batch)[j] == batch[j - 1];
          assert ([lo] + ranks)[j] == ranks[j - 1];
        }
      } else {
        assert Ranks(buffer, lo) == ranks;
        assert BatchFrom(buffer, lo) == batch;
      }
    }
  }

  /** The batch `[buffer[i] for i in range(1, MULTIPV) if i in buffer]`: the
      stored lines of ranks 1..4, ascending; rank 5 is never included. */
  function BatchOf(buffer: map<nat, string>): (r: seq<string>)
    ensures |r| <= MULTIPV - 1
  {
    RanksBound(buffer, 1);
    BatchFromLength(buffer, 1);
    BatchFrom(buffer, 1)
  }

  /** The batch holds at most four lines: the buffer's lines of the ranks it
      holds among 1..4, in ascending rank order. */
  lemma BatchOfRanks(buffer: map<nat, string>)
    ensures |BatchOf(buffer)| == |Ranks(buffer, 1)| <= MULTIPV - 1
    ensures forall j :: 0 <= j < |BatchOf(buffer)| ==>
      Ranks(buffer, 1)[j] in buffer && BatchOf(buffer)[j] == buffer[Ranks(buffer, 1)[j]]
  {
    RanksBound(buffer, 1);
    BatchFromRanks(buffer, 1);
  }

  lemma {:induction false} RanksBound(buffer: map<nat, string>, lo: nat)
    requires lo <= MULTIPV
    ensures |Ranks(buffer, lo)| <= MULTIPV - lo
    decreases MULTIPV - lo
  {
    if lo < MULTIPV {
      var rest := Ranks(buffer, lo + 1);
      RanksBound(buffer, lo + 1);
      assert Ranks(buffer, lo) == (if lo in buffer then [lo] else []) + rest;
    }
  }

  /** With ranks 1..4 all present, the batch is exactly their lines in rank
      order, whatever order they arrived in. */
  lemma FullRanksBatch(buffer: map<nat, string>)
    requires 1 in buffer && 2 in buffer && 3 in buffer && 4 in buffer
    ensures BatchOf(buffer) == [buffer[1], buffer[2], buffer[3], buffer[4]]
  {
    var tail := BatchFrom(buffer, 2);
    assert tail == [buffer[2], buffer[3], buffer[4]] by {
      assert BatchFrom(buffer, 4) == [buffer[4]];
      assert BatchFrom(buffer, 3) == [buffer[3], buffer[4]];
    }
    assert BatchFrom(buffer, 1) == [buffer[1]] + tail;
  }

  /** `process_engine_line(line)` on state `agg`, with `board` the current
      board: the new state, and the batch it returns (None for `None`). */
  function Step(chess: Library, board: Board, agg: Aggregate, line: string): (Aggregate, Option<seq<string>>)
  {
    match ParseHeader(line)
    case None => (agg, None)
    case Some((d, k)) =>
      var next := Absorb(agg, d, k, ParseEngineOutput(chess, board, line));
      (next, if |next.buffer| == 5 then Some(BatchOf(next.buffer)) else None)
  }

  /** A line without a complete header changes nothing and returns nothing;
      a header line stores its rewrite under its rank at its depth, and a
      batch comes back exactly when the buffer then holds five ranks. */
  lemma StepSpec(chess: Library, board: Board, agg: Aggregate, line: string)
    ensures ParseHeader(line).None? ==> Step(chess, board, agg, line) == (agg, None)
    ensures ParseHeader(line).Some? ==>
      var r := Step(chess, board, agg, line);
      && r.0.depth == Some(ParseHeader(line).value.0)
      && r.0.buffer == (if agg.depth == r.0.depth then agg.buffer else map[])[ParseHeader(line).value.1 := ParseEngineOutput(chess, board, line)]
      && (r.1.Some? <==> |r.0.buffer| == 5)
      && (r.1.Some? ==> r.1.value == BatchOf(r.0.buffer))
  {
  }

  /** Every buffer entry is the rewrite of a raw line against the board of
      its time, both recorded in `origin` under the same rank, and that
      line's header carries the current depth and that rank. */
  ghost predicate Traced(chess: Library, agg: Aggregate, origin: map<nat, (Board, string)>)
  {
    && origin.Keys == agg.buffer.Keys
    && forall k :: k in agg.buffer ==>
         && agg.depth.Some?
         && ParseHeader(origin[k].1) == Some((agg.depth.value, k))
         && agg.buffer[k] == ParseEngineOutput(chess, origin[k].0, origin[k].1)
  }

  /** The boards and raw lines behind the buffer after `Step` on `line`. */
  ghost function StepOrigin(agg: Aggregate, origin: map<nat, (Board, string)>, board: Board, line: string): map<nat, (Board, string)>
  {
    match ParseHeader(line)
    case None => origin
    case Some((d, k)) => (if agg.depth == Some(d) then origin else map[])[k := (board, line)]
  }

  /** Storing the rewrite of a header line keeps every entry traced. */
  lemma TracedAbsorb(chess: Library, agg: Aggregate, origin: map<nat, (Board, string)>, board: Board, line: string, d: nat, k: nat, text: string)
    requires Traced(chess, agg, origin) && ParseHeader(line) == Some((d, k))
    requires text == ParseEngineOutput(chess, board, line)
    ensures Traced(chess, Absorb(agg, d, k, text), (if agg.depth == Some(d) then origin else map[])[k := (board, line)])
  {
    var next := Absorb(agg, d, k, text);
    var o := (if agg.depth == Some(d) then origin else map[])[k := (board, line)];
    assert o.Keys == next.buffer.Keys;
    forall j | j in next.buffer
      ensures next.depth.Some? && ParseHeader(o[j].1) == Some((next.depth.value, j))
      ensures next.buffer[j] == ParseEngineOutput(chess, o[j].0, o[j].1)
    {
      if j != k {
        assert agg.depth == Some(d) && j in agg.buffer;
        assert next.buffer[j] == agg.buffer[j] && o[j] == origin[j];
      }
    }
  }

  /** `Step` keeps every buffer entry the rewrite of a line of the current
      depth: a new depth drops the entries of the old one. */
  lemma StepKeepsTraced(chess: Library, board: Board, agg: Aggregate, origin: map<nat, (Board, string)>, line: string)
    requires Traced(chess, agg, origin)
    ensures Traced(chess, Step(chess, board, agg, line).0, StepOrigin(agg, origin, board, line))
  {
    match ParseHeader(line)
    case None =>
    case Some((d, k)) =>
      TracedAbsorb(chess, agg, origin, board, line, d, k, ParseEngineOutput(chess, board, line));
  }

  /** Once the buffer is full, every further line of the same depth for a rank
      already stored returns the batch again. */
  lemma FullBufferRefires(chess: Library, board: Board, agg: Aggregate, line: string)
    requires ParseHeader(line).Some?
    requires agg.depth == Some(ParseHeader(line).value.0)
    requires ParseHeader(line).value.1 in agg.buffer && |agg.buffer| == 5
    ensures |Step(chess, board, agg, line).0.buffer| == 5
    ensures Step(chess, board, agg, line).1 == Some(BatchOf(Step(chess, board, agg, line).0.buffer))
  {
  }

  /** A line of a new depth never completes a batch: the buffer restarts with
      that line alone. */
  lemma NewDepthNeverCompletes(chess: Library, board: Board, agg: Aggregate, line: string)
    requires ParseHeader(line).Some? && agg.depth != Some(ParseHeader(line).value.0)
    ensures |Step(chess, board, agg, line).0.buffer| == 1
    ensures Step(chess, board, agg, line).1.None?
  {
  }

  /** Absorbing a run of same-depth lines, one (rank, text) per line. */
  function AbsorbAll(agg: Aggregate, d: nat, lines: seq<(nat, string)>): Aggregate
    decreases |lines|
  {
    if lines == [] then agg else AbsorbAll(Absorb(agg, d, lines[0].0, lines[0].1), d, lines[1..])
  }

  predicate DistinctRanks(lines: seq<(nat, string)>) {
    forall i, j :: 0 <= i < j < |lines| ==> lines[i].0 != lines[j].0
  }

  lemma {:induction false} AbsorbAllSameDepth(agg: Aggregate, d: nat, lines: seq<(nat, string)>)
    requires agg.depth == Some(d) && DistinctRanks(lines)
    requires forall i :: 0 <= i < |lines| ==> lines[i].0 !in agg.buffer
    ensures AbsorbAll(agg, d, lines).depth == Some(d)
    ensures |AbsorbAll(agg, d, lines).buffer| == |agg.buffer| + |lines|
    ensures forall i :: 0 <= i < |lines| ==>
      lines[i].0 in AbsorbAll(agg, d, lines).buffer && AbsorbAll(agg, d, lines).buffer[lines[i].0] == lines[i].1
    ensures forall k :: k in agg.buffer ==>
      k in AbsorbAll(agg, d, lines).buffer && AbsorbAll(agg, d, lines).buffer[k] == agg.buffer[k]
    decreases |lines|
  {
    if lines != [] {
      var next := Absorb(agg, d, lines[0].0, lines[0].1);
      var rest := lines[1..];
      assert forall i :: 0 <= i < |rest| ==> rest[i] == lines[i + 1];
      AbsorbAllSameDepth(next, d, rest);
      var fin := AbsorbAll(agg, d, lines);
      assert fin == AbsorbAll(next, d, rest);
      forall i | 0 <= i < |lines|
        ensures lines[i].0 in fin.buffer && fin.buffer[lines[i].0] == lines[i].1
      {
        if i > 0 {
          assert lines[i] == rest[i - 1];
        }
      }
      forall k | k in agg.buffer
        ensures k in fin.buffer && fin.buffer[k] == agg.buffer[k]
      {
        assert k != lines[0].0;
      }
    }
  }

  /** Lines of one new depth for distinct ranks: the buffer then holds exactly
      one entry per line, each rank mapped to its own line, whatever the
      arrival order; so it reaches the completion size 5 exactly at the fifth
      distinct rank. */
  lemma {:induction false} DistinctRanksFill(agg: Aggregate, d: nat, lines: seq<(nat, string)>)
    requires agg.depth != Some(d) && lines != [] && DistinctRanks(lines)
    ensures AbsorbAll(agg, d, lines).depth == Some(d)
    ensures |AbsorbAll(agg, d, lines).buffer| == |lines|
    ensures forall i :: 0 <= i < |lines| ==>
      lines[i].0 in AbsorbAll(agg, d, lines).buffer && AbsorbAll(agg, d, lines).buffer[lines[i].0] == lines[i].1
  {
    var first := Absorb(agg, d, lines[0].0, lines[0].1);
    var rest := lines[1..];
    assert forall i :: 0 <= i < |rest| ==> rest[i] == lines[i + 1];
    assert |first.buffer| == 1;
    AbsorbAllSameDepth(first, d, rest);
    var fin := AbsorbAll(agg, d, lines);
    forall i | 0 <= i < |lines|
      ensures lines[i].0 in fin.buffer && fin.buffer[lines[i].0] == lines[i].1
    {
      if i == 0 {
        assert lines[0].0 in first.buffer;
      } else {
        assert lines[i] == rest[i - 1];
      }
    }
  }
}
