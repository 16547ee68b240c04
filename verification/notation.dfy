/** Move-notation translation of the engine bridge (backend/server.py):
    `convert_san_to_lan` (SAN list to UCI list, from the initial position) and
    `parse_engine_output` (rewrite the pv span of an engine line into SAN,
    walking a copy of the current board). */
module Notation {
  import opened Wrappers
  import opened Text
  import opened Chess
  import opened Patterns

  const INVALID_SAN_MOVE := "Invalid SAN move: "

  // ---------------------------------------------------------------------------
  // convert_san_to_lan

  /** `ucis` is what parsing `sans` one by one yields, each SAN read in the
      position reached by the UCI moves before it. */
  ghost predicate Replays(chess: Library, board: Board, sans: seq<string>, ucis: seq<Uci>) {
    && |ucis| == |sans|
    && forall i :: 0 <= i < |sans| ==> chess.parseSan(board + ucis[..i], sans[i]) == Some(ucis[i])
  }

  /** The loop of `convert_san_to_lan` from position `board`: parse each SAN,
      record its UCI text and push it; the first failure raises. */
  function ConvertFrom(chess: Library, board: Board, sans: seq<string>): (r: Result<seq<Uci>, string>)
    ensures r.Ok? ==> |r.value| == |sans|
    ensures r.Err? ==> exists i :: 0 <= i < |sans| && r.error == INVALID_SAN_MOVE + sans[i]
    decreases |sans|
  {
    if sans == [] then Ok([])
    else
      match chess.parseSan(board, sans[0])
      case None => Err(INVALID_SAN_MOVE + sans[0])
      case Some(m) =>
        match ConvertFrom(chess, board + [m], sans[1..])
        case Err(e) => Err(e)
        case Ok(rest) => Ok([m] + rest)
  }

  lemma {:induction false} ConvertFromReplays(chess: Library, board: Board, sans: seq<string>)
    ensures ConvertFrom(chess, board, sans).Ok? ==> Replays(chess, board, sans, ConvertFrom(chess, board, sans).value)
    decreases |sans|
  {
    if sans != [] && ConvertFrom(chess, board, sans).Ok? {
      var m := chess.parseSan(board, sans[0]).value;
      var rest := ConvertFrom(chess, board + [m], sans[1..]).value;
      ConvertFromReplays(chess, board + [m], sans[1..]);
      var ucis := [m] + rest;
      forall i | 0 <= i < |sans|
        ensures chess.parseSan(board + ucis[..i], sans[i]) == Some(ucis[i])
      {
        if i == 0 {
          assert board + ucis[..0] == board;
        } else {
          assert board + ucis[..i] == (board + [m]) + rest[..i - 1];
          assert sans[1..][i - 1] == sans[i];
        }
      }
    }
  }

  /** `convert_san_to_lan(san_moves)`: always starts from the initial position;
      on success one UCI move per SAN move, in order. */
  function ConvertSanToLan(chess: Library, sans: seq<string>): (r: Result<seq<Uci>, string>)
    ensures r.Ok? ==> Replays(chess, INITIAL_BOARD, sans, r.value)
    ensures r.Err? ==> exists i :: 0 <= i < |sans| && r.error == INVALID_SAN_MOVE + sans[i]
  {
    ConvertFromReplays(chess, INITIAL_BOARD, sans);
    ConvertFrom(chess, INITIAL_BOARD, sans)
  }

  /** Every list that replays is accepted, and converts to exactly that list. */
  lemma {:induction false} ConvertAcceptsReplay(chess: Library, board: Board, sans: seq<string>, ucis: seq<Uci>)
    requires Replays(chess, board, sans, ucis)
    ensures ConvertFrom(chess, board, sans) == Ok(ucis)
    decreases |sans|
  {
    if sans != [] {
      assert board + ucis[..0] == board;
      forall i | 0 <= i < |sans| - 1
        ensures chess.parseSan((board + [ucis[0]]) + ucis[1..][..i], sans[1..][i]) == Some(ucis[1..][i])
      {
        assert (board + [ucis[0]]) + ucis[1..][..i] == board + ucis[..i + 1];
      }
      ConvertAcceptsReplay(chess, board + [ucis[0]], sans[1..], ucis[1..]);
      assert ucis == [ucis[0]] + ucis[1..];
    }
  }

  /** When the moves before index i replay and move i does not parse, the
      conversion fails naming move i: the first invalid move raises and no
      partial list is returned. */
  lemma {:induction false} ConvertStopsAtFirstInvalid(chess: Library, board: Board, sans: seq<string>, i: nat, ucis: seq<Uci>)
    requires i < |sans|
    requires Replays(chess, board, sans[..i], ucis)
    requires chess.parseSan(board + ucis, sans[i]).None?
    ensures ConvertFrom(chess, board, sans) == Err(INVALID_SAN_MOVE + sans[i])
    decreases i
  {
    if i == 0 {
      assert board + ucis == board;
    } else {
      assert board + ucis[..0] == board;
      assert sans[..i][0] == sans[0];
      var m := ucis[0];
      assert chess.parseSan(board, sans[0]) == Some(m);
      forall j | 0 <= j < i - 1
        ensures chess.parseSan((board + [m]) + ucis[1..][..j], sans[1..][..i - 1][j]) == Some(ucis[1..][j])
      {
        assert (board + [m]) + ucis[1..][..j] == board + ucis[..j + 1];
        assert sans[1..][..i - 1][j] == sans[..i][j + 1];
      }
      assert (board + [m]) + ucis[1..] == board + ucis;
      ConvertStopsAtFirstInvalid(chess, board + [m], sans[1..], i - 1, ucis[1..]);
    }
  }

  // ---------------------------------------------------------------------------
  // parse_engine_output

  /** Every UCI move of `ucis` renders as SAN in the position reached by the
      moves before it. */
  ghost predicate AllRender(chess: Library, board: Board, ucis: seq<Uci>) {
    forall i :: 0 <= i < |ucis| ==> chess.san(board + ucis[..i], ucis[i]).Some?
  }

  /** `sans` is the SAN rendering of `ucis`, move by move. */
  ghost predicate Renders(chess: Library, board: Board, ucis: seq<Uci>, sans: seq<string>) {
    && |sans| == |ucis|
    && forall i :: 0 <= i < |ucis| ==> chess.san(board + ucis[..i], ucis[i]) == Some(sans[i])
  }

  /** The loop of `parse_engine_output` over a scratch copy of the board:
      render each move, then push it; None at the first move that raises. */
  function SanWalk(chess: Library, board: Board, ucis: seq<Uci>): (r: Option<seq<string>>)
    ensures r.Some? ==> |r.value| == |ucis|
    decreases |ucis|
  {
    if ucis == [] then Some([])
    else
      match chess.san(board, ucis[0])
      case None => None
      case Some(m) =>
        match SanWalk(chess, board + [ucis[0]], ucis[1..])
        case None => None
        case Some(rest) => Some([m] + rest)
  }

  /** The walk succeeds exactly when every move renders, and then yields the
      move-by-move rendering. */
  lemma {:induction false} SanWalkRenders(chess: Library, board: Board, ucis: seq<Uci>)
    ensures SanWalk(chess, board, ucis).Some? <==> AllRender(chess, board, ucis)
    ensures SanWalk(chess, board, ucis).Some? ==> Renders(chess, board, ucis, SanWalk(chess, board, ucis).value)
    decreases |ucis|
  {
    if ucis != [] {
      var next := board + [ucis[0]];
      SanWalkRenders(chess, next, ucis[1..]);
      assert board + ucis[..0] == board;
      forall i | 0 <= i < |ucis| - 1
        ensures next + ucis[1..][..i] == board + ucis[..i + 1] && ucis[1..][i] == ucis[i + 1]
      {
        assert next + ucis[1..][..i] == board + ucis[..i + 1];
      }
      if AllRender(chess, board, ucis) {
        assert AllRender(chess, next, ucis[1..]);
      }
      if SanWalk(chess, board, ucis).Some? {
        var m := chess.san(board, ucis[0]).value;
        var rest := SanWalk(chess, next, ucis[1..]).value;
        assert SanWalk(chess, board, ucis).value == [m] + rest;
        forall i | 0 <= i < |ucis|
          ensures chess.san(board + ucis[..i], ucis[i]) == Some(([m] + rest)[i])
        {
          if i > 0 {
            assert chess.san(next + ucis[1..][..i - 1], ucis[1..][i - 1]) == Some(rest[i - 1]);
          }
        }
      }
    }
  }

  /** The UCI tokens of a pv span: `group(1).strip().split()`. Stripping
      first changes nothing: the tokens are the whitespace-separated words
      of the span, each non-empty and free of whitespace. */
  function PvTokens(span: string): (r: seq<Uci>)
    ensures forall j :: 0 <= j < |r| ==> IsWord(r[j])
    ensures r == Words(span)
  {
    WordsStrip(span);
    Words(Strip(span))
  }

  /** `parse_engine_output(output)` against `board` (the current board, which a
      copy protects): with no pv match, or when a move fails to parse or
      render, the line comes back unchanged; otherwise only the pv span is
      replaced, by the space-joined SAN moves, one per UCI token. */
  function ParseEngineOutput(chess: Library, board: Board, output: string): (r: string)
    ensures PvGroup(output).None? ==> r == output
    ensures PvGroup(output).Some? ==>
      var (st, en) := PvGroup(output).value;
      var ucis := PvTokens(output[st..en]);
      && (!AllRender(chess, board, ucis) ==> r == output)
      && (AllRender(chess, board, ucis) ==>
            exists sans :: Renders(chess, board, ucis, sans) && r == output[..st] + Join(" ", sans) + output[en..])
  {
    match PvGroup(output)
    case None => output
    case Some((st, en)) =>
      var ucis := PvTokens(output[st..en]);
      SanWalkRenders(chess, board, ucis);
      match SanWalk(chess, board, ucis)
      case None => output
      case Some(sans) => output[..st] + Join(" ", sans) + output[en..]
  }
}
