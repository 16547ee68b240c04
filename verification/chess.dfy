/** What the engine bridge uses of the chess library, left uninterpreted:
    legality and algebraic (SAN) rendering are parameters of the model. */
module Chess {
  import opened Wrappers

  /** A move in UCI coordinate notation, such as "g1f3". */
  type Uci = string

  /** A position, identified with the moves pushed since the initial position
      (the library's board keeps exactly this move stack). */
  type Board = seq<Uci>

  /** The initial position, `chess.Board()`. */
  const INITIAL_BOARD: Board := []

  /** The two library operations the bridge depends on, as total functions:
      - parseSan(board, san): `board.parse_san(san).uci()`, None where
        `parse_san` raises ValueError (malformed, illegal or ambiguous SAN);
      - san(board, uci): `board.san(chess.Move.from_uci(uci))`, None where
        either call raises.
      Pushing a move onto a board appends its UCI text. */
  datatype Library = Library(
    parseSan: (Board, string) -> Option<Uci>,
    san: (Board, Uci) -> Option<string>)
}
