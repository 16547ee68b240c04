# Chess-Bot engine bridge, modelled in Dafny

Chess-Bot connects a browser extension to a UCI chess engine. The backend,
`backend/server.py`, does four things:

- It starts and stops the engine process.
- It writes UCI commands to the engine's stdin.
- It turns the SAN moves scraped from the page into UCI moves.
- It reads the engine's lines that contain the literal text `info multipv`
  (so an engine that prints `info depth 10 seldepth 14 multipv 1 ...`, the
  usual field order, has every line dropped), rewrites their principal
  variations into SAN against the current board, and groups
  them by search depth. When a depth is complete, it publishes the batch
  over a socket (`engine_output`), followed by the best line
  (`engine_output_single`).

The extension, `extension/content.js`, does three things:

- It parses the best line for display (`parseEngineLine`).
- It turns camelCase style objects into inline CSS (`styleToString`).
- It sends the scraped move list to the backend only when the list has
  changed (`extractMoves`).

The model has eight modules, one per file:

- `Wrappers`: `Option`, `Result` and `Outcome`. These stand for the
  source's `None` results and raised exceptions.
- `Text`: character classes, `strip`/`trim`, `in` on strings, and
  `join`/`split`, with their round trips.
- `Patterns`: the three regular expressions of the bridge, analysed by
  hand. These are `depth (\d+)`, `multipv (\d+)` and
  `pv\s+((?:\w+\d+\w+\d+\s*)+)`, including how Python's backtracking
  decides the span of the pv group.
- `Chess`: the chess library, left uninterpreted. It is two total
  functions: SAN parsing and SAN rendering. A board is the list of UCI
  moves pushed since the initial position.
- `Notation`: `convert_san_to_lan` and `parse_engine_output`.
- `Aggregation`: `process_engine_line` as a pure step on the pair
  (`current_depth`, `current_depth_buffer`), with its properties.
- `Server`:
  - the module's globals as the fields of class `Bridge`;
  - the engine helpers and the HTTP handlers as methods that change those
    fields;
  - the socket as an append-only event log;
  - the engine's stdin as an append-only log of command lines;
  - the reader thread as a sequential fold over the engine's output
    lines.
- `ContentScript`:
  - `parseEngineLine` as a loop proved against a specification function;
  - `styleToString` and its key conversion, with the inverse conversion;
  - `extractMoves` as a method of class `MoveTracker`, which holds
    `gameMoves` and the log of sent lists.

The model follows the code as written where it differs from the intended
behaviour:

- **Completion re-fires.** The intended behaviour is edge-triggered
  completion: a depth completes once. The code tests `len(buffer) == 5`
  after every store. So a further line of a full depth for a rank already held publishes the batch again
  (`FullBufferRefires`); a line for a new rank makes the size 6 and ends
  the re-firing. A full buffer that holds none of ranks 1 to 4 gives an
  empty batch, which publishes nothing (`OutputStepSpec`).
- **Completion counts entries.** The test is the literal 5, not "ranks
  1..N present". The batch loop `range(1, MULTIPV)` never includes rank 5.
  A complete batch therefore holds at most four lines, never the fifth
  variation (`BatchOfRanks`, `FullRanksBatch`).
- **/start resets the board first.** The board is reset even when starting
  fails, for example because an engine is already running. Starting while
  running is rejected rather than replacing the old engine.
- **/start keeps the depth state.** `current_depth` and
  `current_depth_buffer` are left from the previous run; only /stop and
  /moves clear them (`StartAnalysis` keeps `depth` and `buffer`).
- **An empty move list is rejected.** /moves refuses it as invalid input;
  it does not reset the board.
- **/stop keeps the board.** It clears the depth state but leaves
  `current_board` as it was.
- **A write to an exited engine raises.** `send_command` and `stop_engine`
  write to the engine's stdin, which raises a broken-pipe error once the
  engine has exited. /stop then answers with that error after clearing
  `running` but before dropping the handle, so /status still says
  "running" and /start refuses. /moves answers with the error after it has
  already published `clear_output`, replaced the board and reset the depth
  state. /start answers with it after a successful spawn, keeping the new
  handle.
- **/status reads the handle only.** It reports "running" while the
  process handle is set, even after the engine has exited on its own and
  the reader has stopped.

## Model

| member | source | states |
|---|---|---|
| Text.Strip | backend/server.py:149 | the result is a slice of the input with only whitespace before and after it, and neither starts nor ends with whitespace; a string that already has none is unchanged |
| Text.IndexOf | backend/server.py:97 | the first occurrence at or after `from`; none earlier; `None` only when there is no occurrence |
| Text.Split | extension/content.js:95 | at least one piece, and no piece contains the separator |
| Text.JoinSplit | extension/content.js:95 | joining the pieces of a split with the same separator gives the string back |
| Text.SplitJoin | extension/content.js:101 | splitting the join of separator-free pieces gives the pieces back |
| Text.JoinAppend | extension/content.js:74 | the join of two non-empty lists is the two joins with one separator between them |
| Text.ToLower | extension/content.js:73 | a capital becomes the matching lower-case letter; any other character is unchanged |
| Text.Words | backend/server.py:73 | every word is non-empty and holds no whitespace; there are no more words than characters; a string that starts with a non-space character has a first word starting with it |
| Text.WordsAllSpace | backend/server.py:73 | a string of whitespace only has no words |
| Text.WordsSingle | backend/server.py:73 | a non-empty run without whitespace is exactly one word |
| Text.WordsSplitAt | backend/server.py:73 | a whitespace character splits the words: the words of `a + [c] + b` are those of `a` followed by those of `b` |
| Text.WordsDropSpaces | backend/server.py:73 | leading whitespace does not change the words |
| Text.WordsTrailingSpaces | backend/server.py:73 | trailing whitespace does not change the words |
| Text.WordsStrip | backend/server.py:73 | `strip()` before `split()` does not change the words |
| Patterns.FindNumber | backend/server.py:100-101 | the leftmost position where `key` is followed by a digit; nothing matches before it; `None` when nothing matches |
| Patterns.DecimalValue | backend/server.py:108-109 | Python's `int` of a digit string, leading zeros allowed; used by `NumberAfterValue` |
| Patterns.NumberAfter | backend/server.py:100-109 | a number is found exactly when `key\d+` matches somewhere (its value: `NumberAfterValue`) |
| Patterns.NumberAfterValue | backend/server.py:100-109 | the number is the decimal value of the maximal digit run after the leftmost match of `key` followed by a digit |
| Patterns.ChunkEnd | backend/server.py:69 | the greedy `\w+\d+\w+\d+` tried at a position spans at least four characters |
| Patterns.ChunkEndMatches | backend/server.py:69 | the span found splits as word run, digits, word run, digits |
| Patterns.ChunkEndLongest | backend/server.py:69 | any way the chunk matches at a position ends no later than the span found |
| Patterns.GroupEnd | backend/server.py:69 | the repeated group ends no earlier than its first chunk (its full shape: `GroupEndRepeats`) |
| Patterns.GroupEndRepeats | backend/server.py:69 | the group is a repetition of longest chunks each followed by its whitespace, and no further chunk matches where it ends |
| Patterns.PvGroupAt | backend/server.py:69 | a match at `p` starts with `pv` and whitespace, group 1 is non-empty and only whitespace precedes it (its full characterisation: `PvGroupAtSpec`) |
| Patterns.ChunkAtIff | backend/server.py:69 | the chunk search succeeds at a position exactly when some split of `\w+\d+\w+\d+` matches there |
| Patterns.PvGroupAtSpec | backend/server.py:69 | the pattern matches at `p` if and only if `pv`, at least one whitespace character and then a chunk stand at `p`; group 1 then starts after all that whitespace, is a repetition of longest chunks each with its whitespace, and ends where no further chunk matches |
| Patterns.PvSearch | backend/server.py:69 | the leftmost match position; no match at any earlier position |
| Patterns.PvGroup | backend/server.py:69 | the group-1 span lies after `pv ` and is non-empty, and is the span of the match at the leftmost matching position; `None` means no position matches |
| Notation.ConvertFrom | backend/server.py:52-58 | on success, one UCI move per SAN; on failure, the error names one of the SANs |
| Notation.ConvertFromReplays | backend/server.py:52-56 | on success, each UCI move is what SAN parsing gave in the position after the moves before it |
| Notation.ConvertSanToLan | backend/server.py:44-59 | starts from the initial position; on success the moves replay; on failure, `Invalid SAN move: <san>` |
| Notation.ConvertAcceptsReplay | backend/server.py:52-56 | a list that replays is accepted and converts to exactly that list |
| Notation.ConvertStopsAtFirstInvalid | backend/server.py:53-58 | the first SAN that does not parse is the one the error names |
| Notation.SanWalk | backend/server.py:75-80 | on success, one SAN per UCI move |
| Notation.SanWalkRenders | backend/server.py:77-80 | the walk succeeds exactly when every move renders, and then each SAN is the rendering in its own position |
| Notation.PvTokens | backend/server.py:73 | the moves of the stripped span split on whitespace are the words of the span itself, each non-empty and free of whitespace |
| Notation.ParseEngineOutput | backend/server.py:62-87 | without a pv match the line is unchanged; otherwise only the group-1 span is replaced, by the SAN walk joined with spaces, or the line is unchanged when a move fails |
| Aggregation.ParseHeaderFilter | backend/server.py:97-109 | a line is kept exactly when it contains `info multipv` and both `depth N` and `multipv N` match; the header is their two numbers |
| Aggregation.ParseHeader | backend/server.py:97-109 | the header of a line; specified by `ParseHeaderFilter` |
| Aggregation.Step | backend/server.py:90-125 | one call of `process_engine_line`; specified by `StepSpec` |
| Aggregation.Absorb | backend/server.py:111-116 | a new depth empties the buffer first; the rank's text is stored; other entries of the same depth are kept |
| Aggregation.RanksHeld | backend/server.py:120-121 | every rank the batch loop collects is held and lies in `lo..MULTIPV-1` |
| Aggregation.RanksAscending | backend/server.py:120-122 | the collected ranks are strictly ascending |
| Aggregation.RanksComplete | backend/server.py:120-122 | every held rank in `lo..MULTIPV-1` is collected |
| Aggregation.BatchFromRanks | backend/server.py:119-123 | the batch is the buffer's text at each collected rank, in order |
| Aggregation.BatchOfRanks | backend/server.py:118-123 | the batch holds at most four lines, the buffer's lines of ranks 1 to 4 in rank order |
| Aggregation.BatchOf | backend/server.py:118-123 | at most four lines; their ranks and order are stated by `BatchOfRanks` and `FullRanksBatch` |
| Aggregation.RanksBound | backend/server.py:120 | at most `MULTIPV - lo` ranks are collected |
| Aggregation.FullRanksBatch | backend/server.py:118-123 | with ranks 1 to 4 held, the batch is exactly their four lines in rank order |
| Aggregation.StepSpec | backend/server.py:90-125 | a line without a header changes nothing and returns nothing; otherwise the new depth and buffer follow the reset-and-store rule, and a batch is returned exactly when the buffer holds 5 entries |
| Aggregation.TracedAbsorb | backend/server.py:111-116 | storing the rewrite of a line against its board keeps every entry traced: each is the rewrite of a raw line against the board it was read with, whose header has the current depth and that entry's rank |
| Aggregation.StepKeepsTraced | backend/server.py:97-116 | every step keeps each buffered entry equal to `parse_engine_output` of a raw line of the current depth and of that entry's rank, against the board it was read with |
| Aggregation.FullBufferRefires | backend/server.py:111-123 | once the buffer is full, another same-depth line for a held rank keeps 5 entries and returns the batch again |
| Aggregation.NewDepthNeverCompletes | backend/server.py:111-118 | a line of a new depth leaves one entry and returns no batch |
| Aggregation.AbsorbAllSameDepth | backend/server.py:111-116 | same-depth lines for distinct new ranks add one entry each and keep the earlier entries |
| Aggregation.DistinctRanksFill | backend/server.py:111-116 | lines of a new depth for distinct ranks leave exactly those entries |
| Server.WellFormedAppend | backend/server.py:135-137 | two well-formed publish logs concatenate to a well-formed log |
| Server.PublishedPair | backend/server.py:135-137 | a non-empty batch followed by its first line is a well-formed log |
| Server.OutputStepSpec | backend/server.py:128-137 | output without `info multipv` changes nothing; otherwise it is one step, and it publishes exactly when the step returns a non-empty batch: the batch, then its first line |
| Server.OutputStep | backend/server.py:128-137 | one call of `on_engine_output`; specified by `OutputStepSpec` |
| Server.EofIndex | backend/server.py:146-148 | the end-of-file index lies within the reads |
| Server.EofIndexSpec | backend/server.py:146-148 | every read before it is non-empty, and the read at it is empty |
| Server.Drain | backend/server.py:145-149 | the events published by a run of stripped lines form a well-formed log |
| Server.DrainIgnoresNoise | backend/server.py:133-149 | lines without `info multipv` change nothing and publish nothing |
| Server.LinesRead | backend/server.py:145-148 | the lines handed on are a prefix of the reads |
| Server.ReaderThread | backend/server.py:140-149 | the events published by the reader thread form a well-formed log; `ReaderStopsAtEof` states where it stops |
| Server.EofIndexAppend | backend/server.py:146-148 | reads after an end of file do not move it |
| Server.LinesReadStopAtEof | backend/server.py:146-148 | nothing after the end of file is handed on |
| Server.ReaderStopsAtEof | backend/server.py:140-149 | what follows the end of file changes neither the aggregate nor what is published |
| Server.Bridge.constructor | backend/server.py:22-29 | no process; not running; initial board; no depth; empty buffer; nothing written or published |
| Server.Bridge.Store | backend/server.py:111-116 | the new depth and buffer are `Absorb` of the old ones |
| Server.Bridge.CollectBatch | backend/server.py:118-123 | the loop over ranks 1 to 4 returns the batch of the buffer |
| Server.Bridge.ProcessEngineLine | backend/server.py:90-125 | the new depth, the new buffer and the returned batch are those of `Step`; the state invariant is kept |
| Server.Bridge.OnEngineOutput | backend/server.py:128-137 | the new aggregate is that of `OutputStep`, and exactly its events are appended to the publish log |
| Server.Bridge.StartEngine | backend/server.py:152-174 | fails with `Engine already running` and no change when a process exists; otherwise it fails with the spawn error, or records the new process, whether it reads its stdin, and sets `running` |
| Server.Bridge.EngineExits | backend/server.py:146-147 | once the engine has exited, it no longer reads its stdin |
| Server.Bridge.SendEach | backend/server.py:203-208 | consecutive writes in one `try` block: all are written to a reading engine; with an exited engine none is written and the first raises the broken-pipe error |
| Server.Bridge.StopEngine | backend/server.py:177-188 | a no-op without a process; otherwise it clears `running`; when the engine has exited it fails with the broken-pipe error, keeping the handle, depth and buffer; otherwise it writes `quit`, drops the handle and resets depth and buffer |
| Server.Bridge.SendCommand | backend/server.py:191-194 | without a process nothing is written and nothing fails; with a reading engine the command line is written; with an exited one nothing is written and the broken-pipe error is raised |
| Server.Bridge.StartAnalysis | backend/server.py:197-211 | the board is reset in every case; an existing process or a spawn error is a bad request with nothing written and the running and reading flags untouched; after a spawn the flags are set from the new engine, the six setup commands are written in order and the start is reported, or, when the new engine has exited, nothing is written and the broken-pipe error is the answer while the handle stays set |
| Server.Bridge.StopAnalysis | backend/server.py:214-220 | without a process, success and no change; with a reading engine, success, `quit` written and no process left; with an exited engine, the broken-pipe error, `running` cleared and the handle still set |
| Server.Bridge.Moves | backend/server.py:223-252 | a missing, non-list or empty payload is rejected with no change; otherwise `clear_output` is published; an invalid SAN is rejected with board, depth and stdin unchanged; otherwise the board becomes the converted moves and depth state is reset, and the SANs are echoed with three commands written, or, when the engine has exited, the broken-pipe error is the answer |
| Server.Bridge.Replay | backend/server.py:239-249 | the board is the converted move list; depth and buffer are reset; `stop`, the position command and `go infinite` are written while a reading process exists; with an exited engine the first write raises the broken-pipe error |
| Server.Bridge.Status | backend/server.py:256-260 | `running` exactly while a process handle exists, `stopped` otherwise |
| ContentScript.LastIndexBelow | extension/content.js:98-101 | the last index below `n` holding exactly `key`; no later one; `None` when none |
| ContentScript.ParsedLine | extension/content.js:94-104 | what `parseEngineLine` returns; specified by `FieldAfterLast`, `FieldNullIffAbsent`, `PvIsLineSuffix` and `PvTokensRoundTrip` |
| ContentScript.ParseEngineLine | extension/content.js:94-104 | the scan returns the record of `ParsedLine` |
| ContentScript.FieldAfterLast | extension/content.js:98-100 | `depth` and `score` are the token after the last exact `depth` and `cp` token, `undefined` when that key ends the line |
| ContentScript.FieldNullIffAbsent | extension/content.js:96-101 | each field keeps its initial value exactly when its key is not a token of the line |
| ContentScript.PvIsLineSuffix | extension/content.js:95-101 | `pv` is the exact rest of the line after the last `pv` token, or empty when that token ends the line |
| ContentScript.PvOfLine | extension/content.js:101 | `pv` is the tokens after the last `pv` token joined by spaces |
| ContentScript.TailRoundTrip | extension/content.js:95-101 | the tokens after the last `pv` survive a join and a split, and none of them is `pv` |
| ContentScript.PvTokensRoundTrip | extension/content.js:95-101 | splitting `pv` again gives exactly the tokens after the last `pv` token, none of them `pv` |
| ContentScript.HyphenateCapitals | extension/content.js:73 | one extra character per capital |
| ContentScript.LowerCase | extension/content.js:73 | same length, and no capital left |
| ContentScript.Kebab | extension/content.js:73 | the CSS name is longer by the number of capitals and has no capital |
| ContentScript.KebabStep | extension/content.js:73 | each capital becomes a hyphen and its lower-case form; every other character is kept |
| ContentScript.CamelKebab | extension/content.js:73 | a key without hyphens is recovered from its CSS name, so distinct keys give distinct names |
| ContentScript.Declaration | extension/content.js:73 | an entry is the CSS name, then `: `, then the value verbatim |
| ContentScript.Declarations | extension/content.js:72-73 | one declaration per entry, in insertion order |
| ContentScript.StyleToString | extension/content.js:71-74 | the declarations joined by `; `; specified by `StyleEmptyIff`, `StyleSingle` and `StyleAppend`, which together fix every style |
| ContentScript.StyleSingle | extension/content.js:71-74 | a one-property style is the CSS name, `: `, then the value, with nothing around it |
| ContentScript.StyleEmptyIff | extension/content.js:71-74 | only the empty style gives the empty string |
| ContentScript.StyleAppend | extension/content.js:71-74 | one more property appends `; ` and its declaration, leaving the earlier text as it was |
| ContentScript.RowCells | extension/content.js:193-197 | one move per present cell: the trimmed white cell first, the trimmed black cell last |
| ContentScript.RowMoves | extension/content.js:192-198 | the trimmed cells of the rows in page order; specified by `RowMovesConcat`, `FullRowsMoves` and `WhiteToMoveRows` |
| ContentScript.RowMovesConcat | extension/content.js:192-198 | the moves of two runs of rows are the moves of the first run followed by those of the second |
| ContentScript.WhiteToMoveRows | extension/content.js:192-198 | when the last row holds only a white move, the earlier full rows give white at 2j and black at 2j+1, and the lone white move comes last, at 2n-2 |
| ContentScript.FullRowsMoves | extension/content.js:192-198 | with both cells in every row, the white move of row j is at 2j and the black move at 2j+1, trimmed |
| ContentScript.Sends | extension/content.js:200-204 | no more lists are sent than observed, and each sent list is one the page showed; `SendsSnoc` states exactly which |
| ContentScript.SendsSnoc | extension/content.js:200-204 | one more observation sends that list exactly when it differs from the one stored before it (the previous observation, or the initial list) |
| ContentScript.SendsNoRepeats | extension/content.js:200-204 | the same list is never sent twice in a row, nor right after it was stored |
| ContentScript.SameListTwice | extension/content.js:200-204 | seeing the same list twice in a row sends it at most once |
| ContentScript.MoveTracker.constructor | extension/content.js:59 | nothing stored and nothing sent |
| ContentScript.MoveTracker.ExtractMoves | extension/content.js:187-207 | returns the scraped moves and stores them; sends them exactly when they differ from the stored list; no list is sent twice in a row |

## Left out

- HTTP transport is not modelled: Flask routing, `request.json`, `make_response`/`jsonify`, status codes and CORS. Each handler returns a `Reply` value in their place.
- The engine process itself is not modelled. `subprocess.Popen` is the `spawn` parameter of `StartEngine`: a handle with whether the new engine still reads its stdin, or the error text of a failed spawn. `wait()` and the stderr pipe have no counterpart.
- The engine path from `.env` is not modelled; it only feeds the spawn.
- Server.Bridge.SendCommand: the stdin log records command lines, not characters. The newline written after each command is implied by the log's shape, not stored.
- An engine that exits while a handler is running is not modelled. The engine's exit is the `EngineExits` step between calls, and the `reading` flag of a spawn for an engine that is gone before the first write. A write that fails partway through a line is not modelled either.
- The reader thread's concurrency is not modelled. `ReaderThread` is the sequential fold of `on_engine_output` over the stripped lines, up to the first empty read. It assumes `running` stays set throughout. Races between the reader and the handlers are outside the model.
- The board the reader sees is a parameter of the fold. A /moves call that changes it between two lines is not modelled.
- The chess library (`python-chess`) is uninterpreted. SAN parsing and SAN rendering are total functions that may fail, and the board is the list of moves pushed. Legality, and which exception `from_uci`, `san` or `push` raises, are not modelled.
- Notation.ConvertSanToLan: only the `ValueError` of `parse_san` becomes the `Invalid SAN move` error. Other exceptions are treated the same way.
- Server.Bridge.Moves: the success reply is the list of SANs. The Python `repr` formatting of `Moves sent: [...]` is not modelled.
- Logging is not modelled: `print` in the backend, `console.log` in the extension.
- Whitespace is space, tab, newline, carriage return, `\x0b` and `\x0c`. Python's `strip()`, `split()` and `\s` also treat `\x1c` to `\x1f` as whitespace, and JavaScript's `trim()` and both languages also treat Unicode spaces so; these are not modelled.
- `\w`, `\d` and `toLowerCase()` act only on ASCII characters in the model. Unicode digits and letters are not modelled.
- ContentScript.StyleToString: a style is the list of its entries in insertion order. JavaScript lists integer-like keys first; such keys do not occur in a style object and are not modelled. Values are already strings.
- ContentScript.ParseEngineLine: `undefined` and `null` are distinct field values. The display code that formats the score as a float (`toFixed`) is not modelled.
- ContentScript.MoveTracker.ExtractMoves: the DOM query is its `rows` parameter. Comparing the `JSON.stringify` forms of two string lists is modelled as list equality. `sendMovesToBackend` is an append to the `sent` log; the asynchronous `fetch` is not modelled.
- The rest of the extension is not modelled: the DOM observers, `fetch` calls, `alert`, socket listeners and the `generateHTML` template.
