/** The engine bridge of backend/server.py: the module's globals as the
    fields of one Bridge object, the engine-process helpers, the reader
    thread as a fold over the engine's output lines, and the state
    transitions of the /start, /stop, /moves and /status handlers. The
    engine process is an optional handle, its stdin an append-only log of
    the command lines written to it, and `socketio.emit` an append-only log
    of published events. */
module Server {
  import opened Wrappers
  import opened Text
  import opened Chess
  import opened Patterns
  import opened Notation
  import opened Aggregation

  const ALREADY_RUNNING := "Engine already running"
  const STARTED := "Engine started in infinite analysis mode"
  const STOPPED := "Engine stopped"
  const INVALID_INPUT := "Invalid input. Please provide a list of SAN moves."
  /** The text of the `BrokenPipeError` a write to an exited engine raises. */
  const BROKEN_PIPE := "[Errno 32] Broken pipe"

  /** The commands `/start` sends to the engine after starting it, in order. */
  const SETUP_COMMANDS := [
    "uci", "isready", "setoption name MultiPV value 5",
    "ucinewgame", "position startpos", "go infinite"]

  /** A newly spawned engine process: its handle, and whether it still reads
      its stdin when the bridge first writes to it (an engine that exits at
      once does not). */
  datatype Spawned = Spawned(handle: nat, reading: bool)

  /** A published socket event. */
  datatype Event =
    | EngineOutput(lines: seq<string>)   // 'engine_output' with the whole batch
    | EngineOutputSingle(line: string)   // 'engine_output_single' with the best line
    | ClearOutput                        // 'clear_output'

  /** The `moves` field of a /moves request body. */
  datatype Payload = Missing | NotAList | MoveList(items: seq<string>)

  /** What a handler answers: a message, the echoed moves, or an error. */
  datatype Reply = Success(message: string) | MovesSent(moves: seq<string>) | BadRequest(error: string)

  /** The shape of the publish log: every batch is non-empty and is directly
      followed by its first line as the best line, and every best line
      directly follows a batch. */
  predicate WellFormedLog(events: seq<Event>)
  {
    && (forall i :: 0 <= i < |events| && events[i].EngineOutput? ==>
          i + 1 < |events| && events[i].lines != [] && events[i + 1] == EngineOutputSingle(events[i].lines[0]))
    && (forall i :: 0 <= i < |events| && events[i].EngineOutputSingle? ==> 0 < i && events[i - 1].EngineOutput?)
  }

  lemma WellFormedAppend(a: seq<Event>, b: seq<Event>)
    requires WellFormedLog(a) && WellFormedLog(b)
    ensures WellFormedLog(a + b)
  {
    var ab := a + b;
    forall i | 0 <= i < |ab| && ab[i].EngineOutput?
      ensures i + 1 < |ab| && ab[i].lines != [] && ab[i + 1] == EngineOutputSingle(ab[i].lines[0])
    {
      if i < |a| {
        assert ab[i] == a[i] && ab[i + 1] == a[i + 1];
      } else {
        assert ab[i] == b[i - |a|] && ab[i + 1] == b[i + 1 - |a|];
      }
    }
    forall i | 0 <= i < |ab| && ab[i].EngineOutputSingle?
      ensures 0 < i && ab[i - 1].EngineOutput?
    {
      if i < |a| {
        assert ab[i] == a[i] && ab[i - 1] == a[i - 1];
      } else {
        assert ab[i] == b[i - |a|];
        if i > |a| {
          assert ab[i - 1] == b[i - 1 - |a|];
        }
      }
    }
  }

  /** A published batch followed by its best line is a well-formed log. */
  lemma PublishedPair(batch: seq<string>)
    requires batch != []
    ensures WellFormedLog([EngineOutput(batch), EngineOutputSingle(batch[0])])
  {
  }

  /** `on_engine_output(output)`: the new aggregate and the events published. */
  function OutputStep(chess: Library, board: Board, agg: Aggregate, output: string): (Aggregate, seq<Event>)
  {
    if !Contains(output, INFO_MULTIPV) then (agg, [])
    else
      var step := Step(chess, board, agg, output);
      if step.1.Some? && |step.1.value| > 0 then
        (step.0, [EngineOutput(step.1.value), EngineOutputSingle(step.1.value[0])])
      else (step.0, [])
  }

  /** Output without `info multipv` changes nothing; otherwise the aggregate
      moves as `process_engine_line` moves it, and exactly a non-empty batch
      is published, as the batch followed by its first line. The events
      always form a well-formed log. */
  lemma OutputStepSpec(chess: Library, board: Board, agg: Aggregate, output: string)
    ensures var r := OutputStep(chess, board, agg, output);
      && (!Contains(output, INFO_MULTIPV) ==> r == (agg, []))
      && (Contains(output, INFO_MULTIPV) ==> r.0 == Step(chess, board, agg, output).0)
      && (r.1 != [] <==> Step(chess, board, agg, output).1.Some? && Step(chess, board, agg, output).1.value != [])
      && (r.1 != [] ==>
            && |r.1| == 2 && r.1[0] == EngineOutput(BatchOf(r.0.buffer)) && r.1[0].lines != []
            && r.1[1] == EngineOutputSingle(r.1[0].lines[0]))
      && WellFormedLog(r.1)
  {
    var r := OutputStep(chess, board, agg, output);
    if r.1 != [] {
      StepSpec(chess, board, agg, output);
      PublishedPair(r.1[0].lines);
    }
  }

  /** The index of the first empty read (end of file), or |lines|. */
  function EofIndex(lines: seq<string>): (n: nat)
    ensures n <= |lines|
    decreases |lines|
  {
    if lines == [] || lines[0] == [] then 0 else 1 + EofIndex(lines[1..])
  }

  /** Every read before the end of file is non-empty, and the read at it (if
      any) is empty. */
  lemma {:induction false} EofIndexSpec(lines: seq<string>)
    ensures forall i :: 0 <= i < EofIndex(lines) ==> lines[i] != []
    ensures EofIndex(lines) < |lines| ==> lines[EofIndex(lines)] == []
    decreases |lines|
  {
    if lines != [] && lines[0] != [] {
      EofIndexSpec(lines[1..]);
      forall i | 0 < i < EofIndex(lines)
        ensures lines[i] != []
      {
        assert lines[i] == lines[1..][i - 1];
      }
    }
  }

  /** The reader loop run over `lines` in order: `on_engine_output` on each
      stripped line. */
  function Drain(chess: Library, board: Board, agg: Aggregate, lines: seq<string>): (r: (Aggregate, seq<Event>))
    ensures WellFormedLog(r.1)
    decreases |lines|
  {
    if lines == [] then (agg, [])
    else
      var previous := Drain(chess, board, agg, lines[..|lines| - 1]);
      var last := OutputStep(chess, board, previous.0, Strip(lines[|lines| - 1]));
      OutputStepSpec(chess, board, previous.0, Strip(lines[|lines| - 1]));
      WellFormedAppend(previous.1, last.1);
      (last.0, previous.1 + last.1)
  }

  /** A run of lines none of which contains `info multipv` once stripped
      changes nothing and publishes nothing. */
  lemma {:induction false} DrainIgnoresNoise(chess: Library, board: Board, agg: Aggregate, lines: seq<string>)
    requires forall i :: 0 <= i < |lines| ==> !Contains(Strip(lines[i]), INFO_MULTIPV)
    ensures Drain(chess, board, agg, lines) == (agg, [])
    decreases |lines|
  {
    if lines != [] {
      var init := lines[..|lines| - 1];
      assert forall i :: 0 <= i < |init| ==> init[i] == lines[i];
      DrainIgnoresNoise(chess, board, agg, init);
      var last := Strip(lines[|lines| - 1]);
      assert !Contains(last, INFO_MULTIPV);
      OutputStepSpec(chess, board, agg, last);
      assert OutputStep(chess, board, agg, last) == (agg, []);
      var none: seq<Event> := [];
      assert none + none == none;
      assert Drain(chess, board, agg, lines) == (agg, none + none);
    }
  }

  /** The lines the reader thread hands on: those before the first empty
      read (end of file). */
  function LinesRead(lines: seq<string>): (r: seq<string>)
    ensures |r| <= |lines| && r == lines[..|r|]
  {
    lines[..EofIndex(lines)]
  }

  /** The reader thread, `process_engine_output`, while `running` stays set:
      every line read, stripped and handed to `on_engine_output` in order. */
  function ReaderThread(chess: Library, board: Board, agg: Aggregate, lines: seq<string>): (r: (Aggregate, seq<Event>))
    ensures WellFormedLog(r.1)
  {
    Drain(chess, board, agg, LinesRead(lines))
  }

  lemma {:induction false} EofIndexAppend(lines: seq<string>, more: seq<string>)
    requires EofIndex(lines) < |lines|
    ensures EofIndex(lines + more) == EofIndex(lines)
    decreases |lines|
  {
    if lines[0] != [] {
      assert (lines + more)[1..] == lines[1..] + more;
      EofIndexAppend(lines[1..], more);
    }
  }

  /** Nothing after the end of file is read. */
  lemma LinesReadStopAtEof(lines: seq<string>, more: seq<string>)
    requires EofIndex(lines) < |lines|
    ensures LinesRead(lines + more) == LinesRead(lines)
  {
    EofIndexAppend(lines, more);
    assert (lines + more)[..EofIndex(lines)] == lines[..EofIndex(lines)];
  }

  /** What follows the end of file has no effect on the aggregate or on what
      is published. */
  lemma ReaderStopsAtEof(chess: Library, board: Board, agg: Aggregate, lines: seq<string>, more: seq<string>)
    requires EofIndex(lines) < |lines|
    ensures ReaderThread(chess, board, agg, lines + more) == ReaderThread(chess, board, agg, lines)
  {
    LinesReadStopAtEof(lines, more);
  }

  class Bridge {
    /** The chess library the bridge calls. */
    const chess: Library
    /** `engine_process`: the handle of the running engine, if any. */
    var process: Option<nat>
    /** `running`: the reader loop's flag. */
    var running: bool
    /** Whether the engine process still reads its stdin; once it has exited
        on its own, every write to it raises a broken-pipe error. */
    var reading: bool
    /** `current_board`. */
    var board: Board
    /** `current_depth`. */
    var depth: Option<nat>
    /** `current_depth_buffer`. */
    var buffer: map<nat, string>
    /** The lines written to the engine's stdin, in order; each was written
        followed by a newline. */
    var stdin: seq<string>
    /** Everything published through the socket, in order. */
    var published: seq<Event>

    /** The running flag is only set while a process exists (a failed stop
        clears it and keeps the handle); a non-empty buffer belongs to a
        depth; the publish log is well formed. */
    ghost predicate Valid()
      reads this`running, this`process, this`depth, this`buffer, this`published
    {
      && (running ==> process.Some?)
      && (buffer != map[] ==> depth.Some?)
      && WellFormedLog(published)
    }

    /** The module's initial state. */
    constructor(chess: Library)
      ensures Valid() && this.chess == chess
      ensures process == None && !running && !reading && board == INITIAL_BOARD
      ensures depth == None && buffer == map[] && stdin == [] && published == []
    {
      this.chess := chess;
      process := None;
      running := false;
      reading := false;
      board := INITIAL_BOARD;
      depth := None;
      buffer := map[];
      stdin := [];
      published := [];
    }

    /** The store step of `process_engine_line`: a new depth resets the
        buffer, then the rewritten line is stored under its rank. */
    method Store(d: nat, k: nat, text: string)
      requires Valid()
      modifies this`depth, this`buffer
      ensures Valid()
      ensures Aggregate(depth, buffer) == Absorb(Aggregate(old(depth), old(buffer)), d, k, text)
    {
      if Some(d) != depth {
        depth := Some(d);
        buffer := map[];
      }
      buffer := buffer[k := text];
    }

    /** The batch loop of `process_engine_line`: the stored lines of ranks
        `range(1, MULTIPV)`, ascending. */
    method CollectBatch() returns (lines: seq<string>)
      ensures lines == BatchOf(buffer)
    {
      var held := buffer;
      lines := [];
      for i := 1 to MULTIPV
        invariant lines + BatchFrom(held, i) == BatchOf(held)
      {
        var rest := BatchFrom(held, i + 1);
        if i in held {
          assert lines + BatchFrom(held, i) == (lines + [held[i]]) + rest;
          lines := lines + [held[i]];
        } else {
          assert BatchFrom(held, i) == rest;
        }
      }
      assert BatchFrom(held, MULTIPV) == [];
    }

    /** `process_engine_line(line)`. */
    method ProcessEngineLine(line: string) returns (batch: Option<seq<string>>)
      requires Valid()
      modifies this`depth, this`buffer
      ensures Valid()
      ensures var step := Step(chess, board, Aggregate(old(depth), old(buffer)), line);
        Aggregate(depth, buffer) == step.0 && batch == step.1
    {
      var header := ParseHeader(line);
      if header.None? {
        return None;
      }
      var parsed := ParseEngineOutput(chess, board, line);
      Store(header.value.0, header.value.1, parsed);
      batch := None;
      if |buffer| == 5 {
        var lines := CollectBatch();
        batch := Some(lines);
      }
    }

    /** `on_engine_output(output)`: publishes a non-empty batch, then its first
        line as the single best line. */
    method OnEngineOutput(output: string)
      requires Valid()
      modifies this`depth, this`buffer, this`published
      ensures Valid()
      ensures var r := OutputStep(chess, board, Aggregate(old(depth), old(buffer)), output);
        Aggregate(depth, buffer) == r.0 && published == old(published) + r.1
    {
      ghost var agg := Aggregate(depth, buffer);
      if Contains(output, INFO_MULTIPV) {
        var complete := ProcessEngineLine(output);
        assert (Aggregate(depth, buffer), complete) == Step(chess, board, agg, output);
        if complete.Some? && |complete.value| > 0 {
          var events := [EngineOutput(complete.value), EngineOutputSingle(complete.value[0])];
          PublishedPair(complete.value);
          WellFormedAppend(published, events);
          published := published + events;
        }
      }
    }

    /** `start_engine()`, with `spawn` the outcome of creating the process:
        refuses while a process exists. */
    method StartEngine(spawn: Result<Spawned, string>) returns (o: Outcome<string>)
      requires Valid()
      modifies this`process, this`running, this`reading
      ensures Valid()
      ensures old(process).Some? ==>
        o == Fail(ALREADY_RUNNING) && process == old(process) && running == old(running) && reading == old(reading)
      ensures old(process).None? && spawn.Err? ==>
        o == Fail(spawn.error) && process == None && running == old(running) && reading == old(reading)
      ensures old(process).None? && spawn.Ok? ==>
        o == Pass && process == Some(spawn.value.handle) && running && reading == spawn.value.reading
    {
      if process.Some? {
        return Fail(ALREADY_RUNNING);
      }
      match spawn
      case Err(e) =>
        return Fail(e);
      case Ok(spawned) =>
        process := Some(spawned.handle);
        reading := spawned.reading;
        running := true;
        return Pass;
    }

    /** The engine process exits on its own: its stdin is no longer read,
        while the handle stays set. */
    method EngineExits()
      modifies this`reading
      ensures !reading
    {
      reading := false;
    }

    /** `stop_engine()`: a no-op without a process. Otherwise it clears the
        running flag and asks the engine to quit; when the engine has already
        exited, that write raises and the handle and the aggregator are kept;
        otherwise the handle is dropped and the aggregator reset. */
    method StopEngine() returns (o: Outcome<string>)
      requires Valid()
      modifies this`process, this`running, this`stdin, this`depth, this`buffer
      ensures Valid()
      ensures old(process).None? ==>
        && o == Pass && process == None && running == old(running)
        && stdin == old(stdin) && depth == old(depth) && buffer == old(buffer)
      ensures old(process).Some? && !reading ==>
        && o == Fail(BROKEN_PIPE) && process == old(process) && !running
        && stdin == old(stdin) && depth == old(depth) && buffer == old(buffer)
      ensures old(process).Some? && reading ==>
        && o == Pass && process == None && !running
        && stdin == old(stdin) + ["quit"] && depth == None && buffer == map[]
    {
      o := Pass;
      if process.Some? {
        running := false;
        if !reading {
          return Fail(BROKEN_PIPE);
        }
        stdin := stdin + ["quit"];
        process := None;
        buffer := map[];
        depth := None;
      }
    }

    /** `send_command(command)`: a no-op without a process; written, with its
        line terminator, while the engine reads; raises once it has exited. */
    method SendCommand(command: string) returns (o: Outcome<string>)
      modifies this`stdin
      ensures stdin == old(stdin) + (if process.Some? && reading then [command] else [])
      ensures o == (if process.Some? && !reading then Fail(BROKEN_PIPE) else Pass)
    {
      o := Pass;
      if process.Some? {
        if !reading {
          return Fail(BROKEN_PIPE);
        }
        stdin := stdin + [command];
      }
    }

    /** Consecutive `send_command` calls inside one `try` block: they stop at
        the first that raises, which with an exited engine is the first. */
    method SendEach(commands: seq<string>) returns (o: Outcome<string>)
      modifies this`stdin
      ensures stdin == old(stdin) + (if process.Some? && reading then commands else [])
      ensures o == (if process.Some? && !reading && commands != [] then Fail(BROKEN_PIPE) else Pass)
    {
      o := Pass;
      var i := 0;
      while i < |commands| && o.Pass?
        invariant 0 <= i <= |commands|
        invariant stdin == old(stdin) + (if process.Some? && reading then commands[..i] else [])
        invariant o == (if process.Some? && !reading && i > 0 then Fail(BROKEN_PIPE) else Pass)
        modifies this`stdin
      {
        assert commands[..i + 1] == commands[..i] + [commands[i]];
        o := SendCommand(commands[i]);
        i := i + 1;
      }
      assert o.Pass? ==> commands[..i] == commands;
    }

    /** The /start handler: resets the board even when starting then fails;
        after a successful spawn writes the six setup commands in order, and
        answers with the broken-pipe error (keeping the process) when the new
        engine has already exited. */
    method StartAnalysis(spawn: Result<Spawned, string>) returns (reply: Reply)
      requires Valid()
      modifies this`board, this`process, this`running, this`reading, this`stdin
      ensures Valid()
      ensures board == INITIAL_BOARD
      ensures depth == old(depth) && buffer == old(buffer)
      ensures old(process).Some? ==>
        && reply == BadRequest(ALREADY_RUNNING) && process == old(process) && stdin == old(stdin)
        && running == old(running) && reading == old(reading)
      ensures old(process).None? && spawn.Err? ==>
        && reply == BadRequest(spawn.error) && process == None && stdin == old(stdin)
        && running == old(running) && reading == old(reading)
      ensures old(process).None? && spawn.Ok? && spawn.value.reading ==>
        && reply == Success(STARTED) && process == Some(spawn.value.handle) && running && reading
        && stdin == old(stdin) + SETUP_COMMANDS
      ensures old(process).None? && spawn.Ok? && !spawn.value.reading ==>
        && reply == BadRequest(BROKEN_PIPE) && process == Some(spawn.value.handle) && running && !reading
        && stdin == old(stdin)
    {
      board := INITIAL_BOARD;
      var started := StartEngine(spawn);
      if started.Fail? {
        return BadRequest(started.error);
      }
      var sent := SendEach(SETUP_COMMANDS);
      match sent
      case Pass => reply := Success(STARTED);
      case Fail(e) => reply := BadRequest(e);
    }

    /** The /stop handler: `stop_engine()`, answered with success, or with the
        broken-pipe error when the engine had already exited. */
    method StopAnalysis() returns (reply: Reply)
      requires Valid()
      modifies this`process, this`running, this`stdin, this`depth, this`buffer
      ensures Valid()
      ensures old(process).Some? && !reading ==>
        && reply == BadRequest(BROKEN_PIPE) && process == old(process) && !running
        && stdin == old(stdin) && depth == old(depth) && buffer == old(buffer)
      ensures old(process).None? ==>
        && reply == Success(STOPPED) && process == None
        && stdin == old(stdin) && depth == old(depth) && buffer == old(buffer)
      ensures old(process).Some? && reading ==>
        && reply == Success(STOPPED) && process == None && !running
        && stdin == old(stdin) + ["quit"] && depth == None && buffer == map[]
    {
      var stopped := StopEngine();
      match stopped
      case Pass => reply := Success(STOPPED);
      case Fail(e) => reply := BadRequest(e);
    }

    /** The /moves handler. A missing, empty or non-list payload is rejected
        with nothing changed. Otherwise 'clear_output' is published and the SAN
        list is converted from the initial position: on failure nothing else
        changes; on success the board becomes the converted moves, the
        aggregator is reset, and stop, position and go are written (while a
        process exists); an engine that has exited turns the answer into the
        broken-pipe error, with the board and aggregator already replaced. */
    method Moves(payload: Payload) returns (reply: Reply)
      requires Valid()
      modifies this`board, this`depth, this`buffer, this`stdin, this`published
      ensures Valid()
      ensures !payload.MoveList? || payload.items == [] ==>
        && reply == BadRequest(INVALID_INPUT)
        && board == old(board) && depth == old(depth) && buffer == old(buffer)
        && stdin == old(stdin) && published == old(published)
      ensures payload.MoveList? && payload.items != [] ==> published == old(published) + [ClearOutput]
      ensures payload.MoveList? && payload.items != [] && ConvertSanToLan(chess, payload.items).Err? ==>
        && reply == BadRequest(ConvertSanToLan(chess, payload.items).error)
        && board == old(board) && depth == old(depth) && buffer == old(buffer) && stdin == old(stdin)
      ensures payload.MoveList? && payload.items != [] && ConvertSanToLan(chess, payload.items).Ok? ==>
        var lan := ConvertSanToLan(chess, payload.items).value;
        && reply == (if process.Some? && !reading then BadRequest(BROKEN_PIPE) else MovesSent(payload.items))
        && board == lan && depth == None && buffer == map[]
        && stdin == old(stdin) + (if process.Some? && reading then
             ["stop", "position startpos moves " + Join(" ", lan), "go infinite"] else [])
    {
      if !payload.MoveList? || payload.items == [] {
        return BadRequest(INVALID_INPUT);
      }
      var sans := payload.items;
      WellFormedAppend(published, [ClearOutput]);
      published := published + [ClearOutput];
      var converted := ConvertSanToLan(chess, sans);
      if converted.Err? {
        return BadRequest(converted.error);
      }
      var sent := Replay(converted.value);
      match sent
      case Pass => reply := MovesSent(sans);
      case Fail(e) => reply := BadRequest(e);
    }

    /** The success path of /moves: the board is rebuilt from the initial
        position by pushing `lan` move by move, the aggregator is reset, and
        the engine is told to stop, given the new position, and restarted;
        these writes fail, at the first, once the engine has exited. */
    method Replay(lan: seq<Uci>) returns (o: Outcome<string>)
      requires Valid()
      modifies this`board, this`depth, this`buffer, this`stdin
      ensures Valid()
      ensures board == lan && depth == None && buffer == map[]
      ensures stdin == old(stdin) + (if process.Some? && reading then
        ["stop", "position startpos moves " + Join(" ", lan), "go infinite"] else [])
      ensures o == (if process.Some? && !reading then Fail(BROKEN_PIPE) else Pass)
    {
      board := INITIAL_BOARD;
      for i := 0 to |lan|
        invariant board == lan[..i]
        modifies this`board
      {
        board := board + [lan[i]];
      }
      buffer := map[];
      depth := None;
      o := SendEach(["stop", "position startpos moves " + Join(" ", lan), "go infinite"]);
    }

    /** The /status handler: "running" exactly while a process exists. */
    method Status() returns (status: string)
      ensures status == "running" || status == "stopped"
      ensures status == "running" <==> process.Some?
    {
      if process.Some? {
        return "running";
      }
      return "stopped";
    }
  }
}
