/** The command-line Stockfish client of src/engine/stockfish_engine.py. It
    speaks the Universal Chess Interface (UCI) line protocol over the engine's
    standard input and output: a `uci`/`uciok` handshake, then `position fen`
    and `go`, then a scan of the output for the first `bestmove` line.

    The process, its pipes and the clock are parameters: the engine's output is
    a finite sequence of reads, each wall-clock loop is a bound on how many
    times its time guard still holds, and the number of writes the pipe takes
    before it raises is given. */
module UciClient {
  import opened Wrappers
  import opened Text

  /** One `readline()` on the engine's output: the line read (with its end of
      line; "" at end of file), or an exception. */
  datatype Read = Line(text: string) | ReadFails

  /** What the environment does for one run: whether `STOCKFISH_PATH` exists,
      whether `Popen` succeeds, what the engine prints, and how many writes to
      its input succeed before one raises. */
  datatype EngineProcess = EngineProcess(pathExists: bool, spawns: bool, stdout: seq<Read>,
                                         writesAccepted: nat)

  /** How many times each loop finds its clock guard (2 s, then 5 s) still true. */
  datatype ReadBudget = ReadBudget(handshake: nat, search: nat)

  /** The read at position `pos`; past the end the stream is at end of file.
      An end of file is never consumed: the loops stop at it without moving
      on, so nothing after a `Line("")` is ever read (`EndOfFileIsFinal`). */
  function ReadAt(stdout: seq<Read>, pos: nat): Read
  {
    if pos < |stdout| then stdout[pos] else Line("")
  }

  const UciCommand: string := "uci\n"
  const QuitCommand: string := "quit\n"

  function PositionCommand(fen: string): string
  {
    "position fen " + fen + "\n"
  }

  function GoCommand(depth: int): string
  {
    "go depth " + IntToString(depth) + " movetime 2000\n"
  }

  /** Outcome of the handshake loop: it stopped with the next read at `next`,
      or a read raised. */
  datatype Phase = Reached(next: nat) | Raised

  /** The handshake loop from read `pos` with `n` clock checks left: it stops
      at end of file or at the first line containing `uciok`, and stops
      quietly when the clock runs out; it reads at most `n` lines. */
  function Handshake(stdout: seq<Read>, pos: nat, n: nat): (r: Phase)
    ensures r.Reached? ==> pos <= r.next <= pos + n
    decreases n
  {
    if n == 0 then Reached(pos)
    else match ReadAt(stdout, pos)
      case ReadFails => Raised
      case Line(text) =>
        if text == "" then Reached(pos)
        else if Contains(text, "uciok") then Reached(pos + 1)
        else Handshake(stdout, pos + 1, n - 1)
  }

  /** The answer a `bestmove` line gives: its second token, if it has one. */
  function BestmoveToken(text: string): Option<string>
  {
    var parts := SplitWhitespace(text);
    if |parts| >= 2 then Some(parts[1]) else None
  }

  /** The search loop from read `pos` with `n` clock checks left: None when a
      read raises, otherwise the move found (or None) at the first line that
      starts with `bestmove`, at end of file, or when the clock runs out. */
  function Search(stdout: seq<Read>, pos: nat, n: nat): (r: Option<Option<string>>)
    ensures r.Some? && r.value.Some? ==> r.value.value != "" && NoSpace(r.value.value)
    decreases n
  {
    if n == 0 then Some(None)
    else match ReadAt(stdout, pos)
      case ReadFails => None
      case Line(text) =>
        if text == "" then Some(None)
        else if StartsWith(text, "bestmove") then Some(BestmoveToken(text))
        else Search(stdout, pos + 1, n - 1)
  }

  /** The whole run: the move returned and the commands written to the engine,
      in order. */
  datatype CliRun = CliRun(best: Option<string>, sent: seq<string>)

  /** The first `k` of the commands, limited by how many writes succeed. */
  function Written(commands: seq<string>, accepted: nat): seq<string>
  {
    if accepted < |commands| then commands[..accepted] else commands
  }

  /** `_try_cli_stockfish`: no engine binary, a failed spawn, a failed write
      or a failed read all give None; a failed `quit` is swallowed. */
  function Exchange(fen: string, depth: int, proc: EngineProcess, budget: ReadBudget): (r: CliRun)
    ensures !proc.pathExists || !proc.spawns ==> r == CliRun(None, [])
    ensures proc.writesAccepted < 3 ==> r.best == None
    ensures Handshake(proc.stdout, 0, budget.handshake).Raised? ==> r.best == None
    ensures Handshake(proc.stdout, 0, budget.handshake).Reached? &&
            Search(proc.stdout, Handshake(proc.stdout, 0, budget.handshake).next, budget.search).None? ==>
              r.best == None
    ensures r.best.Some? ==> |r.sent| >= 3 && r.sent[..3] == [UciCommand, PositionCommand(fen), GoCommand(depth)]
    ensures proc.pathExists && proc.spawns && proc.writesAccepted >= 3 &&
            Handshake(proc.stdout, 0, budget.handshake).Reached? &&
            Search(proc.stdout, Handshake(proc.stdout, 0, budget.handshake).next, budget.search).Some? ==>
              r.best == Search(proc.stdout, Handshake(proc.stdout, 0, budget.handshake).next, budget.search).value
  {
    var script := [UciCommand, PositionCommand(fen), GoCommand(depth)];
    if !proc.pathExists || !proc.spawns then CliRun(None, [])
    else if proc.writesAccepted < 1 then CliRun(None, [])
    else match Handshake(proc.stdout, 0, budget.handshake)
      case Raised => CliRun(None, [UciCommand])
      case Reached(next) =>
        if proc.writesAccepted < 3 then CliRun(None, Written(script, proc.writesAccepted))
        else match Search(proc.stdout, next, budget.search)
          case None => CliRun(None, script)
          case Some(best) => CliRun(best, Written(script + [QuitCommand], proc.writesAccepted))
  }

  /** The handshake loop: read until end of file, a line containing `uciok`
      or the clock bound; a read that raises ends it with `Raised`. */
  method WaitForUciok(stdout: seq<Read>, bound: nat) returns (phase: Phase)
    ensures phase == Handshake(stdout, 0, bound)
  {
    var pos := 0;
    while pos < bound
      invariant pos <= bound
      invariant Handshake(stdout, 0, bound) == Handshake(stdout, pos, bound - pos)
    {
      var r := ReadAt(stdout, pos);
      if r.ReadFails? {
        return Raised;
      }
      if r.text == "" {
        break;
      }
      pos := pos + 1;
      if Contains(r.text, "uciok") {
        break;
      }
    }
    return Reached(pos);
  }

  /** The search loop from read `start`: stop at end of file, or at the first
      `bestmove` line, taking its second token if there is one; a read that
      raises ends it with None. */
  method ReadBestmove(stdout: seq<Read>, start: nat, bound: nat) returns (outcome: Option<Option<string>>)
    ensures outcome == Search(stdout, start, bound)
  {
    var bestMove: Option<string> := None;
    var pos := start;
    while pos - start < bound
      invariant start <= pos <= start + bound
      invariant Search(stdout, start, bound) == Search(stdout, pos, bound - (pos - start))
    {
      var r := ReadAt(stdout, pos);
      if r.ReadFails? {
        return None;
      }
      pos := pos + 1;
      if r.text == "" {
        break;
      }
      if StartsWith(r.text, "bestmove") {
        var parts := SplitWhitespace(r.text);
        if |parts| >= 2 {
          bestMove := Some(parts[1]);
        }
        return Some(bestMove);
      }
    }
    return Some(None);
  }

  /** `_try_cli_stockfish` step by step: the writes go to `sent` until the
      pipe refuses one, and an exception anywhere before `quit` gives None. */
  method TryCliStockfish(fen: string, depth: int, proc: EngineProcess, budget: ReadBudget)
    returns (best: Option<string>, sent: seq<string>)
    ensures CliRun(best, sent) == Exchange(fen, depth, proc, budget)
  {
    sent := [];
    best := None;
    if !proc.pathExists || !proc.spawns || proc.writesAccepted < 1 {
      return;
    }
    sent := sent + [UciCommand];
    var phase := WaitForUciok(proc.stdout, budget.handshake);
    if phase.Raised? {
      return;
    }
    if proc.writesAccepted < 2 {
      return;
    }
    sent := sent + [PositionCommand(fen)];
    if proc.writesAccepted < 3 {
      assert sent == [UciCommand, PositionCommand(fen), GoCommand(depth)][..2];
      return;
    }
    sent := sent + [GoCommand(depth)];
    var outcome := ReadBestmove(proc.stdout, phase.next, budget.search);
    if outcome.None? {
      return;
    }
    best := outcome.value;
    if proc.writesAccepted >= 4 {
      sent := sent + [QuitCommand];
    }
  }

  /** The depth `get_best_move_for_fen` and `_try_cli_stockfish` use when the
      caller gives none, as every caller in the program does. */
  const DefaultDepth: int := 10

  /** `get_best_move_for_fen`: the engine's answer when it is a non-empty
      string, otherwise the placeholder move `Nf3`. */
  method GetBestMoveForFen(fen: string, depth: int, proc: EngineProcess, budget: ReadBudget)
    returns (move: string)
    ensures var best := Exchange(fen, depth, proc, budget).best;
            move == if best.Some? && best.value != "" then best.value else "Nf3"
    ensures move != ""
  {
    var answer, _ := TryCliStockfish(fen, depth, proc, budget);
    if answer.Some? && answer.value != "" {
      return answer.value;
    }
    return "Nf3";
  }

  // ---------------------------------------------------------------------------
  // Properties of the exchange

  /** The writes are always a prefix of `uci`, `position fen`, `go`, `quit`,
      in that order. */
  lemma CommandOrder(fen: string, depth: int, proc: EngineProcess, budget: ReadBudget)
    ensures var sent := Exchange(fen, depth, proc, budget).sent;
            |sent| <= 4 && sent == (if |sent| == 4 then [UciCommand, PositionCommand(fen), GoCommand(depth), QuitCommand]
                                    else [UciCommand, PositionCommand(fen), GoCommand(depth)][..|sent|])
  {
    var script := [UciCommand, PositionCommand(fen), GoCommand(depth)];
    assert script[..1] == [UciCommand];
    assert script[..0] == [];
    assert (script + [QuitCommand])[..3] == script;
  }

  /** A missing `uciok` is not an error: the handshake raises only when one of
      the reads it makes raises, and otherwise always lets the exchange go on. */
  lemma {:induction false} HandshakeRaisesOnlyOnFailedRead(stdout: seq<Read>, pos: nat, n: nat)
    ensures Handshake(stdout, pos, n) == Raised <==>
            exists i :: pos <= i < pos + n && ReadAt(stdout, i) == ReadFails &&
                        forall k :: pos <= k < i ==> ReadAt(stdout, k).Line? && ReadAt(stdout, k).text != "" &&
                                                      !Contains(ReadAt(stdout, k).text, "uciok")
    decreases n
  {
    if n > 0 {
      HandshakeRaisesOnlyOnFailedRead(stdout, pos + 1, n - 1);
      match ReadAt(stdout, pos)
      case ReadFails =>
      case Line(text) =>
        if text == "" || Contains(text, "uciok") {
          forall i | pos <= i < pos + n && ReadAt(stdout, i) == ReadFails
            ensures exists k :: pos <= k < i && !(ReadAt(stdout, k).Line? && ReadAt(stdout, k).text != "" &&
                                                   !Contains(ReadAt(stdout, k).text, "uciok"))
          {
            assert i != pos;
          }
        }
    }
  }

  /** The handshake stops right after the FIRST line containing `uciok`:
      lines before it (none empty, none failing) are passed over, and the
      exchange goes on with the read after it. */
  lemma {:induction false} FirstUciokStops(stdout: seq<Read>, pos: nat, n: nat, i: nat)
    requires pos <= i < pos + n
    requires ReadAt(stdout, i).Line? && ReadAt(stdout, i).text != "" && Contains(ReadAt(stdout, i).text, "uciok")
    requires forall k :: pos <= k < i ==> ReadAt(stdout, k).Line? && ReadAt(stdout, k).text != "" &&
                                          !Contains(ReadAt(stdout, k).text, "uciok")
    ensures Handshake(stdout, pos, n) == Reached(i + 1)
    decreases n
  {
    if i > pos {
      FirstUciokStops(stdout, pos + 1, n - 1, i);
    }
  }

  /** A `quit` the pipe refuses is swallowed: the answer is the same whether
      the fourth write succeeds or raises; only the record of writes differs. */
  lemma FailedQuitSwallowed(fen: string, depth: int, proc: EngineProcess, budget: ReadBudget)
    requires proc.writesAccepted == 3
    ensures Exchange(fen, depth, proc, budget).best == Exchange(fen, depth, proc.(writesAccepted := 4), budget).best
    ensures QuitCommand !in Exchange(fen, depth, proc, budget).sent
  {
  }

  /** Called with the FEN alone, the one way the program calls it, the engine
      is asked to search to depth 10. */
  lemma DefaultDepthCommand(fen: string, proc: EngineProcess, budget: ReadBudget)
    ensures Exchange(fen, DefaultDepth, proc, budget).best.Some? ==>
              Exchange(fen, DefaultDepth, proc, budget).sent[2] == "go depth 10 movetime 2000\n"
  {
    assert NatToString(10) == NatToString(1) + [DigitChar(0)];
  }

  /** The answer is the second token of the FIRST line that starts with
      `bestmove`: lines before it (none empty, none failing) are ignored and
      nothing after it is read. */
  lemma {:induction false} FirstBestmoveWins(stdout: seq<Read>, pos: nat, n: nat, i: nat)
    requires pos <= i < pos + n
    requires ReadAt(stdout, i).Line? && StartsWith(ReadAt(stdout, i).text, "bestmove")
    requires forall k :: pos <= k < i ==> ReadAt(stdout, k).Line? && ReadAt(stdout, k).text != "" &&
                                          !StartsWith(ReadAt(stdout, k).text, "bestmove")
    ensures Search(stdout, pos, n) == Some(BestmoveToken(ReadAt(stdout, i).text))
    decreases n
  {
    if i > pos {
      FirstBestmoveWins(stdout, pos + 1, n - 1, i);
    } else {
      assert ReadAt(stdout, i).text != "";
    }
  }

  /** Whatever the search returns was read: a move found is the second token
      of a `bestmove` line within the budget. */
  lemma {:induction false} SearchFindsReadToken(stdout: seq<Read>, pos: nat, n: nat)
    ensures Search(stdout, pos, n).Some? && Search(stdout, pos, n).value.Some? ==>
              exists i :: pos <= i < pos + n && ReadAt(stdout, i).Line? &&
                          StartsWith(ReadAt(stdout, i).text, "bestmove") &&
                          BestmoveToken(ReadAt(stdout, i).text) == Search(stdout, pos, n).value
    decreases n
  {
    if n > 0 {
      SearchFindsReadToken(stdout, pos + 1, n - 1);
      match ReadAt(stdout, pos)
      case ReadFails =>
      case Line(text) =>
        if text != "" && StartsWith(text, "bestmove") {
          assert ReadAt(stdout, pos).text == text;
        }
    }
  }

  /** The search gives no move at end of file, when the clock has run out, and
      on a `bestmove` line with nothing after the keyword. */
  lemma SearchGivesUp(stdout: seq<Read>, pos: nat, n: nat)
    ensures n == 0 ==> Search(stdout, pos, n) == Some(None)
    ensures n > 0 && pos >= |stdout| ==> Search(stdout, pos, n) == Some(None)
    ensures n > 0 && ReadAt(stdout, pos) == Line("bestmove\n") ==> Search(stdout, pos, n) == Some(None)
  {
    if n > 0 && ReadAt(stdout, pos) == Line("bestmove\n") {
      BareBestmove();
    }
  }

  lemma BareBestmove()
    ensures StartsWith("bestmove\n", "bestmove") && BestmoveToken("bestmove\n") == None
  {
    assert StartsWith("bestmove\n", "bestmove");
    TokenLengthOfToken("bestmove", "\n");
    assert "bestmove\n"[..8] == "bestmove";
    assert "bestmove\n"[8..] == "\n";
    assert SplitWhitespace("\n") == [];
  }

  /** The token is passed on unchecked: a line `bestmove <token>` gives the
      token whatever it is, so `bestmove (none)` gives "(none)". */
  lemma BestmoveTokenUnchecked(stdout: seq<Read>, pos: nat, n: nat, move: string)
    requires n > 0 && move != "" && NoSpace(move)
    requires ReadAt(stdout, pos) == Line("bestmove " + move + "\n")
    ensures Search(stdout, pos, n) == Some(Some(move))
  {
    BestmoveLineToken(move);
  }

  lemma BestmoveLineToken(move: string)
    requires move != "" && NoSpace(move)
    ensures StartsWith("bestmove " + move + "\n", "bestmove")
    ensures BestmoveToken("bestmove " + move + "\n") == Some(move)
  {
    var text := "bestmove " + move + "\n";
    assert text[..8] == "bestmove";
    assert text == "bestmove" + " " + (move + "\n");
    SplitWhitespaceCons("bestmove", move + "\n");
    LineSplitsToToken(move);
  }

  lemma LineSplitsToToken(move: string)
    requires move != "" && NoSpace(move)
    ensures SplitWhitespace(move + "\n") == [move]
  {
    TokenLengthOfToken(move, "\n");
    assert (move + "\n")[..|move|] == move;
    assert (move + "\n")[|move|..] == "\n";
    assert SplitWhitespace("\n") == [];
  }

  lemma NoneTokenExample(stdout: seq<Read>)
    requires |stdout| >= 1 && stdout[0] == Line("bestmove (none)\n")
    ensures Search(stdout, 0, 1) == Some(Some("(none)"))
  {
    assert "bestmove (none)\n" == "bestmove " + "(none)" + "\n";
    BestmoveTokenUnchecked(stdout, 0, 1, "(none)");
  }

  /** `get_best_move_for_fen` never returns None or "": without an engine it
      gives `Nf3`. */
  lemma PlaceholderWithoutEngine(fen: string, depth: int, proc: EngineProcess, budget: ReadBudget)
    requires !proc.pathExists
    ensures Exchange(fen, depth, proc, budget).best == None
  {
  }

  // ---------------------------------------------------------------------------
  // End of file

  /** The handshake never reads past an end of file at `i`. */
  lemma {:induction false} HandshakeStopsAtEndOfFile(stdout: seq<Read>, pos: nat, n: nat, i: nat)
    requires pos <= i < |stdout| && stdout[i] == Line("")
    ensures Handshake(stdout, pos, n) == Handshake(stdout[..i], pos, n)
    ensures Handshake(stdout, pos, n).Reached? ==> Handshake(stdout, pos, n).next <= i
    decreases n
  {
    if n > 0 {
      assert ReadAt(stdout, pos) == ReadAt(stdout[..i], pos);
      if pos < i {
        HandshakeStopsAtEndOfFile(stdout, pos + 1, n - 1, i);
      }
    }
  }

  /** The search never reads past an end of file at `i`. */
  lemma {:induction false} SearchStopsAtEndOfFile(stdout: seq<Read>, pos: nat, n: nat, i: nat)
    requires pos <= i < |stdout| && stdout[i] == Line("")
    ensures Search(stdout, pos, n) == Search(stdout[..i], pos, n)
    decreases n
  {
    if n > 0 {
      assert ReadAt(stdout, pos) == ReadAt(stdout[..i], pos);
      if pos < i {
        SearchStopsAtEndOfFile(stdout, pos + 1, n - 1, i);
      }
    }
  }

  /** Once `readline()` has returned "" the pipe stays at end of file: the
      run is the same as if the engine's output ended there, whatever the
      stream holds after it. */
  lemma EndOfFileIsFinal(fen: string, depth: int, proc: EngineProcess, budget: ReadBudget, i: nat)
    requires i < |proc.stdout| && proc.stdout[i] == Line("")
    ensures Exchange(fen, depth, proc, budget) == Exchange(fen, depth, proc.(stdout := proc.stdout[..i]), budget)
  {
    var cut := proc.(stdout := proc.stdout[..i]);
    HandshakeStopsAtEndOfFile(proc.stdout, 0, budget.handshake, i);
    match Handshake(proc.stdout, 0, budget.handshake)
    case Raised =>
    case Reached(next) =>
      SearchStopsAtEndOfFile(proc.stdout, next, budget.search, i);
  }
}
