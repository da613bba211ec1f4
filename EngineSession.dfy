/** `StockfishEngine` of the chess-vision-fast backend: a holder for at most
    one python-chess engine handle and the current board. The handle is opened
    on demand and closed on request; a move request works out its depth and
    time limit from optional arguments.

    python-chess is an oracle here: launching the engine either gives a handle
    or raises, parsing a FEN either succeeds or raises, `play` gives a move,
    no move (a finished game) or raises (a dead engine), `analyse` gives a
    score or raises, and `san` is a function of the board and the move. The
    board is kept as the FEN it was set from. */
module EngineSession {
  import opened Wrappers
  import opened Fen

  /** A running engine process. */
  datatype Handle = Handle(id: nat)

  /** What `SimpleEngine.popen_uci` does when it is called. */
  datatype Launch = Spawned(handle: Handle) | LaunchRaises

  /** `chess.engine.Limit(depth=..., time=...)`; the time is in seconds. */
  datatype Limit = Limit(depth: int, time: Option<real>)

  /** The `{'cp': ..., 'mate': ...}` dictionary: both keys are always there. */
  datatype Score = Score(cp: Option<int>, mate: Option<int>)

  datatype MoveResult = MoveResult(uci: string, san: string, bestMove: string, score: Score)

  /** The exceptions that leave the session: the launch raised, the FEN did
      not parse, `play` or `analyse` raised, or `play` found no move, so that
      `board.san(result.move)` raised. */
  datatype EngineError = LaunchFailed | InvalidFen | EngineRaised | NoMoveToPlay

  /** What `engine.play(board, limit)` does: a result whose move is given
      (as `move.uci()`), a result whose move is None (the game is over), or an
      exception (the engine died). */
  datatype Play = Played(move: string) | NoMove | PlayRaises

  /** python-chess seen from the session, for a board given by its FEN:
      `play(board, limit)`, `board.san(move)` and the score of
      `analyse(board, limit)` from the side to move, None when it raises. */
  datatype EngineOracle = EngineOracle(play: (string, Limit) -> Play,
                                       san: (string, string) -> string,
                                       analyse: (string, Limit) -> Option<Score>)

  /** `depth or self.default_depth`: None and 0 both fall back. */
  function EffectiveDepth(depth: Option<int>, defaultDepth: int): (d: int)
    ensures depth.Some? && depth.value != 0 ==> d == depth.value
    ensures depth.None? || depth.value == 0 ==> d == defaultDepth
  {
    if depth.Some? && depth.value != 0 then depth.value else defaultDepth
  }

  /** `(time_ms or 500) / 1000 if time_ms else None`, as written. */
  function TimeLimit(timeMs: Option<int>): Option<real>
  {
    if timeMs.Some? && timeMs.value != 0 then
      Some((if timeMs.Some? && timeMs.value != 0 then timeMs.value else 500) as real / 1000.0)
    else None
  }

  /** No time limit when `time_ms` is None or 0, otherwise `time_ms` in
      seconds; the 500 ms default inside the expression is never used. */
  lemma TimeLimitDefaultUnreachable(timeMs: Option<int>)
    ensures timeMs.None? || timeMs.value == 0 ==> TimeLimit(timeMs) == None
    ensures timeMs.Some? && timeMs.value != 0 ==> TimeLimit(timeMs) == Some(timeMs.value as real / 1000.0)
    ensures TimeLimit(timeMs) == Some(0.5) ==> timeMs == Some(500)
  {
  }

  /** The result `get_best_move` builds from the oracle's answers: `uci` and
      `best_move` are the same move, `san` is its notation on the board. Each
      call happens in the source's order, so an exception of `play`, or a
      missing move, is the error before `analyse` is ever asked. */
  function MoveFor(board: string, limit: Limit, oracle: EngineOracle): (r: Result<MoveResult, EngineError>)
    ensures r.Ok? <==> oracle.play(board, limit).Played? && oracle.analyse(board, limit).Some?
    ensures r.Ok? ==> r.value.uci == r.value.bestMove == oracle.play(board, limit).move &&
                      r.value.san == oracle.san(board, r.value.uci) &&
                      r.value.score == oracle.analyse(board, limit).value
    ensures oracle.play(board, limit).NoMove? ==> r == Err(NoMoveToPlay)
    ensures oracle.play(board, limit).PlayRaises? ==> r == Err(EngineRaised)
    ensures oracle.play(board, limit).Played? && oracle.analyse(board, limit).None? ==> r == Err(EngineRaised)
  {
    match oracle.play(board, limit)
    case PlayRaises => Err(EngineRaised)
    case NoMove => Err(NoMoveToPlay)
    case Played(move) =>
      var san := oracle.san(board, move);
      match oracle.analyse(board, limit)
      case None => Err(EngineRaised)
      case Some(score) => Ok(MoveResult(move, san, move, score))
  }

  class StockfishEngine {
    const path: string
    const defaultDepth: int
    var engine: Option<Handle>
    var board: string
    /** Instrumentation, not state of the source: how many engines were
        launched, quit, and asked to play, as the backend's test double counts
        the calls. They let the contracts state that no process leaks. */
    var launches: nat
    var quits: nat
    var plays: nat

    /** Every launched engine but the one held has been quit: at most one
        process is open at any time, and it is the held one. */
    ghost predicate Valid()
      reads this
    {
      launches == quits + (if engine.Some? then 1 else 0)
    }

    /** A new session holds no engine and the standard starting position. */
    constructor (path: string, defaultDepth: int := 12)
      ensures Valid()
      ensures this.path == path && this.defaultDepth == defaultDepth
      ensures engine == None && board == StartingFen
      ensures launches == 0 && quits == 0 && plays == 0
    {
      this.path := path;
      this.defaultDepth := defaultDepth;
      engine := None;
      board := StartingFen;
      launches := 0;
      quits := 0;
      plays := 0;
    }

    /** `start`: nothing happens when an engine is held; otherwise the
        launch's handle is stored, or its exception passed on. */
    method Start(launch: Launch) returns (r: Result<(), EngineError>)
      requires Valid()
      modifies this
      ensures Valid()
      ensures board == old(board) && quits == old(quits) && plays == old(plays)
      ensures old(engine).Some? ==> r.Ok? && engine == old(engine) && launches == old(launches)
      ensures old(engine).None? && launch.Spawned? ==>
                r.Ok? && engine == Some(launch.handle) && launches == old(launches) + 1
      ensures old(engine).None? && launch.LaunchRaises? ==>
                r == Err(LaunchFailed) && engine == None && launches == old(launches)
      ensures r.Ok? ==> engine.Some?
    {
      if engine.Some? {
        return Ok(());
      }
      match launch
      case LaunchRaises =>
        return Err(LaunchFailed);
      case Spawned(handle) =>
        engine := Some(handle);
        launches := launches + 1;
        return Ok(());
    }

    /** `set_fen`: the board becomes the FEN when python-chess parses it;
        when it raises, the board is left as it was. */
    method SetFen(fen: string, parses: string -> bool) returns (r: Result<(), EngineError>)
      requires Valid()
      modifies this
      ensures Valid()
      ensures engine == old(engine) && launches == old(launches) && quits == old(quits) && plays == old(plays)
      ensures parses(fen) ==> r.Ok? && board == fen
      ensures !parses(fen) ==> r == Err(InvalidFen) && board == old(board)
    {
      if !parses(fen) {
        return Err(InvalidFen);
      }
      board := fen;
      return Ok(());
    }

    /** `get_best_move`: start the engine if needed, then ask it for a move
        with the effective depth and time limit, on the current board. The
        `RuntimeError` of the source cannot be raised, since `start` either
        holds an engine afterwards or has raised itself. An exception of the
        engine leaves its handle in place, dead or not. */
    method GetBestMove(depth: Option<int>, timeMs: Option<int>, launch: Launch, oracle: EngineOracle)
      returns (r: Result<MoveResult, EngineError>)
      requires Valid()
      modifies this
      ensures Valid()
      ensures board == old(board) && quits == old(quits)
      ensures old(engine).None? && launch.LaunchRaises? ==>
                r == Err(LaunchFailed) && engine == None && plays == old(plays)
      ensures old(engine).Some? || launch.Spawned? ==>
                engine.Some? && plays == old(plays) + 1 &&
                r == MoveFor(board, Limit(EffectiveDepth(depth, defaultDepth), TimeLimit(timeMs)), oracle)
      ensures old(engine).Some? ==> engine == old(engine) && launches == old(launches)
      ensures old(engine).None? && launch.Spawned? ==> engine == Some(launch.handle) && launches == old(launches) + 1
    {
      var started := Start(launch);
      if started.Err? {
        return Err(started.error);
      }
      var limit := Limit(EffectiveDepth(depth, defaultDepth), TimeLimit(timeMs));
      var result := oracle.play(board, limit);
      plays := plays + 1;
      match result {
        case PlayRaises =>
          return Err(EngineRaised);
        case NoMove =>
          return Err(NoMoveToPlay);
        case Played(move) =>
          var san := oracle.san(board, move);
          var score := oracle.analyse(board, limit);
          if score.None? {
            return Err(EngineRaised);
          }
          return Ok(MoveResult(move, san, move, score.value));
      }
    }

    /** `close`: quit and drop the engine if one is held; otherwise nothing.
        `quit` runs first, so when it raises (the engine already died, or did
        not exit in time) the exception is passed on and the handle stays. */
    method Close(quitRaises: bool) returns (r: Result<(), EngineError>)
      requires Valid()
      modifies this
      ensures Valid()
      ensures board == old(board) && plays == old(plays) && launches == old(launches)
      ensures old(engine).None? ==> r.Ok? && engine == None && quits == old(quits)
      ensures old(engine).Some? && !quitRaises ==> r.Ok? && engine == None && quits == old(quits) + 1
      ensures old(engine).Some? && quitRaises ==> r == Err(EngineRaised) && engine == old(engine) && quits == old(quits)
    {
      if engine.Some? {
        if quitRaises {
          return Err(EngineRaised);
        }
        quits := quits + 1;
        engine := None;
      }
      return Ok(());
    }
  }

  /** Starting twice opens one engine, and closing twice quits it once. */
  method StartCloseIdempotent(first: Launch, second: Launch)
    returns (launched: nat, quit: nat)
    ensures first.Spawned? ==> launched == 1 && quit == 1
    ensures first.LaunchRaises? ==> launched == (if second.Spawned? then 1 else 0) && quit == launched
  {
    var session := new StockfishEngine("stockfish");
    var _ := session.Start(first);
    var _ := session.Start(second);
    var _ := session.Close(false);
    var _ := session.Close(false);
    launched, quit := session.launches, session.quits;
  }

  /** The backend's test with an engine stub that plays e2e4 and scores
      +34 centipawns: the result has uci e2e4 and cp 34, and the engine was
      asked to play once. */
  method StubEngineScenario() returns (move: Result<MoveResult, EngineError>, played: nat)
    ensures move.Ok? && move.value.uci == "e2e4" && move.value.bestMove == "e2e4"
    ensures move.value.score == Score(Some(34), None)
    ensures played == 1
  {
    var stub := EngineOracle((b: string, l: Limit) => Played("e2e4"),
                             (b: string, m: string) => "e4",
                             (b: string, l: Limit) => Some(Score(Some(34), None)));
    var session := new StockfishEngine("stockfish_binary", 5);
    var _ := session.Start(Spawned(Handle(1)));
    var _ := session.SetFen(StartingFen, (f: string) => true);
    move := session.GetBestMove(Some(2), Some(200), Spawned(Handle(2)), stub);
    played := session.plays;
    var _ := session.Close(false);
  }

  /** A checkmated or stalemated board: the engine answers with no move, so
      `board.san(None)` raises; the engine stays held, and a second request
      reuses it rather than launching another one. */
  method NoMoveOnFinishedGame(fen: string) returns (first: Result<MoveResult, EngineError>,
                                                     second: Result<MoveResult, EngineError>, launched: nat)
    ensures first == Err(NoMoveToPlay) && second == Err(NoMoveToPlay)
    ensures launched == 1
  {
    var finished := EngineOracle((b: string, l: Limit) => NoMove,
                                 (b: string, m: string) => m,
                                 (b: string, l: Limit) => Some(Score(None, Some(0))));
    var session := new StockfishEngine("stockfish");
    var _ := session.SetFen(fen, (f: string) => true);
    first := session.GetBestMove(None, None, Spawned(Handle(1)), finished);
    second := session.GetBestMove(None, None, Spawned(Handle(2)), finished);
    launched := session.launches;
  }

  /** A dead engine: `play` raises, the dead handle stays in the session, and
      `start` never relaunches, so every later request fails the same way. */
  method DeadEngineStaysHeld() returns (first: Result<MoveResult, EngineError>,
                                        second: Result<MoveResult, EngineError>, launched: nat)
    ensures first == Err(EngineRaised) && second == Err(EngineRaised)
    ensures launched == 1
  {
    var dead := EngineOracle((b: string, l: Limit) => PlayRaises,
                             (b: string, m: string) => m,
                             (b: string, l: Limit) => None);
    var session := new StockfishEngine("stockfish");
    first := session.GetBestMove(None, None, Spawned(Handle(1)), dead);
    second := session.GetBestMove(None, None, Spawned(Handle(2)), dead);
    launched := session.launches;
  }

  /** Closing a session whose engine has died: `quit` raises, the exception
      is passed on and the dead handle stays, so the session still counts one
      engine open; a later `close` whose `quit` succeeds drops it. */
  method CloseDeadEngine() returns (first: Result<(), EngineError>, held: bool, second: Result<(), EngineError>,
                                    open: int)
    ensures first == Err(EngineRaised) && held
    ensures second.Ok? && open == 0
  {
    var session := new StockfishEngine("stockfish");
    var _ := session.Start(Spawned(Handle(1)));
    first := session.Close(true);
    held := session.engine.Some?;
    second := session.Close(false);
    open := session.launches - session.quits;
  }
}
