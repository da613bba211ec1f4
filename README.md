# chessAI core, modelled in Dafny

The chessAI repository turns a picture of a chess board into a suggested move. This project
models the string and state logic between recognising the board and asking the engine.

- **FEN encoding** (Forsyth–Edwards Notation, section 16.1.3.1 of the PGN Standard).
  - The backend turns square detections into an 8x8 matrix and run-length encodes each rank.
    This is `build_matrix_from_squares`, `matrix_to_fen` and `fen_from_squares` in `fen.py`.
  - `fen_from_detections` in `detector.py` is a second encoder. It indexes squares through
    python-chess's square-name table.
  - Also modelled: the detector's piece table, its box-to-square clamp and its backend choice.
  - `validate_fen` in `src/ocr/fen_generator.py` checks a FEN.
- **UCI client** (Universal Chess Interface) in `src/engine/stockfish_engine.py`.
  - It does a `uci`/`uciok` handshake, writes `position fen` and `go`, and scans the output for
    the first `bestmove` line.
  - `get_best_move_for_fen` falls back to the placeholder move `Nf3`.
- **Engine session** `StockfishEngine` in `chess-vision-fast/backend/app/stockfish_engine.py`.
  It holds at most one engine handle. `start` and `close` are idempotent, a move request starts
  the engine itself, and depth and time limit have defaulting rules.
- **Gemini vision loops** in `src/ocr/gemini_vision.py`: the model is chosen in a fixed
  preference order, and a retry loop keeps the first answer that contains `/`.
- **Window arithmetic.**
  - `src/desktop_capture.py`: padding and clamping a detected board box, and the crop window.
  - `src/region_selector.py`: the drag-rectangle mouse callback, the ENTER/ESC key loop, corner
    normalisation and region precedence.

Each core file is one module: `Fen`, `Detector`, `FenValidator`, `UciClient`, `EngineSession`,
`GeminiVision`, `DesktopCapture`, `RegionSelector`. `Wrappers` (Option, Result) and `Text` hold
the Python string built-ins the code relies on: `str(int)`, `split`, `join`, `strip`, `lower`,
`startswith` and `in`.

Where the source loops or mutates, the model does too.
- Each loop is a method, proved equal to a specification function over the inputs. The
  properties are lemmas about that function.
- `StockfishEngine` and the region selector's callback state are classes whose methods update
  fields.
- Where one Python function holds several loops, each loop is its own method and the function
  calls them:
  - `matrix_to_fen`: `RowParts` and `MatrixToFen`;
  - `fen_from_detections`: `FillBoard`, `EncodeRow` and `FenFromDetections`;
  - `_try_cli_stockfish`: `WaitForUciok`, `ReadBestmove` and `TryCliStockfish`.

The environment is a parameter wherever the code touches it:
- the engine's output is a sequence of reads, and the end of the sequence reads as end of file;
- each wall-clock loop is a bound on how many times its time guard is still true;
- the number of pipe writes that succeed is given;
- python-chess (`popen_uci`, `play`, `san`, `analyse`, `chess.Board`) is an oracle: a function
  parameter, or a flag saying whether it raises. `play` gives a move, no move (a finished game) or
  raises (a dead engine), `analyse` gives a score or raises, and `quit` succeeds or raises;
- the Gemini API is a record per call: whether configuring succeeds, which models construct,
  whether the image loads, and the reply (None when the request raises);
- mouse and key events are one input sequence, and the saved-region file is its content.

Some facts about the engine code that the model keeps:
- The session has no Faulted state, no typed errors and no retry tiers around the engine.
- Neither client parses score lines. The backend takes the score from python-chess's `analyse`.
- The backend session starts the engine implicitly on `get_best_move`.
- The CLI client turns every failure into None, and callers then get the `Nf3` placeholder.

## Model

| member | source | states |
|---|---|---|
| Fen.Target | chess-vision-fast/backend/app/fen.py:11-15 | IndexError exactly when the square has fewer than 2 characters. ValueError exactly when its second character is not a digit. Otherwise the cell (8 - rank, file - 'a') when it is on the board, else nowhere. |
| Fen.ErrorPersists | chess-vision-fast/backend/app/fen.py:8-11 | Once a prefix of the detections raises, the whole build raises the same error. |
| Fen.BuildMatrixFromSquares | chess-vision-fast/backend/app/fen.py:6-17 | The loop that writes into the empty matrix returns exactly the matrix the detections build, or the first error. |
| Fen.LastWriterWins | chess-vision-fast/backend/app/fen.py:9-16 | Every cell holds the piece of the last detection that writes it. A cell nobody writes stays empty. Blank pieces and off-board squares never touch the matrix. |
| Fen.PlaceCell | chess-vision-fast/backend/app/fen.py:9-16 | One loop iteration changes only the cell its detection writes, and only when the piece is non-blank and the square is on the board. |
| Fen.FirstMalformedRaises | chess-vision-fast/backend/app/fen.py:9-11 | The build raises exactly when some detection with a piece has a malformed square. The error raised is the first such detection's. |
| Fen.LandedCellFilled | chess-vision-fast/backend/app/fen.py:15-16 | A cell some detection writes ends up non-empty. |
| Fen.EmptyIffNothingLands | chess-vision-fast/backend/app/fen.py:41 | The matrix is all empty exactly when no detection lands on the board. |
| Fen.RowParts | chess-vision-fast/backend/app/fen.py:23-34 | The parts the inner loop collects for a row, joined, are the run-length encoding of the row. |
| Fen.MatrixToFen | chess-vision-fast/backend/app/fen.py:20-36 | The result is the rank groups (`'8'` for an empty row) joined by '/', followed by the five other fields. |
| Fen.ExpandEncodeRun | chess-vision-fast/backend/app/fen.py:25-34 | On well-formed cells, expanding each digit of the encoding into that many empty cells gives the pending empties followed by the row. |
| Fen.RankRoundTrip | chess-vision-fast/backend/app/fen.py:22-35 | Expanding the rank group of a well-formed row recovers the row exactly. |
| Fen.EncodeRunNoAdjacentDigits | chess-vision-fast/backend/app/fen.py:26-34 | A run of empty cells collapses into one digit, so no two digits of a group are adjacent. |
| Fen.RankGroupInvariant | chess-vision-fast/backend/app/fen.py:22-35 | On a row of 8 well-formed cells, the group's digits plus its letters add up to exactly 8, and no two digits are adjacent. |
| Fen.EncodeRunChars | chess-vision-fast/backend/app/fen.py:25-34 | A rank group contains no '/' and no whitespace. |
| Fen.FenRoundTrip | chess-vision-fast/backend/app/fen.py:21-36 | On a well-formed 8x8 matrix the first field splits on '/' into exactly 8 groups. Decoding the FEN gives the matrix back, in row order. |
| Fen.FirstFieldIsPlacement | chess-vision-fast/backend/app/fen.py:36 | The first whitespace-separated field of the FEN is the piece placement. |
| Fen.FenFields | chess-vision-fast/backend/app/fen.py:36 | With non-empty blank-free fields, the FEN splits on whitespace into exactly six fields, in order. |
| Fen.PlacementIsOneField | chess-vision-fast/backend/app/fen.py:35-36 | The placement is non-empty and has no whitespace. |
| Fen.EncodeFenIsJoin | chess-vision-fast/backend/app/fen.py:36 | The FEN is the six fields joined by single blanks. |
| Fen.EmptyRankGroup | chess-vision-fast/backend/app/fen.py:35 | An all-empty row encodes as "8". |
| Fen.DefaultSuffix | chess-vision-fast/backend/app/fen.py:20 | The default fields are " w KQkq - 0 1". |
| Fen.EmptyPlacement | chess-vision-fast/backend/tests/test_fen.py:10-13 | The empty matrix has placement "8/8/8/8/8/8/8/8". |
| Fen.EmptyMatrixFen | chess-vision-fast/backend/tests/test_fen.py:10-13 | The empty matrix encodes as "8/8/8/8/8/8/8/8 w KQkq - 0 1". |
| Fen.CellInEncodeRun | chess-vision-fast/backend/app/fen.py:32 | Every non-empty cell's letter occurs in its rank group. |
| Fen.PieceShowsInFen | chess-vision-fast/backend/app/fen.py:32-36 | Every piece on the board occurs in the FEN. |
| Fen.FenFromSquares | chess-vision-fast/backend/app/fen.py:39-43 | `fen_from_squares` raises exactly when building the matrix raises. |
| Fen.FenFromSquaresCases | chess-vision-fast/backend/app/fen.py:39-43 | It raises exactly on a malformed square with a piece. With no detection landing it gives the starting FEN. Otherwise it gives the encoded matrix. |
| Fen.DefaultFieldsEnd | chess-vision-fast/backend/app/fen.py:36 | A FEN with the default fields ends with "w KQkq - 0 1". |
| Fen.TwoPawnsMatrix | chess-vision-fast/backend/tests/test_fen.py:16-20 | P on e2 and p on e7 land at rows 6 and 1, column 4. |
| Fen.TwoPawnsExample | chess-vision-fast/backend/tests/test_fen.py:16-23 | For P on e2 and p on e7, both letters occur in the FEN, and it ends with "w KQkq - 0 1". |
| Detector.PieceLetter | chess-vision-fast/backend/app/detector.py:115 | A letter exactly for the names in the table, of one character, and "" for any other name. |
| Detector.PieceMapColours | chess-vision-fast/backend/app/detector.py:15-28 | The six white names map to upper-case letters and the six black names to the same letters in lower case. The table has exactly 12 entries. |
| Detector.WhiteLetters | chess-vision-fast/backend/app/detector.py:16-21 | The white names map to P, R, N, B, Q, K. |
| Detector.BlackLetters | chess-vision-fast/backend/app/detector.py:22-27 | The black names map to p, r, n, b, q, k. |
| Detector.PieceLetterCells | chess-vision-fast/backend/app/detector.py:15-28 | Every letter of the table is a cell the encoder accepts, and no two names share a letter. |
| Detector.SquareName | chess-vision-fast/backend/app/detector.py:186 | Square i is named by file letter a..h then rank digit 1..8. |
| Detector.SquareIndex | chess-vision-fast/backend/app/detector.py:193 | The index found names the square. None means that no square has that name, which is the ValueError the loop skips. |
| Detector.SquareIndexOfName | chess-vision-fast/backend/app/detector.py:193 | Looking up a square's own name gives its index back. |
| Detector.Clamp | chess-vision-fast/backend/app/detector.py:184-185 | The result is in 0..7, and equals the input when the input is already in range. |
| Detector.GuessSquare | chess-vision-fast/backend/app/detector.py:182-186 | The guess is a square name. A box in column 0..7 gets that file, and a box at or below the last row (at or above the first) gets rank 1 (rank 8). |
| Detector.GuessSquareIsName | chess-vision-fast/backend/app/detector.py:182-186 | The guess is always one of the 64 names, at index clamped row * 8 + clamped column. A box on the board gets its own file and its rank counted from the bottom. |
| Detector.FillBoard | chess-vision-fast/backend/app/detector.py:190-198 | The first loop builds the board that the detections fill in, in order. |
| Detector.PutCell | chess-vision-fast/backend/app/detector.py:193-196 | Square index i is written at board[7 - i/8][i%8] and nowhere else. An unknown name changes nothing. |
| Detector.LastDetectionWins | chess-vision-fast/backend/app/detector.py:191-196 | A square holds the cell of the last detection naming it. A missing piece empties it. A square nobody names stays empty. |
| Detector.EncodeRow | chess-vision-fast/backend/app/detector.py:201-213 | The string-appending loop yields the same rank group as the FEN encoder: the run-length encoding, or "8". |
| Detector.FenFromDetections | chess-vision-fast/backend/app/detector.py:189-214 | The result is the filled board encoded with the default fields. |
| Detector.AgreesWithMatrixOf | chess-vision-fast/backend/app/detector.py:189-198 | When every name is valid and every piece present, both encoders build the same matrix. |
| Detector.DetectionsWellFormed | chess-vision-fast/backend/app/detector.py:199-214 | With pieces from the table, each of the 8 groups describes exactly 8 cells with no adjacent digits, and the FEN decodes back to the board. |
| Detector.NothingPlaced | chess-vision-fast/backend/app/detector.py:190-198 | Detections that name no square or carry no piece leave the board empty. |
| Detector.EmptyBoardNotStartingFen | chess-vision-fast/backend/app/detector.py:214 | An empty board gives "8/8/8/8/8/8/8/8 w KQkq - 0 1", not the starting FEN. |
| Detector.Create | chess-vision-fast/backend/app/detector.py:222-226 | A non-empty override is used, otherwise the settings backend. The result is YOLO exactly when that name is "yolo" ignoring case, and Lichess otherwise. |
| Detector.OverrideBeatsSettings | chess-vision-fast/backend/app/detector.py:223-224 | A non-empty override decides alone, whatever the settings say. |
| FenValidator.ValidateFen | src/ocr/fen_generator.py:11-22 | Empty is invalid. With python-chess, valid exactly when `chess.Board` accepts. Without it, valid exactly when there are at least four fields. |
| FenValidator.EmptyNeverValid | src/ocr/fen_generator.py:12-13 | The empty string is invalid whatever the library does. |
| FenValidator.EncodedFenPassesFallback | src/ocr/fen_generator.py:21-22 | Every encoded board FEN has six fields and passes the fallback. |
| FenValidator.FallbackIgnoresContents | src/ocr/fen_generator.py:21-22 | Any four non-empty fields pass the fallback, and a placement on its own fails. |
| FenValidator.FallbackAcceptsWideRanks | src/ocr/fen_generator.py:21-22 | A placement with 9-wide ranks passes the fallback. |
| UciClient.WaitForUciok | src/engine/stockfish_engine.py:56-62 | The handshake loop stops at end of file (without consuming it), at a line containing `uciok`, or after its clock checks run out. A failed read ends it as an exception. |
| UciClient.Handshake | src/engine/stockfish_engine.py:56-62 | The handshake reads at most as many lines as it has clock checks, and the exchange goes on from where it stopped. |
| UciClient.ReadBestmove | src/engine/stockfish_engine.py:69-79 | The search loop returns the second token of the first `bestmove` line. It gives none at end of file or when its clock checks run out, and an exception on a failed read. |
| UciClient.Search | src/engine/stockfish_engine.py:69-79 | A move the search returns is a non-empty token without whitespace. |
| UciClient.TryCliStockfish | src/engine/stockfish_engine.py:35-102 | The move and the commands written are those of the exchange: None without the binary, on a failed spawn, write or read; a failed `quit` is swallowed. |
| UciClient.Exchange | src/engine/stockfish_engine.py:35-102 | Any exception gives no answer: a missing binary or failed spawn (nothing written), a refused write, or a handshake or search read that raises. A move comes back only after `uci`, `position fen` and `go` were all written, in that order. When the three writes succeed, the handshake ends and the search from the read after it finds a `bestmove` line, the answer is that line's token. |
| UciClient.GetBestMoveForFen | src/engine/stockfish_engine.py:105-112 | The engine's answer when it is non-empty, else "Nf3". Never empty. |
| UciClient.CommandOrder | src/engine/stockfish_engine.py:51-87 | The writes are always a prefix of `uci`, `position fen`, `go`, `quit`, in that order. |
| UciClient.FirstUciokStops | src/engine/stockfish_engine.py:56-62 | The handshake stops right after the first line containing `uciok`, passing over the lines before it, and the exchange reads on from the next line. |
| UciClient.FailedQuitSwallowed | src/engine/stockfish_engine.py:81-87 | A refused `quit` write does not change the answer, and `quit` is then not recorded as written. |
| UciClient.DefaultDepthCommand | src/engine/stockfish_engine.py:35-66 | Called with the FEN alone, the client asks for `go depth 10 movetime 2000`. |
| UciClient.HandshakeRaisesOnlyOnFailedRead | src/engine/stockfish_engine.py:56-62 | A missing `uciok` is not a failure: the handshake fails exactly when a read it makes fails. |
| UciClient.FirstBestmoveWins | src/engine/stockfish_engine.py:71-79 | The answer comes from the first line starting with `bestmove`. Earlier lines are ignored. |
| UciClient.SearchFindsReadToken | src/engine/stockfish_engine.py:71-79 | A move returned is the second token of a `bestmove` line read within the clock checks. |
| UciClient.SearchGivesUp | src/engine/stockfish_engine.py:71-79 | No move when the clock checks have run out, at end of file, or on a bare `bestmove` line. |
| UciClient.BareBestmove | src/engine/stockfish_engine.py:75-77 | A `bestmove` line with nothing after the keyword has no second token. |
| UciClient.BestmoveTokenUnchecked | src/engine/stockfish_engine.py:75-78 | `bestmove <token>` gives the token, whatever it is. |
| UciClient.BestmoveLineToken | src/engine/stockfish_engine.py:75-78 | The second whitespace token of `bestmove <token>\n` is the token. |
| UciClient.NoneTokenExample | src/engine/stockfish_engine.py:75-78 | `bestmove (none)` gives the string "(none)". |
| UciClient.PlaceholderWithoutEngine | src/engine/stockfish_engine.py:36-37 | Without the binary there is no engine answer. |
| UciClient.EndOfFileIsFinal | src/engine/stockfish_engine.py:56-79 | Once a read returns "" (end of file), nothing after it is read: the run is the same as if the output ended there. |
| UciClient.HandshakeStopsAtEndOfFile | src/engine/stockfish_engine.py:56-62 | The handshake reads no line past an end of file, and stops at or before it. |
| UciClient.SearchStopsAtEndOfFile | src/engine/stockfish_engine.py:71-79 | The search reads no line past an end of file. |
| EngineSession.EffectiveDepth | chess-vision-fast/backend/app/stockfish_engine.py:40 | The depth given when it is non-zero. Otherwise, including depth 0, the default. |
| EngineSession.TimeLimitDefaultUnreachable | chess-vision-fast/backend/app/stockfish_engine.py:41 | No limit when `time_ms` is None or 0, else `time_ms`/1000. The 500 ms default is never used. |
| EngineSession.MoveFor | chess-vision-fast/backend/app/stockfish_engine.py:42-52 | A result exactly when `play` gives a move and `analyse` answers. Then `uci` equals `best_move` and is the move played, `san` is its notation, and the score is the analysis with both keys. No move (a finished game) is the error of `board.san(None)`, and an engine exception in `play` or `analyse` is passed on. |
| EngineSession.StockfishEngine.constructor | chess-vision-fast/backend/app/stockfish_engine.py:21-25 | A new session holds no engine and the starting position, with default depth 12 unless given. |
| EngineSession.StockfishEngine.Start | chess-vision-fast/backend/app/stockfish_engine.py:27-31 | No-op while an engine is held. Otherwise it stores the launched handle or passes on the launch error. At most one engine is ever open. |
| EngineSession.StockfishEngine.SetFen | chess-vision-fast/backend/app/stockfish_engine.py:33-34 | The board becomes the FEN when it parses. Otherwise the error, and the board unchanged. |
| EngineSession.StockfishEngine.GetBestMove | chess-vision-fast/backend/app/stockfish_engine.py:36-52 | Starts the engine if needed, storing the launched handle, then plays once on the current board with the effective depth and time limit, giving the result or error of `MoveFor`. A failed launch passes on its error. The held engine stays held whatever `play` or `analyse` does. |
| EngineSession.StockfishEngine.Close | chess-vision-fast/backend/app/stockfish_engine.py:54-57 | Quits and drops a held engine. When `quit` raises, the error is passed on and the handle stays held. Does nothing when no engine is held. |
| EngineSession.CloseDeadEngine | chess-vision-fast/backend/app/stockfish_engine.py:54-57 | Closing a dead engine raises and keeps the handle. A later close whose `quit` succeeds drops it, leaving no engine open. |
| EngineSession.StartCloseIdempotent | chess-vision-fast/backend/app/stockfish_engine.py:27-57 | Starting twice launches one engine, and closing twice quits it once. |
| EngineSession.StubEngineScenario | chess-vision-fast/backend/tests/test_stockfish_engine.py:31-46 | With a stub that plays e2e4 and scores cp 34, the result has uci e2e4 and cp 34, and play is called once. |
| EngineSession.NoMoveOnFinishedGame | chess-vision-fast/backend/app/stockfish_engine.py:36-43 | On a board with no legal move, `play` returns no move and the request fails where `board.san` raises. The engine stays held, and a second request reuses it: one launch in all. |
| EngineSession.DeadEngineStaysHeld | chess-vision-fast/backend/app/stockfish_engine.py:27-42 | When `play` raises, the dead handle stays in the session and `start` does not relaunch, so every later request fails the same way. One launch in all. |
| GeminiVision.FirstConstructibleIsEarliest | src/ocr/gemini_vision.py:60-69 | The model chosen is the earliest name that constructs, and every earlier name failed. There is none exactly when every name fails. |
| GeminiVision.ExtractFenFromImage | src/ocr/gemini_vision.py:41-125 | The model-selection loop and the early exits compute the extraction: None on each failure, else the stripped reply. |
| GeminiVision.Extraction | src/ocr/gemini_vision.py:41-121 | An answer comes only with a key, a configured client, a model that constructs, an image that loads and a reply from that model. |
| GeminiVision.ExtractionEarlyExits | src/ocr/gemini_vision.py:41-88 | None with an empty key, when no model constructs, or with neither image nor path. |
| GeminiVision.ArrayBeforePathAndReplyReturned | src/ocr/gemini_vision.py:81-121 | With an image array the path is irrelevant. The stripped reply is returned even without '/'. |
| GeminiVision.ExtractFenWithRetry | src/ocr/gemini_vision.py:140-147 | The retry loop returns the retry outcome, including how many calls it made. |
| GeminiVision.RetryKeepsLastAnswer | src/ocr/gemini_vision.py:140-147 | The answer kept is the extraction of the last call made. None after any calls means all `max_retries` calls were made. |
| GeminiVision.RetryKeepsFirstQualifying | src/ocr/gemini_vision.py:140-147 | Every call before the one whose answer is kept failed to qualify, and when nothing is kept every call failed to qualify. |
| GeminiVision.Retry | src/ocr/gemini_vision.py:140-147 | At most `max_retries` calls, at least one when it is positive, and none when it is 0 or less. An answer kept is non-empty and contains '/'. |
| DesktopCapture.PadBox | src/desktop_capture.py:144-148 | The padded origin is never negative, the padded box never passes the right or bottom edge, and it starts no later than the box. |
| DesktopCapture.PadBoxInside | src/desktop_capture.py:144-148 | The padded origin is max(0, x - pad), and the padded box lies inside the image. It covers the original box when the image leaves room. |
| DesktopCapture.DetectBoardBbox | src/desktop_capture.py:125-166 | A box exactly when the grid or the contour detector passes its size test. The box returned never leaves the image on any side. |
| DesktopCapture.GridBeforeContour | src/desktop_capture.py:137-166 | When the grid box passes the size test it is the result, padded and clamped, whatever the contour detector gives. The contour box is used only otherwise. |
| DesktopCapture.CropWindow | src/desktop_capture.py:174-203 | With a box, the window starts at its origin and fits within its width and height. Without one, the central window lies inside the image. |
| DesktopCapture.FallbackWindowInside | src/desktop_capture.py:183-193 | The central window's origin is never clamped, and the window lies inside the image. |
| DesktopCapture.BoxWindowInside | src/desktop_capture.py:199-203 | With a box, the crop is the min(ww, hh) square at its origin, inside the image. |
| DesktopCapture.CropInsideImage | src/desktop_capture.py:174-203 | Whatever the detectors report, the crop window lies inside the image. |
| RegionSelector.Normalize | src/region_selector.py:88-91 | Width and height are non-negative. |
| RegionSelector.NormalizeSymmetric | src/region_selector.py:85-98 | The region is the same for either drag direction, and left + width = max(x1, x2), top + height = max(y1, y2). |
| RegionSelector.KeyByte | src/region_selector.py:70 | The masked key code is in 0..255. |
| RegionSelector.Selector.constructor | src/region_selector.py:29-30 | No corners are recorded and no drag is in progress. |
| RegionSelector.OnMouse | src/region_selector.py:32-49 | The callback raises exactly on a release with no corner recorded. A press starts a drag at the point. A release appends the point, keeping the corners before it, and ends the drag. Other events change nothing. |
| RegionSelector.Run | src/region_selector.py:68-98 | The loop ends with a region only on an ENTER key, and the region's sides are non-negative. It is cancelled only on an ESC key. |
| RegionSelector.Selector.ClickAndCrop | src/region_selector.py:32-49 | A press replaces the corners with the point and starts a drag. A move changes nothing. A release appends the point, ends the drag, and raises when there was no corner before. |
| RegionSelector.SelectRegion | src/region_selector.py:68-104 | The key loop feeds events to the callback and ends on ENTER with two corners, or on ESC. An exception in the callback does not stop it. |
| RegionSelector.EscapeCancels | src/region_selector.py:77-79 | ESC cancels at any time, whatever the bits above the low byte. |
| RegionSelector.EnterNeedsTwoCorners | src/region_selector.py:73-74 | ENTER without exactly two corners is ignored. |
| RegionSelector.ReleaseWithoutPressRaises | src/region_selector.py:46-49 | A release with no press before it records its point as the only corner and raises when the second corner is drawn. The loop carries on, and a later drag then ENTER still selects its region. |
| RegionSelector.MoveChangesNothing | src/region_selector.py:41-43 | A mouse move never changes the corners or the drag flag. |
| RegionSelector.MovesKeepDrag | src/region_selector.py:41-43 | Any number of moves leaves the selection as it was. |
| RegionSelector.DragThenEnter | src/region_selector.py:36-98 | Press, any moves, release, ENTER gives the normalised region of the press and release points. |
| RegionSelector.CaptureRegion | src/region_selector.py:125-129 | An explicit region beats the saved one. With both absent the result is ValueError. |

## Left out

- Pixels, OpenCV and PIL are not modelled: Hough and contour detection, drawing and windows,
  screen grabs, image slicing and saving, and `overlay.py`.
- Float arithmetic is not modelled: the padding `int(0.02 * max(ww, hh))`, the 15% size tests
  and the search area `int(w * 0.7)` by `int(h * 0.8)` are given integers or flags. In the
  detector's `_guess_square_from_bbox`, only the clamp is modelled.
- Confidences (`confidence_from_squares`, the detectors' `min(...)`) are not modelled.
- The YOLO and Lichess detection loops and `_normalize_bbox` are not modelled.
- Process handling is not modelled: spawning, `flush`, `wait`, `poll` and `kill` in the
  `finally` block. In the CLI client a failed `quit` is swallowed, so it is modelled only as "not written".
- Wall-clock timers are modelled only as a number of clock checks.
- UciClient.WaitForUciok and UciClient.ReadBestmove: every read returns in the model. In the source
  `readline()` blocks, and the 2 s and 5 s guards are tested only between reads, so a live engine
  that prints nothing hangs the call. The model does not capture that hang.
- `_try_python_stockfish` is not modelled: it wraps a library that is not part of this model.
- python-chess internals (`popen_uci`, `play`, `analyse`, `board.san`, `score.pov`, FEN parsing
  in `chess.Board`) are oracles. `chess.square_name` and `SQUARE_NAMES.index` are modelled from
  their documented behaviour.
- From the Gemini client: the prompt text, `list_available_models`, logging and the network call
  are not modelled; the reply is an oracle.
- The `print` and log calls everywhere are not modelled.
- JSON save and load of the region file are not modelled: the saved region is an optional
  value, and `select_region` does not model the save.
- The websocket loop, HTTP routes, app wiring, the frontend, the Kivy UI, hotkeys and settings
  modules are not modelled.
- EngineSession.StockfishEngine.GetBestMove: the `RuntimeError` branch is not modelled. After
  `start()` an engine is always held, or `start()` has raised already. The model's `Start`
  ensures this.
- EngineSession.StockfishEngine: the board is kept as the FEN string it was set from, not as a
  python-chess board.
- EngineSession.TimeLimitDefaultUnreachable: seconds are a Dafny `real`, not a Python float.
- RegionSelector.SelectRegion: an exception raised inside the mouse callback is printed by
  OpenCV's Python binding and the loop goes on, which is what the model does. The printing is not
  modelled.
- RegionSelector.Selector.ClickAndCrop: the mouse-move redraw and the `clone` image are not
  modelled; only the recorded corners and the drag flag are.
- UciClient: a stream element "" is end of file, as is the end of the sequence. The loops stop at
  it without consuming it, and `UciClient.EndOfFileIsFinal` proves that nothing after it is read.
- UciClient.GetBestMoveForFen: the depth is an unbounded integer, and its decimal text is
  `IntToString`. The default depth is `UciClient.DefaultDepth` (10), which every caller in the
  program relies on. The module docstring announces `depth=15` and a result that may be None; the
  code defaults to 10 and always returns a string, and the model follows the code.
- FenValidator.ValidateFen: the argument is a string, as the function's `str` annotation says, so
  the `None` that its docstring also rejects is not modelled.
- Fen.Target: only the ASCII digits 0-9 are read as a rank. Python's `int()` also accepts other
  Unicode decimal digits (`int('٣') == 3`), so a square such as "e٣" lands on the board in the
  source and is a ValueError in the model.
- Text: whitespace is ASCII whitespace, as `str.split()` and `str.strip()` treat it on these
  inputs. No Unicode whitespace or case folding beyond ASCII is modelled.
