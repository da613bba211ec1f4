/** The string logic of detector.py: the class-name-to-letter table the detectors
    use, the square-name table of python-chess, the clamp that turns a box
    position into a square, `fen_from_detections` (a second FEN encoder that
    indexes squares through the name table) and the choice of detector
    backend. */
module Detector {
  import opened Wrappers
  import opened Text
  import opened Fen

  // ---------------------------------------------------------------------------
  // `PieceMap`

  /** Detector class names to FEN piece letters. */
  const PieceMap: map<string, string> := map[
    "white_pawn" := "P", "white_rook" := "R", "white_knight" := "N",
    "white_bishop" := "B", "white_queen" := "Q", "white_king" := "K",
    "black_pawn" := "p", "black_rook" := "r", "black_knight" := "n",
    "black_bishop" := "b", "black_queen" := "q", "black_king" := "k"]

  /** `PieceMap.get(className, '')`: the letter of a known class name, "" otherwise. */
  function PieceLetter(className: string): (r: string)
    ensures r != "" <==> className in PieceMap
    ensures |r| <= 1
  {
    if className in PieceMap then PieceMap[className] else ""
  }

  /** The white class name has an upper-case letter and the black one the same
      letter in lower case. */
  predicate SameKind(white: string, black: string)
  {
    |PieceLetter(white)| == 1 && 'A' <= PieceLetter(white)[0] <= 'Z' &&
    PieceLetter(black) == [LowerChar(PieceLetter(white)[0])]
  }

  /** The table pairs the six white names with the six black names of the same
      kind, and has no other entries. */
  lemma PieceMapColours()
    ensures SameKind("white_pawn", "black_pawn") && SameKind("white_rook", "black_rook")
    ensures SameKind("white_knight", "black_knight") && SameKind("white_bishop", "black_bishop")
    ensures SameKind("white_queen", "black_queen") && SameKind("white_king", "black_king")
    ensures |PieceMap| == 12
  {
    WhiteLetters();
    BlackLetters();
  }

  lemma WhiteLetters()
    ensures PieceLetter("white_pawn") == "P" && PieceLetter("white_rook") == "R"
    ensures PieceLetter("white_knight") == "N" && PieceLetter("white_bishop") == "B"
    ensures PieceLetter("white_queen") == "Q" && PieceLetter("white_king") == "K"
  {
  }

  lemma BlackLetters()
    ensures PieceLetter("black_pawn") == "p" && PieceLetter("black_rook") == "r"
    ensures PieceLetter("black_knight") == "n" && PieceLetter("black_bishop") == "b"
    ensures PieceLetter("black_queen") == "q" && PieceLetter("black_king") == "k"
  {
  }

  /** Every letter the table produces is a cell the FEN encoder accepts, and
      no two class names share a letter. */
  lemma PieceLetterCells(className: string, other: string)
    ensures PieceLetter(className) == "" || PieceCell(PieceLetter(className))
    ensures PieceLetter(className) != "" && PieceLetter(className) == PieceLetter(other) ==> className == other
  {
  }

  // ---------------------------------------------------------------------------
  // Square names

  /** `chess.square_name(i)`: file letter then rank digit, square 0 is a1 and
      square 63 is h8. */
  function SquareName(i: nat): (s: string)
    requires i < 64
    ensures |s| == 2 && 'a' <= s[0] <= 'h' && '1' <= s[1] <= '8'
  {
    [('a' as int + i % 8) as char, ('1' as int + i / 8) as char]
  }

  /** `chess.SQUARE_NAMES.index(s)`, with None where Python raises ValueError. */
  function SquareIndex(s: string): (r: Option<nat>)
    ensures r.Some? ==> r.value < 64 && SquareName(r.value) == s
    ensures r.None? ==> forall i :: 0 <= i < 64 ==> SquareName(i) != s
  {
    if |s| == 2 && 'a' <= s[0] <= 'h' && '1' <= s[1] <= '8' then
      Some((s[1] as int - '1' as int) * 8 + (s[0] as int - 'a' as int))
    else None
  }

  /** A name python-chess produced is found again at its own index. */
  lemma SquareIndexOfName(i: nat)
    requires i < 64
    ensures SquareIndex(SquareName(i)) == Some(i)
  {
  }

  // ---------------------------------------------------------------------------
  // `_guess_square_from_bbox`, integer part

  /** `max(0, min(7, v))`. */
  function Clamp(v: int): (r: nat)
    ensures r <= 7
    ensures 0 <= v <= 7 ==> r == v
    ensures v < 0 ==> r == 0
    ensures v > 7 ==> r == 7
  {
    if v < 0 then 0 else if v > 7 then 7 else v
  }

  /** The square a box falls in, given `col = int(cx * 8 / width)` and
      `rowFromTop = int(cy * 8 / height)`: the row counts from the bottom, both
      coordinates are clamped into the board and the index is `row * 8 + col`. */
  function GuessSquare(col: int, rowFromTop: int): (r: string)
    ensures |r| == 2 && 'a' <= r[0] <= 'h' && '1' <= r[1] <= '8'
    ensures 0 <= col < 8 ==> r[0] as int == 'a' as int + col
    ensures rowFromTop >= 7 ==> r[1] == '1'
    ensures rowFromTop <= 0 ==> r[1] == '8'
  {
    SquareName(Clamp(7 - rowFromTop) * 8 + Clamp(col))
  }

  /** Whatever the box, the guess is one of the 64 names; a box inside the
      board gets the file of its column and the rank counted from the bottom. */
  lemma GuessSquareIsName(col: int, rowFromTop: int)
    ensures SquareIndex(GuessSquare(col, rowFromTop)) == Some(Clamp(7 - rowFromTop) * 8 + Clamp(col))
    ensures 0 <= col < 8 && 0 <= rowFromTop < 8 ==>
              GuessSquare(col, rowFromTop)[0] as int == 'a' as int + col &&
              GuessSquare(col, rowFromTop)[1] as int == '8' as int - rowFromTop
  {
    SquareIndexOfName(Clamp(7 - rowFromTop) * 8 + Clamp(col));
  }

  // ---------------------------------------------------------------------------
  // `fen_from_detections`

  /** `det.piece or ''`. */
  function CellOf(piece: Option<string>): string
  {
    if Blank(piece) then "" else piece.value
  }

  /** Detection `d` is indexed at square `i` of the name table. */
  predicate Names(d: SquareDetection, i: nat)
  {
    SquareIndex(d.square) == Some(i)
  }

  /** One step of the first loop: square `i` goes to `board[7 - i / 8][i % 8]`,
      an unknown name is skipped. */
  function Put(board: Matrix, d: SquareDetection): (r: Matrix)
    requires Is8x8(board)
    ensures Is8x8(r)
  {
    match SquareIndex(d.square)
    case None => board
    case Some(i) => board[7 - i / 8 := board[7 - i / 8][i % 8 := CellOf(d.piece)]]
  }

  /** The board the detections fill in, in order. */
  function BoardOf(squares: seq<SquareDetection>): (r: Matrix)
    ensures Is8x8(r)
    decreases |squares|
  {
    if squares == [] then EmptyMatrix
    else Put(BoardOf(squares[..|squares| - 1]), squares[|squares| - 1])
  }

  /** The first loop of `fen_from_detections`: each detection whose name is
      in the table writes its cell, in order. */
  method FillBoard(squares: seq<SquareDetection>) returns (board: Matrix)
    ensures board == BoardOf(squares)
  {
    board := EmptyMatrix;
    for i := 0 to |squares|
      invariant board == BoardOf(squares[..i])
    {
      assert squares[..i + 1][..i] == squares[..i];
      var det := squares[i];
      var index := SquareIndex(det.square);
      if index.None? {
        continue;
      }
      var row := index.value / 8;
      var col := index.value % 8;
      board := board[7 - row := board[7 - row][col := CellOf(det.piece)]];
      assert board == Put(BoardOf(squares[..i]), squares[i]);
    }
    assert squares[..|squares|] == squares;
  }

  /** The body of the second loop of `fen_from_detections`: one row encoded by
      appending to a string, `row_fen or '8'`. */
  method EncodeRow(row: seq<string>) returns (group: string)
    ensures group == EncodeRank(row)
  {
    var count := 0;
    var rowFen := "";
    for j := 0 to |row|
      invariant rowFen + EncodeRun(row[j..], count) == EncodeRun(row, 0)
    {
      var cell := row[j];
      EncodeRunStep(row, j, count);
      if cell == "" {
        count := count + 1;
        continue;
      }
      if count != 0 {
        AppendAssoc(rowFen, NatToString(count), cell + EncodeRun(row[j + 1..], 0));
        rowFen := rowFen + NatToString(count);
        count := 0;
      }
      AppendAssoc(rowFen, cell, EncodeRun(row[j + 1..], 0));
      rowFen := rowFen + cell;
    }
    if count != 0 {
      rowFen := rowFen + NatToString(count);
    }
    assert row[|row|..] == [];
    group := if rowFen == "" then "8" else rowFen;
  }

  /** `fen_from_detections` (detector.py): fill the board, encode each row,
      join the groups with '/' and append the fixed fields. */
  method FenFromDetections(squares: seq<SquareDetection>) returns (fen: string)
    ensures fen == EncodeFen(BoardOf(squares), "w", "KQkq", "-", 0, 1)
  {
    var board := FillBoard(squares);
    var fenRows: seq<string> := [];
    for k := 0 to 8
      invariant fenRows == RankGroups(board[..k])
    {
      var group := EncodeRow(board[k]);
      fenRows := fenRows + [group];
      RankGroupsSnoc(board, k);
    }
    assert board[..8] == board;
    DefaultSuffix();
    fen := Join(fenRows, '/') + " w KQkq - 0 1";
  }

  /** Different squares have different cells. */
  lemma SquareCellsDistinct(x: nat, i: nat)
    requires x < 64 && i < 64 && x != i
    ensures x / 8 != i / 8 || x % 8 != i % 8
  {
    assert x == 8 * (x / 8) + x % 8 && i == 8 * (i / 8) + i % 8;
  }

  /** Square `i` holds the cell of the LAST detection named after it, and stays
      empty when no detection names it; a detection with no piece empties it. */
  lemma {:induction false} LastDetectionWins(squares: seq<SquareDetection>, i: nat)
    requires i < 64
    ensures forall j :: 0 <= j < |squares| && Names(squares[j], i) &&
                        (forall k :: j < k < |squares| ==> !Names(squares[k], i))
                        ==> BoardOf(squares)[7 - i / 8][i % 8] == CellOf(squares[j].piece)
    ensures (forall j :: 0 <= j < |squares| ==> !Names(squares[j], i))
            ==> BoardOf(squares)[7 - i / 8][i % 8] == ""
    decreases |squares|
  {
    if squares != [] {
      var n := |squares|;
      var prefix := squares[..n - 1];
      var last := squares[n - 1];
      LastDetectionWins(prefix, i);
      PutCell(BoardOf(prefix), last, i);
      var cell := BoardOf(squares)[7 - i / 8][i % 8];
      forall j | 0 <= j < n && Names(squares[j], i) && (forall k :: j < k < n ==> !Names(squares[k], i))
        ensures cell == CellOf(squares[j].piece)
      {
        if j < n - 1 {
          assert !Names(last, i);
          assert prefix[j] == squares[j];
          assert forall k :: j < k < n - 1 ==> prefix[k] == squares[k];
        }
      }
      if forall j :: 0 <= j < n ==> !Names(squares[j], i) {
        assert !Names(last, i);
        assert forall j :: 0 <= j < n - 1 ==> prefix[j] == squares[j];
      }
    }
  }

  /** What `Put` does to the cell of square `i`. */
  lemma PutCell(board: Matrix, d: SquareDetection, i: nat)
    requires Is8x8(board) && i < 64
    ensures Put(board, d)[7 - i / 8][i % 8] ==
            if Names(d, i) then CellOf(d.piece) else board[7 - i / 8][i % 8]
  {
    match SquareIndex(d.square)
    case None =>
    case Some(x) =>
      if x != i {
        SquareCellsDistinct(x, i);
      }
  }

  /** Where both encoders accept the detections (every name valid, every piece
      present) they build the same board, so they produce the same FEN apart
      from the starting-position substitution of fen.py. */
  lemma {:induction false} AgreesWithMatrixOf(squares: seq<SquareDetection>)
    requires forall j :: 0 <= j < |squares| ==>
               SquareIndex(squares[j].square).Some? && !Blank(squares[j].piece)
    ensures MatrixOf(squares) == Ok(BoardOf(squares))
    decreases |squares|
  {
    if squares != [] {
      var prefix := squares[..|squares| - 1];
      var last := squares[|squares| - 1];
      AgreesWithMatrixOf(prefix);
      var i := SquareIndex(last.square).value;
      assert last.square[1] as int - '0' as int == i / 8 + 1;
      assert Target(last.square) == Ok(Some((7 - i / 8, i % 8)));
    }
  }

  /** A board filled only through `PieceLetter` (or with no piece) is one the
      FEN encoder handles: each rank group describes exactly eight cells, no
      two digits touch, and decoding the FEN gives the board back. */
  lemma {:induction false} DetectionsWellFormed(squares: seq<SquareDetection>)
    requires forall j :: 0 <= j < |squares| ==>
               Blank(squares[j].piece) || PieceCell(squares[j].piece.value)
    ensures WellFormedMatrix(BoardOf(squares))
    ensures forall r :: 0 <= r < 8 ==>
              RankWidth(RankGroups(BoardOf(squares))[r]) == 8 &&
              NoAdjacentDigits(RankGroups(BoardOf(squares))[r])
    ensures DecodePlacement(EncodeFen(BoardOf(squares), "w", "KQkq", "-", 0, 1)) == BoardOf(squares)
    decreases |squares|
  {
    if squares != [] {
      DetectionsWellFormed(squares[..|squares| - 1]);
    }
    var m := BoardOf(squares);
    assert WellFormedMatrix(m);
    forall r | 0 <= r < 8
      ensures RankWidth(RankGroups(m)[r]) == 8 && NoAdjacentDigits(RankGroups(m)[r])
    {
      RankGroupInvariant(m[r]);
    }
    FenRoundTrip(m, "w", "KQkq", "-", 0, 1);
  }

  /** Detections that name no square, or carry no piece, leave the board empty. */
  lemma {:induction false} NothingPlaced(squares: seq<SquareDetection>)
    requires forall j :: 0 <= j < |squares| ==>
               SquareIndex(squares[j].square).None? || Blank(squares[j].piece)
    ensures BoardOf(squares) == EmptyMatrix
    decreases |squares|
  {
    if squares != [] {
      var prefix := squares[..|squares| - 1];
      var last := squares[|squares| - 1];
      assert forall j :: 0 <= j < |prefix| ==> prefix[j] == squares[j];
      NothingPlaced(prefix);
      assert BoardOf(squares) == Put(EmptyMatrix, last);
      if SquareIndex(last.square).Some? {
        var i := SquareIndex(last.square).value;
        assert CellOf(last.piece) == "";
        assert EmptyMatrix[7 - i / 8][i % 8 := ""] == EmptyRow;
        assert EmptyMatrix[7 - i / 8 := EmptyRow] == EmptyMatrix;
      }
    }
  }

  /** Unlike fen.py, an empty board is not replaced by the starting position:
      detections that put nothing anywhere give eight '8' groups. */
  lemma EmptyBoardNotStartingFen(squares: seq<SquareDetection>)
    requires forall j :: 0 <= j < |squares| ==>
               SquareIndex(squares[j].square).None? || Blank(squares[j].piece)
    ensures EncodeFen(BoardOf(squares), "w", "KQkq", "-", 0, 1) == "8/8/8/8/8/8/8/8 w KQkq - 0 1"
    ensures EncodeFen(BoardOf(squares), "w", "KQkq", "-", 0, 1) != StartingFen
  {
    NothingPlaced(squares);
    EmptyMatrixFen();
    assert StartingFen != "8/8/8/8/8/8/8/8 w KQkq - 0 1";
  }

  // ---------------------------------------------------------------------------
  // `DetectorFactory.create`

  datatype Backend = Yolo | Lichess

  /** The backend name compared without regard to case: y, o, l, o. */
  predicate IsYoloName(s: string)
  {
    |s| == 4 && (s[0] == 'y' || s[0] == 'Y') && (s[1] == 'o' || s[1] == 'O') &&
    (s[2] == 'l' || s[2] == 'L') && (s[3] == 'o' || s[3] == 'O')
  }

  /** `(override or settings.detection_backend).lower() == 'yolo'`: a
      non-empty override is used, otherwise the configured backend. */
  function Create(overrideBackend: Option<string>, settingsBackend: string): (b: Backend)
    ensures overrideBackend.Some? && overrideBackend.value != "" ==>
              (b == Yolo <==> IsYoloName(overrideBackend.value))
    ensures overrideBackend.None? || overrideBackend.value == "" ==>
              (b == Yolo <==> IsYoloName(settingsBackend))
  {
    var chosen := if overrideBackend.Some? && overrideBackend.value != "" then overrideBackend.value
                  else settingsBackend;
    assert Lower(chosen) == "yolo" <==> IsYoloName(chosen) by {
      if IsYoloName(chosen) {
        assert Lower(chosen) == "yolo";
      }
      if Lower(chosen) == "yolo" {
        assert LowerChar(chosen[0]) == 'y' && LowerChar(chosen[1]) == 'o';
        assert LowerChar(chosen[2]) == 'l' && LowerChar(chosen[3]) == 'o';
      }
    }
    if Lower(chosen) == "yolo" then Yolo else Lichess
  }

  /** A non-empty override decides alone, whatever the settings say. */
  lemma OverrideBeatsSettings(name: string, settingsA: string, settingsB: string)
    requires name != ""
    ensures Create(Some(name), settingsA) == Create(Some(name), settingsB)
    ensures Create(Some("YOLO"), settingsA) == Yolo
    ensures Create(Some("lichess"), "yolo") == Lichess
    ensures Create(None, "Yolo") == Yolo && Create(Some(""), "yolo") == Yolo
  {
  }
}
