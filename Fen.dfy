/** The piece-placement part of Forsyth-Edwards Notation (section 16.1.3.1 of
    the PGN Standard) as the backend of chess-vision-fast builds it: square
    detections are written into an 8x8 matrix of cells (row 0 is rank 8,
    column 0 is file a), and each row is run-length encoded with digits
    standing for runs of empty cells. */
module Fen {
  import opened Wrappers
  import opened Text

  /** One square read off the board image: its name ("e2") and the piece
      letter found there, if any. Declared in detector.py next to the
      detectors; its bounding box and confidence are floats and not modelled. */
  datatype SquareDetection = SquareDetection(square: string, piece: Option<string>)

  /** A board as a list of rows of cells; "" is an empty cell. */
  type Matrix = seq<seq<string>>

  /** What Python raises on a malformed square name. */
  datatype SquareError = IndexError | ValueError

  const StartingFen: string := "rnbqkbnr/pppppppp/8/8/8/8/PPPPPPPP/RNBQKBNR w KQkq - 0 1"

  const EmptyRow: seq<string> := ["", "", "", "", "", "", "", ""]

  const EmptyMatrix: Matrix :=
    [EmptyRow, EmptyRow, EmptyRow, EmptyRow, EmptyRow, EmptyRow, EmptyRow, EmptyRow]

  predicate Is8x8(m: Matrix)
  {
    |m| == 8 && forall r :: 0 <= r < 8 ==> |m[r]| == 8
  }

  /** Python's `not detection.piece`: None and "" are both falsy. */
  predicate Blank(piece: Option<string>)
  {
    piece.None? || piece.value == ""
  }

  /** Where a square name lands in the matrix: `int(square[1])` gives the rank,
      `8 - rank` the row and `ord(square[0]) - ord('a')` the column; a square
      off the 8x8 grid lands nowhere. */
  function Target(square: string): (t: Result<Option<(int, int)>, SquareError>)
    ensures t == Err(IndexError) <==> |square| < 2
    ensures t == Err(ValueError) <==> |square| >= 2 && !IsDigit(square[1])
    ensures t.Ok? && t.value.Some? ==>
              0 <= t.value.value.0 < 8 && 0 <= t.value.value.1 < 8 &&
              square[0] as int == 'a' as int + t.value.value.1 &&
              square[1] as int == '8' as int - t.value.value.0
    ensures t.Ok? && t.value.None? ==> !('a' <= square[0] <= 'h' && '1' <= square[1] <= '8')
  {
    if |square| < 2 then Err(IndexError)
    else if !IsDigit(square[1]) then Err(ValueError)
    else
      var rank := DigitValue(square[1]);
      var row := 8 - rank;
      var col := square[0] as int - 'a' as int;
      if 0 <= row < 8 && 0 <= col < 8 then Ok(Some((row, col))) else Ok(None)
  }

  /** Detection `d` writes its piece at (row, col). */
  predicate Writes(d: SquareDetection, row: int, col: int)
  {
    !Blank(d.piece) && Target(d.square) == Ok(Some((row, col)))
  }

  /** Detection `d` writes its piece somewhere on the board. */
  predicate Lands(d: SquareDetection)
  {
    !Blank(d.piece) && Target(d.square).Ok? && Target(d.square).value.Some?
  }

  /** Detection `d` makes `build_matrix_from_squares` raise. */
  predicate Malformed(d: SquareDetection)
  {
    !Blank(d.piece) && Target(d.square).Err?
  }

  /** The effect of one loop iteration of `build_matrix_from_squares`. */
  function Place(m: Matrix, d: SquareDetection): (r: Result<Matrix, SquareError>)
    requires Is8x8(m)
    ensures r.Ok? ==> Is8x8(r.value)
  {
    if Blank(d.piece) then Ok(m)
    else
      match Target(d.square)
      case Err(e) => Err(e)
      case Ok(None) => Ok(m)
      case Ok(Some(rc)) => Ok(m[rc.0 := m[rc.0][rc.1 := d.piece.value]])
  }

  /** The matrix that the detections build, or the error raised on the way. */
  function MatrixOf(squares: seq<SquareDetection>): (r: Result<Matrix, SquareError>)
    ensures r.Ok? ==> Is8x8(r.value)
    decreases |squares|
  {
    if squares == [] then Ok(EmptyMatrix)
    else if MatrixOf(squares[..|squares| - 1]).Err? then MatrixOf(squares[..|squares| - 1])
    else Place(MatrixOf(squares[..|squares| - 1]).value, squares[|squares| - 1])
  }

  lemma {:induction false} ErrorPersists(squares: seq<SquareDetection>, i: nat)
    requires i <= |squares|
    requires MatrixOf(squares[..i]).Err?
    ensures MatrixOf(squares) == MatrixOf(squares[..i])
    decreases |squares| - i
  {
    if i < |squares| {
      assert squares[..i + 1][..i] == squares[..i];
      ErrorPersists(squares, i + 1);
    } else {
      assert squares[..i] == squares;
    }
  }

  /** `build_matrix_from_squares` (fen.py): fills an 8x8 matrix cell by cell. */
  method BuildMatrixFromSquares(squares: seq<SquareDetection>) returns (r: Result<Matrix, SquareError>)
    ensures r == MatrixOf(squares)
  {
    var empty := EmptyMatrix;
    for i := 0 to |squares|
      invariant MatrixOf(squares[..i]) == Ok(empty)
    {
      assert squares[..i + 1][..i] == squares[..i];
      var detection := squares[i];
      if Blank(detection.piece) {
        continue;
      }
      if |detection.square| < 2 {
        ErrorPersists(squares, i + 1);
        return Err(IndexError);
      }
      if !IsDigit(detection.square[1]) {
        ErrorPersists(squares, i + 1);
        return Err(ValueError);
      }
      var rank: int := DigitValue(detection.square[1]);
      var file := detection.square[0];
      var row := 8 - rank;
      var col := file as int - 'a' as int;
      if 0 <= row < 8 && 0 <= col < 8 {
        empty := empty[row := empty[row][col := detection.piece.value]];
      }
    }
    assert squares[..|squares|] == squares;
    return Ok(empty);
  }

  /** Every cell holds the piece of the LAST detection that writes it, and a
      cell nobody writes stays empty. Blank pieces and off-board squares never
      touch the matrix. */
  lemma {:induction false} LastWriterWins(squares: seq<SquareDetection>, row: int, col: int)
    requires MatrixOf(squares).Ok? && 0 <= row < 8 && 0 <= col < 8
    ensures forall j :: 0 <= j < |squares| && Writes(squares[j], row, col) &&
                        (forall k :: j < k < |squares| ==> !Writes(squares[k], row, col))
                        ==> MatrixOf(squares).value[row][col] == squares[j].piece.value
    ensures (forall j :: 0 <= j < |squares| ==> !Writes(squares[j], row, col))
            ==> MatrixOf(squares).value[row][col] == ""
    decreases |squares|
  {
    var n := |squares|;
    if n > 0 {
      var prefix := squares[..n - 1];
      var last := squares[n - 1];
      assert MatrixOf(prefix).Ok?;
      LastWriterWins(prefix, row, col);
      var before := MatrixOf(prefix).value;
      assert MatrixOf(squares) == Place(before, last);
      PlaceCell(before, last, row, col);
      var cell := MatrixOf(squares).value[row][col];
      forall j | 0 <= j < n && Writes(squares[j], row, col) &&
                 (forall k :: j < k < n ==> !Writes(squares[k], row, col))
        ensures cell == squares[j].piece.value
      {
        if j < n - 1 {
          assert !Writes(last, row, col);
          assert prefix[j] == squares[j];
          assert forall k :: j < k < n - 1 ==> prefix[k] == squares[k];
        }
      }
      if forall j :: 0 <= j < n ==> !Writes(squares[j], row, col) {
        assert !Writes(last, row, col);
        assert forall j :: 0 <= j < n - 1 ==> prefix[j] == squares[j];
      }
    }
  }

  /** What one placement does to cell (row, col). */
  lemma PlaceCell(m: Matrix, d: SquareDetection, row: int, col: int)
    requires Is8x8(m) && Place(m, d).Ok? && 0 <= row < 8 && 0 <= col < 8
    ensures Place(m, d).value[row][col] == if Writes(d, row, col) then d.piece.value else m[row][col]
  {
  }

  /** `build_matrix_from_squares` raises exactly when some detection with a
      piece has a malformed square name, and it raises what the first such
      detection raises. */
  lemma {:induction false} FirstMalformedRaises(squares: seq<SquareDetection>)
    ensures MatrixOf(squares).Err? <==> exists j :: 0 <= j < |squares| && Malformed(squares[j])
    ensures MatrixOf(squares).Err? ==>
              exists j :: 0 <= j < |squares| && Malformed(squares[j]) &&
                          (forall k :: 0 <= k < j ==> !Malformed(squares[k])) &&
                          MatrixOf(squares).error == Target(squares[j].square).error
    decreases |squares|
  {
    var n := |squares|;
    if n > 0 {
      var prefix := squares[..n - 1];
      var last := squares[n - 1];
      assert forall j :: 0 <= j < n - 1 ==> prefix[j] == squares[j];
      FirstMalformedRaises(prefix);
      if MatrixOf(prefix).Err? {
        assert MatrixOf(squares) == MatrixOf(prefix);
        var j :| 0 <= j < |prefix| && Malformed(prefix[j]) &&
                 (forall k :: 0 <= k < j ==> !Malformed(prefix[k])) &&
                 MatrixOf(prefix).error == Target(prefix[j].square).error;
        assert Malformed(squares[j]);
      } else {
        assert MatrixOf(squares) == Place(MatrixOf(prefix).value, last);
        assert forall k :: 0 <= k < n - 1 ==> !Malformed(squares[k]);
        if Malformed(last) {
          assert MatrixOf(squares).error == Target(last.square).error;
        } else {
          assert MatrixOf(squares).Ok?;
        }
      }
    }
  }

  /** A cell that some detection writes ends up non-empty (later writers may
      change the piece, never empty the cell). */
  lemma {:induction false} LandedCellFilled(squares: seq<SquareDetection>, j: nat)
    requires MatrixOf(squares).Ok? && j < |squares| && Lands(squares[j])
    ensures MatrixOf(squares).value[Target(squares[j].square).value.value.0]
                                   [Target(squares[j].square).value.value.1] != ""
    decreases |squares|
  {
    var n := |squares|;
    if j < n - 1 {
      var prefix := squares[..n - 1];
      assert prefix[j] == squares[j];
      LandedCellFilled(prefix, j);
    }
  }

  /** Python's `all(all(cell == '' for cell in row) for row in matrix)`. */
  predicate AllEmpty(m: Matrix)
  {
    forall r, c :: 0 <= r < |m| && 0 <= c < |m[r]| ==> m[r][c] == ""
  }

  /** The matrix is all empty exactly when no detection lands on the board. */
  lemma EmptyIffNothingLands(squares: seq<SquareDetection>)
    requires MatrixOf(squares).Ok?
    ensures AllEmpty(MatrixOf(squares).value) <==> forall j :: 0 <= j < |squares| ==> !Lands(squares[j])
  {
    var m := MatrixOf(squares).value;
    if forall j :: 0 <= j < |squares| ==> !Lands(squares[j]) {
      forall r, c | 0 <= r < |m| && 0 <= c < |m[r]| ensures m[r][c] == "" {
        LastWriterWins(squares, r, c);
      }
    } else {
      var j :| 0 <= j < |squares| && Lands(squares[j]);
      LandedCellFilled(squares, j);
    }
  }

  // ---------------------------------------------------------------------------
  // Run-length encoding of a row (`matrix_to_fen`)

  /** The digit string flushed for `empties` pending empty cells. */
  function RunDigits(empties: nat): string
  {
    if empties == 0 then "" else NatToString(empties)
  }

  /** The encoding of `row` when `empties` empty cells are already pending. */
  function EncodeRun(row: seq<string>, empties: nat): string
    decreases |row|
  {
    if row == [] then RunDigits(empties)
    else if row[0] == "" then EncodeRun(row[1..], empties + 1)
    else RunDigits(empties) + row[0] + EncodeRun(row[1..], 0)
  }

  /** One rank group: `''.join(row_parts) or '8'`. */
  function EncodeRank(row: seq<string>): string
  {
    var s := EncodeRun(row, 0);
    if s == "" then "8" else s
  }

  function RankGroups(m: Matrix): seq<string>
  {
    seq(|m|, i requires 0 <= i < |m| => EncodeRank(m[i]))
  }

  /** One more row adds its rank group at the end. */
  lemma RankGroupsSnoc(m: Matrix, k: nat)
    requires k < |m|
    ensures RankGroups(m[..k + 1]) == RankGroups(m[..k]) + [EncodeRank(m[k])]
  {
    assert m[..k + 1][..k] == m[..k];
    assert m[..k + 1][k] == m[k];
  }

  /** The piece-placement field: the rank groups joined by '/'. */
  function EncodePlacement(m: Matrix): string
  {
    Join(RankGroups(m), '/')
  }

  /** The five fields after the placement, each preceded by a blank. */
  function Suffix(activeColor: string, castling: string, enPassant: string,
                  halfmoveClock: int, fullmoveNumber: int): string
  {
    " " + activeColor + " " + castling + " " + enPassant + " " +
    IntToString(halfmoveClock) + " " + IntToString(fullmoveNumber)
  }

  function EncodeFen(m: Matrix, activeColor: string, castling: string, enPassant: string,
                     halfmoveClock: int, fullmoveNumber: int): string
  {
    EncodePlacement(m) + Suffix(activeColor, castling, enPassant, halfmoveClock, fullmoveNumber)
  }

  lemma AppendAssoc(a: string, b: string, c: string)
    ensures a + (b + c) == (a + b) + c
  {
  }

  /** One cell of the run-length encoding. */
  lemma EncodeRunStep(row: seq<string>, j: nat, count: nat)
    requires j < |row|
    ensures row[j] == "" ==> EncodeRun(row[j..], count) == EncodeRun(row[j + 1..], count + 1)
    ensures row[j] != "" ==>
              EncodeRun(row[j..], count) == RunDigits(count) + (row[j] + EncodeRun(row[j + 1..], 0))
  {
    assert row[j..][1..] == row[j + 1..];
  }

  /** The inner loop of `matrix_to_fen` (fen.py): one pass over a row,
      counting pending empties and collecting the parts of the rank group in
      a list; the parts put together are the run-length encoding. */
  method RowParts(row: seq<string>) returns (rowParts: seq<string>)
    ensures Concat(rowParts) == EncodeRun(row, 0)
  {
    var empties := 0;
    rowParts := [];
    for j := 0 to |row|
      invariant Concat(rowParts) + EncodeRun(row[j..], empties) == EncodeRun(row, 0)
    {
      var cell := row[j];
      EncodeRunStep(row, j, empties);
      if cell == "" {
        empties := empties + 1;
        continue;
      }
      if empties != 0 {
        ConcatSnoc(rowParts, NatToString(empties));
        AppendAssoc(Concat(rowParts), NatToString(empties), cell + EncodeRun(row[j + 1..], 0));
        rowParts := rowParts + [NatToString(empties)];
        empties := 0;
      }
      ConcatSnoc(rowParts, cell);
      AppendAssoc(Concat(rowParts), cell, EncodeRun(row[j + 1..], 0));
      rowParts := rowParts + [cell];
    }
    if empties != 0 {
      ConcatSnoc(rowParts, NatToString(empties));
      rowParts := rowParts + [NatToString(empties)];
    }
    assert row[|row|..] == [];
  }

  /** `matrix_to_fen` (fen.py): a rank group per row, '8' for an empty one,
      joined by '/' and followed by the other five fields. */
  method MatrixToFen(matrix: Matrix, activeColor: string, castling: string, enPassant: string,
                     halfmoveClock: int, fullmoveNumber: int) returns (fen: string)
    ensures fen == EncodeFen(matrix, activeColor, castling, enPassant, halfmoveClock, fullmoveNumber)
  {
    var rows: seq<string> := [];
    for k := 0 to |matrix|
      invariant rows == RankGroups(matrix[..k])
    {
      var rowParts := RowParts(matrix[k]);
      var joined := Concat(rowParts);
      rows := rows + [if joined == "" then "8" else joined];
      RankGroupsSnoc(matrix, k);
    }
    assert matrix[..|matrix|] == matrix;
    fen := Join(rows, '/') + Suffix(activeColor, castling, enPassant, halfmoveClock, fullmoveNumber);
  }

  // ---------------------------------------------------------------------------
  // Decoding, and the properties of the encoding

  /** A cell a detector can produce: one character that is a piece letter,
      not a digit, a '/' or whitespace. */
  predicate PieceCell(cell: string)
  {
    |cell| == 1 && !IsDigit(cell[0]) && cell[0] != '/' && !IsSpace(cell[0])
  }

  predicate WellFormedRow(row: seq<string>)
  {
    forall i :: 0 <= i < |row| ==> row[i] == "" || PieceCell(row[i])
  }

  predicate WellFormedMatrix(m: Matrix)
  {
    Is8x8(m) && forall r :: 0 <= r < 8 ==> WellFormedRow(m[r])
  }

  function Empties(n: nat): seq<string>
  {
    seq(n, _ => "")
  }

  /** The inverse of a rank group: each digit d stands for d empty cells,
      every other character for a cell holding it. */
  function ExpandRank(group: string): seq<string>
  {
    if group == [] then []
    else (if IsDigit(group[0]) then Empties(DigitValue(group[0])) else [[group[0]]]) + ExpandRank(group[1..])
  }

  /** Reads the board back from a FEN: the first whitespace-separated field,
      split on '/', each group expanded. */
  function DecodePlacement(fen: string): Matrix
  {
    var fields := SplitWhitespace(fen);
    if fields == [] then []
    else
      var groups := Split(fields[0], '/');
      seq(|groups|, i requires 0 <= i < |groups| => ExpandRank(groups[i]))
  }

  /** The width a rank group describes: its digits summed plus its other characters counted. */
  function RankWidth(group: string): nat
  {
    if group == [] then 0
    else (if IsDigit(group[0]) then DigitValue(group[0]) else 1) + RankWidth(group[1..])
  }

  /** No two digits stand next to each other. */
  predicate NoAdjacentDigits(s: string)
  {
    forall i :: 0 <= i < |s| - 1 ==> !(IsDigit(s[i]) && IsDigit(s[i + 1]))
  }

  lemma {:induction false} ExpandAppend(a: string, b: string)
    ensures ExpandRank(a + b) == ExpandRank(a) + ExpandRank(b)
  {
    if a != [] {
      var head := if IsDigit(a[0]) then Empties(DigitValue(a[0])) else [[a[0]]];
      assert (a + b)[0] == a[0];
      assert (a + b)[1..] == a[1..] + b;
      ExpandAppend(a[1..], b);
      calc {
        ExpandRank(a + b);
        head + ExpandRank(a[1..] + b);
        head + (ExpandRank(a[1..]) + ExpandRank(b));
        (head + ExpandRank(a[1..])) + ExpandRank(b);
        ExpandRank(a) + ExpandRank(b);
      }
    } else {
      assert a + b == b;
    }
  }

  lemma ExpandRunDigits(e: nat)
    requires e <= 9
    ensures ExpandRank(RunDigits(e)) == Empties(e)
  {
    if e != 0 {
      SmallNatToString(e);
    }
  }

  lemma {:induction false} ExpandEncodeRun(row: seq<string>, e: nat)
    requires WellFormedRow(row) && e + |row| <= 9
    ensures ExpandRank(EncodeRun(row, e)) == Empties(e) + row
    decreases |row|
  {
    if row == [] {
      ExpandRunDigits(e);
    } else {
      assert WellFormedRow(row[1..]) by {
        forall i | 0 <= i < |row[1..]| ensures row[1..][i] == "" || PieceCell(row[1..][i]) {
          assert row[1..][i] == row[i + 1];
        }
      }
      if row[0] == "" {
        ExpandEncodeRun(row[1..], e + 1);
        EmptiesCons(e, row);
      } else {
        ExpandEncodeRun(row[1..], 0);
        assert EncodeRun(row, e) == RunDigits(e) + row[0] + EncodeRun(row[1..], 0);
        ExpandPieceStep(RunDigits(e), row[0], EncodeRun(row[1..], 0), e);
        assert [row[0]] + row[1..] == row;
      }
    }
  }

  /** The step of `ExpandEncodeRun` at an empty cell: one more pending empty. */
  lemma EmptiesCons(e: nat, row: seq<string>)
    requires row != [] && row[0] == ""
    ensures Empties(e + 1) + row[1..] == Empties(e) + row
  {
    assert Empties(e + 1) == Empties(e) + [""];
    assert [row[0]] + row[1..] == row;
  }

  /** The step of `ExpandEncodeRun` at a cell holding a piece: the pending
      digit, the piece and the rest expand one after the other. */
  lemma ExpandPieceStep(digits: string, cell: string, rest: string, e: nat)
    requires PieceCell(cell) && e <= 9 && digits == RunDigits(e)
    ensures ExpandRank(digits + cell + rest) == Empties(e) + [cell] + ExpandRank(rest)
  {
    ExpandAppend(digits + cell, rest);
    ExpandHead(digits, cell, e);
  }

  lemma ExpandHead(digits: string, cell: string, e: nat)
    requires PieceCell(cell) && e <= 9 && digits == RunDigits(e)
    ensures ExpandRank(digits + cell) == Empties(e) + [cell]
  {
    ExpandRunDigits(e);
    ExpandAppend(digits, cell);
    ExpandPieceCell(cell);
  }

  lemma ExpandPieceCell(cell: string)
    requires PieceCell(cell)
    ensures ExpandRank(cell) == [cell]
  {
    assert cell[1..] == [];
    assert cell == [cell[0]];
  }

  /** Expanding the group of a non-empty row of at most nine well-formed cells
      gives the row back. */
  lemma RankRoundTrip(row: seq<string>)
    requires WellFormedRow(row) && 1 <= |row| <= 9
    ensures ExpandRank(EncodeRank(row)) == row
  {
    ExpandEncodeRun(row, 0);
    assert Empties(0) + row == row;
  }

  lemma {:induction false} RankWidthIsExpandedLength(group: string)
    ensures RankWidth(group) == |ExpandRank(group)|
  {
    if group != [] {
      RankWidthIsExpandedLength(group[1..]);
    }
  }

  lemma {:induction false} NoAdjacentDigitsAppend(a: string, b: string)
    requires NoAdjacentDigits(a) && NoAdjacentDigits(b)
    requires a == [] || b == [] || !IsDigit(a[|a| - 1]) || !IsDigit(b[0])
    ensures NoAdjacentDigits(a + b)
  {
    var s := a + b;
    forall i | 0 <= i < |s| - 1 ensures !(IsDigit(s[i]) && IsDigit(s[i + 1])) {
      if i + 1 < |a| {
        assert s[i] == a[i] && s[i + 1] == a[i + 1];
      } else if i >= |a| {
        assert s[i] == b[i - |a|] && s[i + 1] == b[i - |a| + 1];
      }
    }
  }

  lemma {:induction false} EncodeRunNoAdjacentDigits(row: seq<string>, e: nat)
    requires WellFormedRow(row) && e + |row| <= 9
    ensures NoAdjacentDigits(EncodeRun(row, e))
    decreases |row|
  {
    if row == [] {
      ExpandRunDigits(e);
      if e != 0 { SmallNatToString(e); }
    } else if row[0] == "" {
      EncodeRunNoAdjacentDigits(row[1..], e + 1);
    } else {
      EncodeRunNoAdjacentDigits(row[1..], 0);
      if e != 0 { SmallNatToString(e); }
      var head := RunDigits(e) + row[0];
      assert NoAdjacentDigits(head);
      NoAdjacentDigitsAppend(head, EncodeRun(row[1..], 0));
    }
  }

  /** The rank-group invariant: on a row of 8 well-formed cells, the group's
      digits plus its letters add up to exactly 8, and every run of empty cells
      collapses into one digit (no two digits are adjacent). */
  lemma RankGroupInvariant(row: seq<string>)
    requires WellFormedRow(row) && |row| == 8
    ensures RankWidth(EncodeRank(row)) == 8
    ensures NoAdjacentDigits(EncodeRank(row))
  {
    RankRoundTrip(row);
    RankWidthIsExpandedLength(EncodeRank(row));
    EncodeRunNoAdjacentDigits(row, 0);
  }

  /** No character of a rank group is a '/' or whitespace. */
  predicate GroupChars(s: string)
  {
    forall i :: 0 <= i < |s| ==> s[i] != '/' && !IsSpace(s[i])
  }

  lemma {:induction false} EncodeRunChars(row: seq<string>, e: nat)
    requires WellFormedRow(row)
    ensures GroupChars(EncodeRun(row, e))
    decreases |row|
  {
    if row != [] {
      EncodeRunChars(row[1..], if row[0] == "" then e + 1 else 0);
    }
  }

  lemma {:induction false} JoinGroupChars(parts: seq<string>)
    requires forall i :: 0 <= i < |parts| ==> GroupChars(parts[i]) && parts[i] != ""
    ensures NoSpace(Join(parts, '/'))
    ensures |parts| >= 1 ==> Join(parts, '/') != ""
  {
    if |parts| > 1 {
      JoinGroupChars(parts[1..]);
    }
  }

  /** Round trip of `matrix_to_fen`: on a well-formed 8x8 matrix the FEN has
      exactly 8 groups separated by '/', in row order, and expanding each group
      gives the row back, whatever the other five fields are. */
  lemma FenRoundTrip(m: Matrix, activeColor: string, castling: string, enPassant: string,
                     halfmoveClock: int, fullmoveNumber: int)
    requires WellFormedMatrix(m)
    ensures var fields := SplitWhitespace(EncodeFen(m, activeColor, castling, enPassant, halfmoveClock, fullmoveNumber));
            |fields| >= 1 && |Split(fields[0], '/')| == 8
    ensures DecodePlacement(EncodeFen(m, activeColor, castling, enPassant, halfmoveClock, fullmoveNumber)) == m
  {
    FirstFieldIsPlacement(m, activeColor, castling, enPassant, halfmoveClock, fullmoveNumber);
    var groups := RankGroups(m);
    forall i | 0 <= i < 8 ensures ExpandRank(groups[i]) == m[i] {
      RankRoundTrip(m[i]);
    }
    forall i | 0 <= i < 8 ensures '/' !in groups[i] {
      EncodeRunChars(m[i], 0);
    }
    SplitJoin(groups, '/');
  }

  /** The first whitespace-separated field of the FEN is the placement. */
  lemma FirstFieldIsPlacement(m: Matrix, activeColor: string, castling: string, enPassant: string,
                              halfmoveClock: int, fullmoveNumber: int)
    requires WellFormedMatrix(m)
    ensures var fields := SplitWhitespace(EncodeFen(m, activeColor, castling, enPassant, halfmoveClock, fullmoveNumber));
            |fields| >= 1 && fields[0] == EncodePlacement(m)
  {
    PlacementIsOneField(m);
    var placement := EncodePlacement(m);
    var suffix := Suffix(activeColor, castling, enPassant, halfmoveClock, fullmoveNumber);
    SuffixLeadingBlank(activeColor, castling, enPassant, halfmoveClock, fullmoveNumber);
    var rest := suffix[1..];
    assert suffix == " " + rest;
    AppendAssoc(placement, " ", rest);
    SplitWhitespaceCons(placement, rest);
  }

  lemma SuffixLeadingBlank(activeColor: string, castling: string, enPassant: string,
                           halfmoveClock: int, fullmoveNumber: int)
    ensures var suffix := Suffix(activeColor, castling, enPassant, halfmoveClock, fullmoveNumber);
            |suffix| >= 1 && suffix[0] == ' '
  {
  }

  /** With non-empty blank-free fields, the FEN splits on whitespace into
      exactly its six fields: the placement, then the five given ones. */
  lemma FenFields(m: Matrix, activeColor: string, castling: string, enPassant: string,
                  halfmoveClock: int, fullmoveNumber: int)
    requires WellFormedMatrix(m)
    requires activeColor != "" && NoSpace(activeColor)
    requires castling != "" && NoSpace(castling)
    requires enPassant != "" && NoSpace(enPassant)
    ensures SplitWhitespace(EncodeFen(m, activeColor, castling, enPassant, halfmoveClock, fullmoveNumber)) ==
            [EncodePlacement(m), activeColor, castling, enPassant,
             IntToString(halfmoveClock), IntToString(fullmoveNumber)]
  {
    PlacementIsOneField(m);
    var fields := [EncodePlacement(m), activeColor, castling, enPassant,
                   IntToString(halfmoveClock), IntToString(fullmoveNumber)];
    EncodeFenIsJoin(m, activeColor, castling, enPassant, halfmoveClock, fullmoveNumber);
    assert forall i :: 0 <= i < 6 ==> fields[i] != "" && NoSpace(fields[i]);
    SplitWhitespaceJoin(fields);
  }

  lemma PlacementIsOneField(m: Matrix)
    requires WellFormedMatrix(m)
    ensures EncodePlacement(m) != "" && NoSpace(EncodePlacement(m))
  {
    var groups := RankGroups(m);
    forall i | 0 <= i < 8 ensures GroupChars(groups[i]) && groups[i] != "" {
      EncodeRunChars(m[i], 0);
    }
    JoinGroupChars(groups);
  }

  lemma EncodeFenIsJoin(m: Matrix, activeColor: string, castling: string, enPassant: string,
                        halfmoveClock: int, fullmoveNumber: int)
    ensures EncodeFen(m, activeColor, castling, enPassant, halfmoveClock, fullmoveNumber) ==
            Join([EncodePlacement(m), activeColor, castling, enPassant,
                  IntToString(halfmoveClock), IntToString(fullmoveNumber)], ' ')
  {
    JoinSixFields(EncodePlacement(m), activeColor, castling, enPassant,
                  IntToString(halfmoveClock), IntToString(fullmoveNumber));
  }

  lemma JoinSixFields(a: string, b: string, c: string, d: string, e: string, f: string)
    ensures Join([a, b, c, d, e, f], ' ') == a + " " + b + " " + c + " " + d + " " + e + " " + f
  {
    JoinCons(e, [f], ' ');
    assert [e] + [f] == [e, f];
    JoinCons(d, [e, f], ' ');
    assert [d] + [e, f] == [d, e, f];
    JoinCons(c, [d, e, f], ' ');
    assert [c] + [d, e, f] == [c, d, e, f];
    JoinCons(b, [c, d, e, f], ' ');
    assert [b] + [c, d, e, f] == [b, c, d, e, f];
    JoinCons(a, [b, c, d, e, f], ' ');
    assert [a] + [b, c, d, e, f] == [a, b, c, d, e, f];
  }

  lemma EncodeRunEmpties(n: nat, e: nat)
    ensures EncodeRun(Empties(n), e) == RunDigits(n + e)
    decreases n
  {
    if n > 0 {
      assert Empties(n)[1..] == Empties(n - 1);
      EncodeRunEmpties(n - 1, e + 1);
    }
  }

  /** An all-empty row is one run of eight empty cells, written "8". */
  lemma EmptyRankGroup()
    ensures EncodeRank(EmptyRow) == "8"
  {
    assert EmptyRow == Empties(8);
    EncodeRunEmpties(8, 0);
    SmallNatToString(8);
  }

  lemma DefaultSuffix()
    ensures Suffix("w", "KQkq", "-", 0, 1) == " w KQkq - 0 1"
  {
    assert IntToString(0) == "0" && IntToString(1) == "1";
  }

  /** An all-empty matrix encodes as eight '8' groups, and the default fields
      are " w KQkq - 0 1". */
  lemma EmptyMatrixFen()
    ensures EncodeFen(EmptyMatrix, "w", "KQkq", "-", 0, 1) == "8/8/8/8/8/8/8/8 w KQkq - 0 1"
  {
    EmptyPlacement();
    DefaultSuffix();
  }

  lemma EmptyPlacement()
    ensures EncodePlacement(EmptyMatrix) == "8/8/8/8/8/8/8/8"
  {
    EmptyRankGroup();
    var groups := ["8", "8", "8", "8", "8", "8", "8", "8"];
    assert RankGroups(EmptyMatrix) == groups;
    JoinEightEights(groups);
  }

  lemma JoinEightEights(groups: seq<string>)
    requires groups == ["8", "8", "8", "8", "8", "8", "8", "8"]
    ensures Join(groups, '/') == "8/8/8/8/8/8/8/8"
  {
    JoinCons("8", groups[7..], '/');
    assert groups[6..] == ["8"] + groups[7..];
    JoinCons("8", groups[6..], '/');
    assert groups[5..] == ["8"] + groups[6..];
    JoinCons("8", groups[5..], '/');
    assert groups[4..] == ["8"] + groups[5..];
    JoinCons("8", groups[4..], '/');
    assert groups[3..] == ["8"] + groups[4..];
    JoinCons("8", groups[3..], '/');
    assert groups[2..] == ["8"] + groups[3..];
    JoinCons("8", groups[2..], '/');
    assert groups[1..] == ["8"] + groups[2..];
    JoinCons("8", groups[1..], '/');
    assert groups == ["8"] + groups[1..];
  }

  lemma {:induction false} CellInEncodeRun(row: seq<string>, e: nat, j: nat)
    requires j < |row| && row[j] != ""
    ensures row[j][0] in EncodeRun(row, e)
    decreases |row|
  {
    if j > 0 {
      CellInEncodeRun(row[1..], if row[0] == "" then e + 1 else 0, j - 1);
    }
  }

  /** Every piece on the board shows up in the FEN. */
  lemma PieceShowsInFen(m: Matrix, r: nat, c: nat, activeColor: string, castling: string,
                        enPassant: string, halfmoveClock: int, fullmoveNumber: int)
    requires r < |m| && c < |m[r]| && m[r][c] != ""
    ensures m[r][c][0] in EncodeFen(m, activeColor, castling, enPassant, halfmoveClock, fullmoveNumber)
  {
    CellInEncodeRun(m[r], 0, c);
    JoinMembers(RankGroups(m), '/', r, m[r][c][0]);
  }

  // ---------------------------------------------------------------------------
  // `fen_from_squares`

  /** `fen_from_squares` (fen.py): the starting position when the matrix is
      all empty, otherwise the matrix encoded with the default fields. */
  function FenFromSquares(squares: seq<SquareDetection>): (r: Result<string, SquareError>)
    ensures r.Err? <==> MatrixOf(squares).Err?
  {
    match MatrixOf(squares)
    case Err(e) => Err(e)
    case Ok(matrix) =>
      if AllEmpty(matrix) then Ok(StartingFen) else Ok(EncodeFen(matrix, "w", "KQkq", "-", 0, 1))
  }

  /** What `fen_from_squares` returns, in terms of the detections: it raises
      when a detection with a piece has a malformed square; otherwise it gives
      the starting FEN when no detection lands on the board and the encoded
      matrix as soon as one does. */
  lemma FenFromSquaresCases(squares: seq<SquareDetection>)
    ensures FenFromSquares(squares).Err? <==> exists j :: 0 <= j < |squares| && Malformed(squares[j])
    ensures (forall j :: 0 <= j < |squares| ==> !Malformed(squares[j]) && !Lands(squares[j]))
            ==> FenFromSquares(squares) == Ok(StartingFen)
    ensures (forall j :: 0 <= j < |squares| ==> !Malformed(squares[j])) &&
            (exists j :: 0 <= j < |squares| && Lands(squares[j]))
            ==> FenFromSquares(squares) == Ok(EncodeFen(MatrixOf(squares).value, "w", "KQkq", "-", 0, 1))
  {
    FirstMalformedRaises(squares);
    if MatrixOf(squares).Ok? {
      EmptyIffNothingLands(squares);
    }
  }

  /** The default fields close every FEN built with them. */
  lemma DefaultFieldsEnd(m: Matrix)
    ensures var fen := EncodeFen(m, "w", "KQkq", "-", 0, 1);
            |fen| >= 12 && fen[|fen| - 12..] == "w KQkq - 0 1"
  {
    DefaultSuffix();
    var p := EncodePlacement(m);
    assert EncodeFen(m, "w", "KQkq", "-", 0, 1) == p + " w KQkq - 0 1";
    assert (p + " w KQkq - 0 1")[|p| + 1..] == "w KQkq - 0 1";
  }

  /** The matrix built from a white pawn on e2 and a black pawn on e7. */
  lemma TwoPawnsMatrix(d0: SquareDetection, d1: SquareDetection)
    requires d0 == SquareDetection("e2", Some("P")) && d1 == SquareDetection("e7", Some("p"))
    ensures MatrixOf([d0, d1]).Ok?
    ensures MatrixOf([d0, d1]).value[6][4] == "P" && MatrixOf([d0, d1]).value[1][4] == "p"
  {
    assert Target("e2") == Ok(Some((6, 4)));
    assert Target("e7") == Ok(Some((1, 4)));
    var m1 := EmptyMatrix[6 := EmptyMatrix[6][4 := "P"]];
    var m := m1[1 := m1[1][4 := "p"]];
    assert Place(EmptyMatrix, d0) == Ok(m1);
    assert Place(m1, d1) == Ok(m);
    assert [d0, d1][..1] == [d0];
    assert [d0][..0] == [];
    assert MatrixOf([d0]) == Ok(m1);
  }

  /** A white pawn on e2 and a black pawn on e7 both appear in the FEN, which
      ends with the default fields. */
  lemma TwoPawnsExample()
    ensures var r := FenFromSquares([SquareDetection("e2", Some("P")), SquareDetection("e7", Some("p"))]);
            r.Ok? && 'P' in r.value && 'p' in r.value && |r.value| >= 12 &&
            r.value[|r.value| - 12..] == "w KQkq - 0 1"
  {
    var d0, d1 := SquareDetection("e2", Some("P")), SquareDetection("e7", Some("p"));
    TwoPawnsMatrix(d0, d1);
    var m := MatrixOf([d0, d1]).value;
    assert !AllEmpty(m) by { assert m[6][4] != ""; }
    assert FenFromSquares([d0, d1]) == Ok(EncodeFen(m, "w", "KQkq", "-", 0, 1));
    DefaultFieldsEnd(m);
    PieceShowsInFen(m, 6, 4, "w", "KQkq", "-", 0, 1);
    PieceShowsInFen(m, 1, 4, "w", "KQkq", "-", 0, 1);
  }
}
