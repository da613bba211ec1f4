/** `validate_fen` (src/ocr/fen_generator.py): with python-chess installed a FEN
    is valid when `chess.Board(fen)` constructs; without it, when it has at
    least four whitespace-separated fields. */
module FenValidator {
  import opened Text
  import opened Fen

  /** Whether python-chess could be imported. When it is, its FEN parser is an
      oracle: `boardAccepts(fen)` holds exactly when `chess.Board(fen)` returns
      instead of raising. */
  datatype ChessLibrary = Absent | Present(boardAccepts: string -> bool)

  /** The check without python-chess: at least four fields. */
  predicate FallbackAccepts(fen: string)
  {
    |SplitWhitespace(fen)| >= 4
  }

  /** `validate_fen`: total; the empty string is rejected first, then the
      library decides if present, otherwise the field count. */
  function ValidateFen(fen: string, chess: ChessLibrary): (ok: bool)
    ensures fen == "" ==> !ok
    ensures fen != "" && chess.Present? ==> (ok <==> chess.boardAccepts(fen))
    ensures fen != "" && chess.Absent? ==> (ok <==> FallbackAccepts(fen))
  {
    if fen == "" then false
    else match chess
      case Present(boardAccepts) => boardAccepts(fen)
      case Absent => FallbackAccepts(fen)
  }

  /** Whatever python-chess says, the empty string is invalid. */
  lemma EmptyNeverValid(chess: ChessLibrary)
    ensures !ValidateFen("", chess)
  {
  }

  /** Every FEN the encoder writes for a detector board passes the fallback:
      it has six fields. */
  lemma EncodedFenPassesFallback(m: Matrix, activeColor: string, castling: string, enPassant: string,
                                 halfmoveClock: int, fullmoveNumber: int)
    requires WellFormedMatrix(m)
    requires activeColor != "" && NoSpace(activeColor)
    requires castling != "" && NoSpace(castling)
    requires enPassant != "" && NoSpace(enPassant)
    ensures |SplitWhitespace(EncodeFen(m, activeColor, castling, enPassant, halfmoveClock, fullmoveNumber))| == 6
    ensures ValidateFen(EncodeFen(m, activeColor, castling, enPassant, halfmoveClock, fullmoveNumber), Absent)
  {
    FenFields(m, activeColor, castling, enPassant, halfmoveClock, fullmoveNumber);
    PlacementIsOneField(m);
  }

  /** The fallback looks only at the number of fields: any four non-empty
      blank-free fields pass, whatever they hold, while a placement on its own
      (one field) fails even when it describes a proper board. */
  lemma FallbackIgnoresContents(a: string, b: string, c: string, d: string, m: Matrix)
    requires a != "" && NoSpace(a) && b != "" && NoSpace(b)
    requires c != "" && NoSpace(c) && d != "" && NoSpace(d)
    requires WellFormedMatrix(m)
    ensures ValidateFen(Join([a, b, c, d], ' '), Absent)
    ensures !ValidateFen(EncodePlacement(m), Absent)
  {
    SplitWhitespaceJoin([a, b, c, d]);
    PlacementIsOneField(m);
    SplitWhitespaceToken(EncodePlacement(m));
  }

  /** In particular a placement whose ranks are nine cells wide is accepted
      by the fallback. */
  lemma FallbackAcceptsWideRanks()
    ensures RankWidth("9") == 9
    ensures ValidateFen(Join(["9/9", "w", "-", "-"], ' '), Absent)
  {
    assert NoSpace("9/9") && NoSpace("w") && NoSpace("-");
    FallbackIgnoresContents("9/9", "w", "-", "-", EmptyMatrix);
  }
}
