/**
 * The move kind and the plain move of class Piece (src/piece.py): what a
 * move onto a square reports, and how the grid, the mover and the colour
 * lists change when a piece leaves its square for another.
 */
module PieceMoves {
  import opened Common
  import opened GameStates

  /** The strings "move", "capture" and "castling" that moves return. */
  datatype MoveKind = Move | Capture | Castling

  /**
   * The two places where the engine dereferences a missing piece and Python
   * raises: castling with an empty corner, and a check with no checking piece
   * found.
   */
  datatype Fault = NoRookOnCorner | NoCheckingPiece

  /** What a move onto `t` reports on grid `b`: a capture exactly when `t` is occupied. */
  function ModMove(b: Board, t: Tile): MoveKind
  {
    if At(b, t).Some? then Capture else Move
  }

  /** `get_mod_move`: "capture" when the destination holds a piece, "move" otherwise. */
  function GetModMove(gs: GameState, t: Tile): (m: MoveKind)
    reads gs`board
    ensures m == Capture <==> gs.GetPieceAt(t.0, t.1).Some?
    ensures m != Castling
  {
    ModMove(gs.board, t)
  }

  /**
   * The base `move_piece` on a snapshot: the prior occupant of `dest` leaves
   * its colour list, `p` is written on `dest` and `cur` is cleared (in that
   * order), and `p` takes `dest` as its tile with `first_move` off.
   */
  function BaseMove(s: Position, p: PieceRef, cur: Tile, dest: Tile): Position
    requires p in s.pieces
  {
    var s1 := WithRemoved(s, At(s.board, dest));
    s1.(board := Put(Put(s.board, dest, Some(p)), cur, None),
        pieces := s.pieces[p := s.pieces[p].(tile := dest, firstMove := false)])
  }

  /**
   * After the base move the mover stands on `dest`, `cur` is empty, and every
   * other cell is as before; only the mover's tile and first-move flag change.
   */
  lemma BaseMoveCells(s: Position, p: PieceRef, cur: Tile, dest: Tile)
    requires p in s.pieces && OnBoard(cur) && OnBoard(dest) && cur != dest
    ensures var s' := BaseMove(s, p, cur, dest);
            At(s'.board, dest) == Some(p) && At(s'.board, cur) == None
            && (forall t :: t != cur && t != dest ==> At(s'.board, t) == At(s.board, t))
            && s'.pieces[p].tile == dest && !s'.pieces[p].firstMove
            && s'.pieces[p].justMoved == s.pieces[p].justMoved
            && (forall x :: x in s.pieces && x != p ==> x in s'.pieces && s'.pieces[x] == s.pieces[x])
            && Placed(s', p)
  {
  }

  /**
   * The captured piece leaves its colour list and the other list is
   * untouched; a move onto an empty square leaves both lists as they were.
   */
  lemma BaseMoveCaptured(s: Position, p: PieceRef, cur: Tile, dest: Tile)
    requires Wf(s) && p in s.pieces
    ensures var s' := BaseMove(s, p, cur, dest);
            match At(s.board, dest)
            case None => s'.white == s.white && s'.black == s.black
            case Some(e) =>
              e !in Registry(s', e.color)
              && (forall x :: x in Registry(s, e.color) && x != e <==> x in Registry(s', e.color))
              && Registry(s', Opp(e.color)) == Registry(s, Opp(e.color))
  {
    RegistryMembers(s, 1);
    RegistryMembers(s, -1);
  }

  /** The base move keeps a consistent snapshot consistent. */
  lemma BaseMoveWf(s: Position, p: PieceRef, cur: Tile, dest: Tile)
    requires Wf(s) && p in s.pieces
    ensures Wf(BaseMove(s, p, cur, dest))
  {
    var s1 := WithRemoved(s, At(s.board, dest));
    WithAddedRemovedWf(s, At(s.board, dest));
    var s' := BaseMove(s, p, cur, dest);
    forall r, c | Cell(s'.board, r, c).Some? ensures Cell(s'.board, r, c).value in s'.pieces {
    }
  }

  /**
   * `move_piece` of class Piece: reports the move kind as the destination was
   * before the move, then performs the base move.
   */
  method BaseMovePiece(gs: GameState, p: PieceRef, cur: Tile, dest: Tile) returns (m: MoveKind)
    requires gs.Valid() && p in gs.pieces
    modifies gs`board, gs`pieces, gs`white, gs`black
    ensures gs.Valid()
    ensures gs.Pos() == BaseMove(old(gs.Pos()), p, cur, dest)
    ensures m == ModMove(old(gs.board), dest)
    ensures gs.whiteKing == old(gs.whiteKing) && gs.blackKing == old(gs.blackKing)
  {
    ghost var s := gs.Pos();
    m := GetModMove(gs, dest);
    var eaten := gs.GetPieceAt(dest.0, dest.1);
    gs.RemovePiece(eaten);
    gs.board := Put(gs.board, dest, Some(p));
    gs.board := Put(gs.board, cur, None);
    gs.pieces := gs.pieces[p := gs.pieces[p].(tile := dest, firstMove := false)];
    BaseMoveWf(s, p, cur, dest);
  }
}
