/**
 * The pawn's and the king's own `move_piece` (src/all_pieces.py): promotion,
 * the en-passant flag and capture, castling's rook step, and the dispatch of
 * a move to the class of the moving piece.
 */
module AllPiecesMoves {
  import opened Common
  import opened GameStates
  import opened Movement
  import opened PieceMoves

  /* ---------- Pawn.move_piece ---------- */

  /** The queen a pawn of `p`'s colour is promoted to; `serial` is the next free serial. */
  function PromotedQueen(p: PieceRef, serial: nat): PieceRef
  {
    PieceRef(serial, Queen, p.color)
  }

  /** A new queen object on `dest`, with `first_move` off and an empty cache. */
  function WithQueen(s: Position, q: PieceRef, dest: Tile): Position
  {
    s.(pieces := s.pieces[q := PieceInfo(dest, false, false, None, None)], moves := s.moves[q := []])
  }

  /**
   * Promotion: the prior occupant of `dest` and the pawn leave their colour
   * lists, the queen joins its list, the queen is written on `dest` and
   * `cur` is cleared. The pawn object keeps its old tile.
   */
  function Promote(s: Position, p: PieceRef, cur: Tile, dest: Tile, serial: nat): Position
  {
    var q := PromotedQueen(p, serial);
    var s1 := WithRemoved(WithRemoved(WithQueen(s, q, dest), At(s.board, dest)), Some(p));
    var s2 := WithAdded(s1, Some(q));
    s2.(board := Put(Put(s.board, dest, Some(q)), cur, None))
  }

  /** The en-passant capture of the piece on `t`: it leaves its colour list and `t` is cleared. */
  function EnPassantCapture(s: Position, t: Tile): Position
  {
    WithRemoved(s, At(s.board, t)).(board := Put(s.board, t, None))
  }

  /** The square of the pawn an en-passant move onto `dest` takes: one row back towards the mover's side. */
  function BehindTile(p: PieceRef, dest: Tile): Tile
  {
    (dest.0 + p.color, dest.1)
  }

  /** A move that changes column onto an empty square, which the pawn executes as an en-passant capture. */
  predicate IsEnPassant(b: Board, cur: Tile, dest: Tile)
  {
    At(b, dest) == None && dest.1 != cur.1
  }

  /**
   * A pawn move that does not promote: `just_moved` records a first-move
   * step of two rows, an en-passant step removes the piece behind `dest`,
   * and the base move follows.
   */
  function PawnStep(s: Position, p: PieceRef, cur: Tile, dest: Tile): Position
    requires p in s.pieces
  {
    var jm := Abs(dest.0 - cur.0) == 2 && s.pieces[p].firstMove;
    var s1 := s.(pieces := s.pieces[p := s.pieces[p].(justMoved := jm)]);
    var s2 := if IsEnPassant(s.board, cur, dest) then EnPassantCapture(s1, BehindTile(p, dest)) else s1;
    BaseMove(s2, p, cur, dest)
  }

  /** Pawn.move_piece on a snapshot: promotion onto row 0 or 7, otherwise a pawn step. */
  function PawnMove(s: Position, p: PieceRef, cur: Tile, dest: Tile, serial: nat): Position
    requires p in s.pieces
  {
    if dest.0 == 0 || dest.0 == 7 then Promote(s, p, cur, dest, serial) else PawnStep(s, p, cur, dest)
  }

  /* ---------- King.move_piece ---------- */

  /** Castling's rook step on a grid: the corner's content goes beside the king's target, the corner is cleared. */
  function RookShift(b: Board, corner: Tile, beside: Tile): Board
  {
    Put(Put(b, beside, At(b, corner)), corner, None)
  }

  /** A position after a move together with what the move returned. */
  datatype Step = Step(after: Position, result: Result<MoveKind, Fault>)

  /**
   * Castling towards `corner`: the corner's content is shifted to `beside`;
   * an empty corner raises after those grid writes; otherwise the rook takes
   * `beside` as its tile with `first_move` off, the king makes the base
   * move, and the move reports castling.
   */
  function Castle(s: Position, k: PieceRef, cur: Tile, dest: Tile, corner: Tile, beside: Tile): Step
    requires Wf(s) && k in s.pieces
  {
    var rook := At(s.board, corner);
    var s1 := s.(board := RookShift(s.board, corner, beside));
    if rook.None? then Step(s1, Failure(NoRookOnCorner))
    else
      var s2 := s1.(pieces := s.pieces[rook.value := s.pieces[rook.value].(tile := beside, firstMove := false)]);
      Step(BaseMove(s2, k, cur, dest), Success(Castling))
  }

  /**
   * King.move_piece on a snapshot: a king that has not moved and goes to
   * column 6 castles with the piece on column 7 (to column 5), one going to
   * column 2 with the piece on column 0 (to column 3); any other king move
   * is the base move.
   */
  function KingMove(s: Position, k: PieceRef, cur: Tile, dest: Tile): Step
    requires Wf(s) && k in s.pieces
  {
    var row := dest.0;
    if s.pieces[k].firstMove && dest.1 == 6 then Castle(s, k, cur, dest, (row, 7), (row, 5))
    else if s.pieces[k].firstMove && dest.1 == 2 then Castle(s, k, cur, dest, (row, 0), (row, 3))
    else Step(BaseMove(s, k, cur, dest), Success(ModMove(s.board, dest)))
  }

  /** `move_piece`, dispatched on the piece's class; `serial` names a promoted queen. */
  function Moved(s: Position, p: PieceRef, cur: Tile, dest: Tile, serial: nat): Step
    requires Wf(s) && p in s.pieces
  {
    match p.kind
    case Pawn => Step(PawnMove(s, p, cur, dest, serial), Success(ModMove(s.board, dest)))
    case King => KingMove(s, p, cur, dest)
    case _ => Step(BaseMove(s, p, cur, dest), Success(ModMove(s.board, dest)))
  }

  /* ---------- consistency ---------- */

  lemma PromoteWf(s: Position, p: PieceRef, cur: Tile, dest: Tile, serial: nat)
    requires Wf(s) && p in s.pieces
    ensures Wf(Promote(s, p, cur, dest, serial))
  {
    var q := PromotedQueen(p, serial);
    var s0 := WithQueen(s, q, dest);
    FreshWf(s, q, PieceInfo(dest, false, false, None, None));
    var e := At(s.board, dest);
    assert e.Some? ==> e.value in s0.pieces by {
      if e.Some? {
        assert Cell(s.board, dest.0, dest.1).Some?;
      }
    }
    WithAddedRemovedWf(s0, e);
    var s1 := WithRemoved(s0, e);
    WithAddedRemovedWf(s1, Some(p));
    var s2 := WithRemoved(s1, Some(p));
    WithAddedRemovedWf(s2, Some(q));
    var s3 := WithAdded(s2, Some(q));
    PutWf(s3, dest, Some(q));
    PutWf(s3.(board := Put(s3.board, dest, Some(q))), cur, None);
  }

  lemma PawnStepWf(s: Position, p: PieceRef, cur: Tile, dest: Tile)
    requires Wf(s) && p in s.pieces
    ensures Wf(PawnStep(s, p, cur, dest))
  {
    var jm := Abs(dest.0 - cur.0) == 2 && s.pieces[p].firstMove;
    var s1 := s.(pieces := s.pieces[p := s.pieces[p].(justMoved := jm)]);
    InfoWf(s, p, s1.pieces[p]);
    var t := BehindTile(p, dest);
    var e := At(s1.board, t);
    assert e.Some? ==> e.value in s1.pieces by {
      if e.Some? {
        assert Cell(s1.board, t.0, t.1).Some?;
      }
    }
    WithAddedRemovedWf(s1, e);
    PutWf(WithRemoved(s1, e), t, None);
    var s2 := if IsEnPassant(s.board, cur, dest) then EnPassantCapture(s1, t) else s1;
    BaseMoveWf(s2, p, cur, dest);
  }

  /** A pawn move keeps a consistent snapshot consistent. */
  lemma PawnMoveWf(s: Position, p: PieceRef, cur: Tile, dest: Tile, serial: nat)
    requires Wf(s) && p in s.pieces
    ensures Wf(PawnMove(s, p, cur, dest, serial))
  {
    if dest.0 == 0 || dest.0 == 7 {
      PromoteWf(s, p, cur, dest, serial);
    } else {
      PawnStepWf(s, p, cur, dest);
    }
  }

  lemma CastleWf(s: Position, k: PieceRef, cur: Tile, dest: Tile, corner: Tile, beside: Tile)
    requires Wf(s) && k in s.pieces
    ensures Wf(Castle(s, k, cur, dest, corner, beside).after)
  {
    var rook := At(s.board, corner);
    PutWf(s, beside, rook);
    PutWf(s.(board := Put(s.board, beside, rook)), corner, None);
    var s1 := s.(board := RookShift(s.board, corner, beside));
    if rook.Some? {
      assert Cell(s.board, corner.0, corner.1).Some?;
      InfoWf(s1, rook.value, s.pieces[rook.value].(tile := beside, firstMove := false));
      var s2 := s1.(pieces := s.pieces[rook.value := s.pieces[rook.value].(tile := beside, firstMove := false)]);
      BaseMoveWf(s2, k, cur, dest);
    }
  }

  /** A king move keeps a consistent snapshot consistent, also when castling fails. */
  lemma KingMoveWf(s: Position, k: PieceRef, cur: Tile, dest: Tile)
    requires Wf(s) && k in s.pieces
    ensures Wf(KingMove(s, k, cur, dest).after)
  {
    var row := dest.0;
    if s.pieces[k].firstMove && dest.1 == 6 {
      CastleWf(s, k, cur, dest, (row, 7), (row, 5));
    } else if s.pieces[k].firstMove && dest.1 == 2 {
      CastleWf(s, k, cur, dest, (row, 0), (row, 3));
    } else {
      BaseMoveWf(s, k, cur, dest);
    }
  }

  /** Every kind of move keeps a consistent snapshot consistent. */
  lemma MovedWf(s: Position, p: PieceRef, cur: Tile, dest: Tile, serial: nat)
    requires Wf(s) && p in s.pieces
    ensures Wf(Moved(s, p, cur, dest, serial).after)
  {
    match p.kind
    case Pawn => PawnMoveWf(s, p, cur, dest, serial);
    case King => KingMoveWf(s, p, cur, dest);
    case _ => BaseMoveWf(s, p, cur, dest);
  }

  /* ---------- what a move does ---------- */

  /**
   * Promotion on the grid and the piece fields: a new queen of the pawn's
   * colour, unknown before, stands on `dest` with `first_move` off and an
   * empty cache; `cur` is empty and every other cell is as before; the pawn
   * object itself keeps its fields.
   */
  lemma PromotionCells(s: Position, p: PieceRef, cur: Tile, dest: Tile, serial: nat)
    requires p in s.pieces && (dest.0 == 0 || dest.0 == 7)
    requires OnBoard(cur) && OnBoard(dest) && cur != dest
    requires forall x :: x in s.pieces ==> x.serial < serial
    ensures var s' := PawnMove(s, p, cur, dest, serial);
            var q := PromotedQueen(p, serial);
            q !in s.pieces && q.kind == Queen && q.color == p.color
            && At(s'.board, dest) == Some(q) && At(s'.board, cur) == None
            && (forall t :: t != cur && t != dest ==> At(s'.board, t) == At(s.board, t))
            && s'.pieces[q] == PieceInfo(dest, false, false, None, None) && s'.moves[q] == []
            && s'.pieces[p] == s.pieces[p]
  {
    var q := PromotedQueen(p, serial);
    assert q !in s.pieces;
    var s' := PawnMove(s, p, cur, dest, serial);
    assert s'.board == Put(Put(s.board, dest, Some(q)), cur, None);
    assert s'.pieces == s.pieces[q := PieceInfo(dest, false, false, None, None)];
    assert s'.moves == s.moves[q := []];
  }

  /**
   * Promotion on the colour lists: the queen is listed in place of the pawn,
   * and the captured piece, if any, is no longer listed.
   */
  lemma PromotionRegistry(s: Position, p: PieceRef, cur: Tile, dest: Tile, serial: nat)
    requires Wf(s) && p in s.pieces && (dest.0 == 0 || dest.0 == 7)
    requires forall x :: x in s.pieces ==> x.serial < serial
    ensures var s' := PawnMove(s, p, cur, dest, serial);
            var q := PromotedQueen(p, serial);
            var e := At(s.board, dest);
            p !in Registry(s', p.color) && q in Registry(s', p.color)
            && (e.Some? ==> e.value !in Registry(s', e.value.color))
  {
    var q := PromotedQueen(p, serial);
    var e := At(s.board, dest);
    var s0 := WithQueen(s, q, dest);
    var s1 := WithRemoved(s0, e);
    var s2 := WithRemoved(s1, Some(p));
    var s3 := WithAdded(s2, Some(q));
    assert Registry(PawnMove(s, p, cur, dest, serial), p.color) == Registry(s3, p.color);
    RegistryMembers(s, p.color);
    RemovedRegistry(s0, e, p.color);
    RemovedRegistry(s1, Some(p), p.color);
    AddedRegistry(s2, Some(q), p.color);
    if e.Some? {
      var c := e.value.color;
      assert Cell(s.board, dest.0, dest.1).Some?;
      assert e.value != q;
      RegistryMembers(s, c);
      RemovedRegistry(s0, e, c);
      RemovedRegistry(s1, Some(p), c);
      AddedRegistry(s2, Some(q), c);
      assert Registry(PawnMove(s, p, cur, dest, serial), c) == Registry(s3, c);
    }
  }

  /**
   * A pawn move that does not promote sets `just_moved` exactly when the
   * pawn had not moved and went two rows, turns `first_move` off and puts the
   * pawn on `dest`.
   */
  lemma JustMovedFlag(s: Position, p: PieceRef, cur: Tile, dest: Tile, serial: nat)
    requires p in s.pieces && dest.0 != 0 && dest.0 != 7
    ensures var s' := PawnMove(s, p, cur, dest, serial);
            p in s'.pieces
            && (s'.pieces[p].justMoved <==> Abs(dest.0 - cur.0) == 2 && s.pieces[p].firstMove)
            && !s'.pieces[p].firstMove && s'.pieces[p].tile == dest
  {
  }

  /**
   * En passant: a pawn stepping sideways onto an empty square clears the
   * square behind `dest` and removes the piece that stood there from its
   * colour list, and the move reports a plain move, not a capture.
   */
  lemma EnPassantFacts(s: Position, p: PieceRef, cur: Tile, dest: Tile, serial: nat)
    requires Wf(s) && p in s.pieces && OnBoard(cur) && OnBoard(dest) && 1 <= dest.0 <= 6
    requires IsEnPassant(s.board, cur, dest) && BehindTile(p, dest) != cur
    ensures var s' := PawnMove(s, p, cur, dest, serial);
            var e := At(s.board, BehindTile(p, dest));
            At(s'.board, BehindTile(p, dest)) == None && At(s'.board, dest) == Some(p) && At(s'.board, cur) == None
            && (e.Some? ==> e.value !in Registry(s', e.value.color))
            && (p.kind == Pawn ==> Moved(s, p, cur, dest, serial).result == Success(Move))
  {
    var t := BehindTile(p, dest);
    var jm := Abs(dest.0 - cur.0) == 2 && s.pieces[p].firstMove;
    var s1 := s.(pieces := s.pieces[p := s.pieces[p].(justMoved := jm)]);
    var s2 := EnPassantCapture(s1, t);
    assert PawnMove(s, p, cur, dest, serial) == BaseMove(s2, p, cur, dest);
    EnPassantCaptureFacts(s, s1, p, cur, dest);
    BaseMoveCells(s2, p, cur, dest);
    var e := At(s.board, t);
    if e.Some? {
      BaseMoveCaptured(s2, p, cur, dest);
    }
  }

  /** The capture half of en passant: the square behind `dest` is cleared, `dest` stays empty, and its piece leaves its list. */
  lemma EnPassantCaptureFacts(s: Position, s1: Position, p: PieceRef, cur: Tile, dest: Tile)
    requires Wf(s) && s1.board == s.board && s1.white == s.white && s1.black == s.black
    requires s1.pieces.Keys == s.pieces.Keys && s1.moves == s.moves
    requires IsEnPassant(s.board, cur, dest) && BehindTile(p, dest) != dest
    ensures var t := BehindTile(p, dest);
            var e := At(s.board, t);
            var s2 := EnPassantCapture(s1, t);
            At(s2.board, t) == None && At(s2.board, dest) == None
            && (e.Some? ==> e.value !in Registry(s2, e.value.color))
  {
    var t := BehindTile(p, dest);
    var e := At(s.board, t);
    if e.Some? {
      assert Cell(s.board, t.0, t.1).Some?;
      var c := e.value.color;
      RegistryMembers(s, c);
      RemovedRegistry(s1, e, c);
    }
  }

  /**
   * Castling: a king on its first move going to column 6 (or 2) with a
   * piece in the corner of column 7 (or 0) ends on its target, the corner
   * piece stands on column 5 (or 3) with that tile and `first_move` off, the
   * corner and the king's origin are empty, and the move reports castling;
   * with the corner empty it fails.
   */
  lemma CastlingFacts(s: Position, k: PieceRef, cur: Tile, dest: Tile)
    requires Wf(s) && k in s.pieces && s.pieces[k].firstMove && (dest.1 == 6 || dest.1 == 2)
    requires OnBoard(dest) && cur == (dest.0, 4)
    ensures var corner := if dest.1 == 6 then (dest.0, 7) else (dest.0, 0);
            var beside := if dest.1 == 6 then (dest.0, 5) else (dest.0, 3);
            var st := KingMove(s, k, cur, dest);
            match At(s.board, corner)
            case None => st.result == Failure(NoRookOnCorner)
            case Some(rook) =>
              st.result == Success(Castling)
              && At(st.after.board, dest) == Some(k) && At(st.after.board, beside) == Some(rook)
              && At(st.after.board, corner) == None && At(st.after.board, cur) == None
              && (rook != k ==> st.after.pieces[rook].tile == beside && !st.after.pieces[rook].firstMove)
              && st.after.pieces[k].tile == dest && !st.after.pieces[k].firstMove
  {
  }

  /* ---------- the move methods ---------- */

  /** The promotion branch of Pawn.move_piece. */
  method PromotePawn(gs: GameState, p: PieceRef, cur: Tile, dest: Tile) returns (m: MoveKind)
    requires gs.Valid() && p in gs.pieces
    modifies gs`board, gs`pieces, gs`moves, gs`white, gs`black, gs`nextSerial
    ensures gs.Valid()
    ensures gs.Pos() == Promote(old(gs.Pos()), p, cur, dest, old(gs.nextSerial))
    ensures gs.nextSerial == old(gs.nextSerial) + 1
    ensures m == ModMove(old(gs.board), dest)
    ensures gs.whiteKing == old(gs.whiteKing) && gs.blackKing == old(gs.blackKing)
  {
    ghost var s := gs.Pos();
    m := GetModMove(gs, dest);
    var queen := PromotedQueen(p, gs.nextSerial);
    AddQueen(gs, queen, dest);
    var eaten := gs.GetPieceAt(dest.0, dest.1);
    SwapListed(gs, eaten, p, queen);
    ghost var s3 := gs.Pos();
    PutWf(s3, dest, Some(queen));
    gs.board := Put(gs.board, dest, Some(queen));
    gs.SetPieceAt(cur.0, cur.1, None);
  }

  /** Promotion's list updates: the captured piece, if any, and the pawn are removed, then the queen is added. */
  method SwapListed(gs: GameState, eaten: Square, p: PieceRef, queen: PieceRef)
    requires gs.Valid() && p in gs.pieces && queen in gs.pieces
    modifies gs`white, gs`black
    ensures gs.Valid()
    ensures gs.Pos() == WithAdded(WithRemoved(WithRemoved(old(gs.Pos()), eaten), Some(p)), Some(queen))
  {
    if eaten.Some? {
      gs.RemovePiece(eaten);
    }
    gs.RemovePiece(Some(p));
    gs.AddPiece(Some(queen));
  }

  /** Creating the queen object: it gets the next serial, `first_move` off and an empty cache. */
  method AddQueen(gs: GameState, queen: PieceRef, dest: Tile)
    requires gs.Valid() && queen.serial == gs.nextSerial
    modifies gs`pieces, gs`moves, gs`nextSerial
    ensures gs.Valid()
    ensures gs.Pos() == WithQueen(old(gs.Pos()), queen, dest)
    ensures gs.nextSerial == old(gs.nextSerial) + 1
  {
    FreshWf(gs.Pos(), queen, PieceInfo(dest, false, false, None, None));
    gs.nextSerial := gs.nextSerial + 1;
    gs.pieces := gs.pieces[queen := PieceInfo(dest, false, false, None, None)];
    gs.moves := gs.moves[queen := []];
  }

  /** The branch of Pawn.move_piece that does not promote. */
  method StepPawn(gs: GameState, p: PieceRef, cur: Tile, dest: Tile) returns (m: MoveKind)
    requires gs.Valid() && p in gs.pieces
    modifies gs`board, gs`pieces, gs`white, gs`black
    ensures gs.Valid()
    ensures gs.Pos() == PawnStep(old(gs.Pos()), p, cur, dest)
    ensures m == ModMove(old(gs.board), dest)
    ensures gs.whiteKing == old(gs.whiteKing) && gs.blackKing == old(gs.blackKing)
  {
    ghost var s := gs.Pos();
    SetJustMoved(gs, p, Abs(dest.0 - cur.0) == 2 && gs.pieces[p].firstMove);
    ghost var s1 := gs.Pos();
    if gs.GetPieceAt(dest.0, dest.1) == None && dest.1 != cur.1 {
      TakeEnPassant(gs, BehindTile(p, dest));
    }
    assert gs.Pos() == if IsEnPassant(s.board, cur, dest) then EnPassantCapture(s1, BehindTile(p, dest)) else s1;
    m := BaseMovePiece(gs, p, cur, dest);
  }

  /** The `just_moved` update of Pawn.move_piece. */
  method SetJustMoved(gs: GameState, p: PieceRef, jm: bool)
    requires gs.Valid() && p in gs.pieces
    modifies gs`pieces
    ensures gs.Valid()
    ensures gs.pieces == old(gs.pieces)[p := old(gs.pieces)[p].(justMoved := jm)]
  {
    InfoWf(gs.Pos(), p, gs.pieces[p].(justMoved := jm));
    if jm {
      gs.pieces := gs.pieces[p := gs.pieces[p].(justMoved := true)];
    } else {
      gs.pieces := gs.pieces[p := gs.pieces[p].(justMoved := false)];
    }
  }

  /** The en-passant capture of Pawn.move_piece: the piece on `t` leaves its colour list and its cell is cleared. */
  method TakeEnPassant(gs: GameState, t: Tile)
    requires gs.Valid()
    modifies gs`board, gs`white, gs`black
    ensures gs.Valid()
    ensures gs.Pos() == EnPassantCapture(old(gs.Pos()), t)
  {
    var eaten := gs.GetPieceAt(t.0, t.1);
    gs.RemovePiece(eaten);
    gs.SetPieceAt(t.0, t.1, None);
  }

  /** Pawn.move_piece: promotion onto row 0 or 7, otherwise the en-passant flag and capture, then the base move. */
  method PawnMovePiece(gs: GameState, p: PieceRef, cur: Tile, dest: Tile) returns (m: MoveKind)
    requires gs.Valid() && p in gs.pieces
    modifies gs`board, gs`pieces, gs`moves, gs`white, gs`black, gs`nextSerial
    ensures gs.Valid()
    ensures gs.Pos() == PawnMove(old(gs.Pos()), p, cur, dest, old(gs.nextSerial))
    ensures m == ModMove(old(gs.board), dest)
    ensures gs.whiteKing == old(gs.whiteKing) && gs.blackKing == old(gs.blackKing)
  {
    if dest.0 == 0 || dest.0 == 7 {
      m := PromotePawn(gs, p, cur, dest);
    } else {
      m := StepPawn(gs, p, cur, dest);
    }
  }

  /** The rook step of castling: returns the corner's content after moving it beside the king's target. */
  method ShiftRook(gs: GameState, corner: Tile, beside: Tile) returns (rook: Square)
    requires gs.Valid()
    modifies gs`board
    ensures gs.Valid()
    ensures rook == At(old(gs.board), corner) && gs.board == RookShift(old(gs.board), corner, beside)
  {
    rook := gs.GetPieceAt(corner.0, corner.1);
    gs.SetPieceAt(beside.0, beside.1, rook);
    gs.SetPieceAt(corner.0, corner.1, None);
  }

  /** One castling branch of King.move_piece. */
  method CastleMove(gs: GameState, k: PieceRef, cur: Tile, dest: Tile, corner: Tile, beside: Tile) returns (r: Result<MoveKind, Fault>)
    requires gs.Valid() && k in gs.pieces
    modifies gs`board, gs`pieces, gs`white, gs`black
    ensures gs.Valid()
    ensures Castle(old(gs.Pos()), k, cur, dest, corner, beside) == Step(gs.Pos(), r)
    ensures gs.whiteKing == old(gs.whiteKing) && gs.blackKing == old(gs.blackKing)
  {
    ghost var s := gs.Pos();
    var rook := ShiftRook(gs, corner, beside);
    if rook.None? {
      return Failure(NoRookOnCorner);
    }
    assert Cell(s.board, corner.0, corner.1).Some?;
    SetRookFields(gs, rook.value, beside);
    var _ := BaseMovePiece(gs, k, cur, dest);
    return Success(Castling);
  }

  /** Castling's update of the rook object: its tile becomes `beside` and `first_move` goes off. */
  method SetRookFields(gs: GameState, rook: PieceRef, beside: Tile)
    requires gs.Valid() && rook in gs.pieces
    modifies gs`pieces
    ensures gs.Valid()
    ensures gs.pieces == old(gs.pieces)[rook := old(gs.pieces)[rook].(tile := beside, firstMove := false)]
  {
    InfoWf(gs.Pos(), rook, gs.pieces[rook].(tile := beside, firstMove := false));
    gs.pieces := gs.pieces[rook := gs.pieces[rook].(tile := beside)];
    gs.pieces := gs.pieces[rook := gs.pieces[rook].(firstMove := false)];
  }

  /** King.move_piece: castling on the first move to column 6 or 2, otherwise the base move. */
  method KingMovePiece(gs: GameState, k: PieceRef, cur: Tile, dest: Tile) returns (r: Result<MoveKind, Fault>)
    requires gs.Valid() && k in gs.pieces
    modifies gs`board, gs`pieces, gs`white, gs`black
    ensures gs.Valid()
    ensures KingMove(old(gs.Pos()), k, cur, dest) == Step(gs.Pos(), r)
    ensures gs.whiteKing == old(gs.whiteKing) && gs.blackKing == old(gs.blackKing)
  {
    var row := dest.0;
    if gs.pieces[k].firstMove {
      if dest.1 == 6 {
        r := CastleMove(gs, k, cur, dest, (row, 7), (row, 5));
        return;
      }
      if dest.1 == 2 {
        r := CastleMove(gs, k, cur, dest, (row, 0), (row, 3));
        return;
      }
    }
    var m := BaseMovePiece(gs, k, cur, dest);
    return Success(m);
  }

  /** `move_piece`, dispatched on the class of the moving piece. */
  method MovePiece(gs: GameState, p: PieceRef, cur: Tile, dest: Tile) returns (r: Result<MoveKind, Fault>)
    requires gs.Valid() && p in gs.pieces
    modifies gs`board, gs`pieces, gs`moves, gs`white, gs`black, gs`nextSerial
    ensures gs.Valid()
    ensures Moved(old(gs.Pos()), p, cur, dest, old(gs.nextSerial)) == Step(gs.Pos(), r)
    ensures gs.whiteKing == old(gs.whiteKing) && gs.blackKing == old(gs.blackKing)
  {
    match p.kind
    case Pawn =>
      var m := PawnMovePiece(gs, p, cur, dest);
      r := Success(m);
    case King =>
      r := KingMovePiece(gs, p, cur, dest);
    case _ =>
      var m := BaseMovePiece(gs, p, cur, dest);
      r := Success(m);
  }
}
