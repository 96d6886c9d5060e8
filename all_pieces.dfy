/**
 * The concrete piece classes (src/all_pieces.py): what each class puts in
 * its `available_moves` cache. The pawn's and the king's own `move_piece`
 * are in module AllPiecesMoves.
 */
module AllPieces {
  import opened Common
  import opened GameStates
  import opened Movement
  import opened PieceMoves

  /** The column offsets of the pawn's capture and en-passant loops, in loop order. */
  const SideOffsets: seq<int> := [-1, 1]

  /* ---------- Pawn.update_possible_moves ---------- */

  /**
   * The forward moves of pawn `q`: one row towards `-color` when that square
   * is empty, then a second row on its first move when that is empty too.
   */
  function PawnPushes(s: Position, q: PieceRef): seq<Tile>
  {
    var row := TileOf(s, q).0;
    var col := TileOf(s, q).1;
    var dir := Opp(q.color) as int;
    var nr := row + dir;
    if 0 <= nr <= 7 && Cell(s.board, nr, col) == None then
      [(nr, col)]
      + (if FirstMoveOf(s, q) && 0 <= row + 2 * dir <= 7 && Cell(s.board, row + 2 * dir, col) == None
         then [(row + 2 * dir, col)] else [])
    else []
  }

  /** The diagonal capture of pawn `q` towards column offset `off`, when an opposing piece stands there. */
  function PawnCapture(s: Position, q: PieceRef, off: int): seq<Tile>
  {
    var nr := TileOf(s, q).0 + Opp(q.color) as int;
    var nc := TileOf(s, q).1 + off;
    if 0 <= nc <= 7 && 0 <= nr <= 7 && Cell(s.board, nr, nc).Some? && Cell(s.board, nr, nc).value.color == Opp(q.color)
    then [(nr, nc)] else []
  }

  /** The captures of the first `n` side offsets. */
  function CapturesUpTo(s: Position, q: PieceRef, n: nat): seq<Tile>
    requires n <= |SideOffsets|
  {
    if n == 0 then [] else CapturesUpTo(s, q, n - 1) + PawnCapture(s, q, SideOffsets[n - 1])
  }

  /**
   * The en-passant target beside pawn `q` at column offset `off`: the square
   * behind the neighbour, when the neighbour is a pawn whose `just_moved`
   * flag is set (of either colour, and whatever stands on the target).
   */
  function EnPassant(s: Position, q: PieceRef, off: int): seq<Tile>
  {
    var row := TileOf(s, q).0;
    var nc := TileOf(s, q).1 + off;
    if 0 <= nc <= 7 && Cell(s.board, row, nc).Some? && Cell(s.board, row, nc).value.kind == Pawn
       && JustMovedOf(s, Cell(s.board, row, nc).value)
    then [(row - q.color, nc)] else []
  }

  /** The en-passant targets of the first `n` side offsets. */
  function EnPassantsUpTo(s: Position, q: PieceRef, n: nat): seq<Tile>
    requires n <= |SideOffsets|
  {
    if n == 0 then [] else EnPassantsUpTo(s, q, n - 1) + EnPassant(s, q, SideOffsets[n - 1])
  }

  /** The cache Pawn.update_possible_moves computes: pushes, then captures, then en-passant targets. */
  function PawnMoves(s: Position, q: PieceRef): seq<Tile>
  {
    PawnPushes(s, q) + CapturesUpTo(s, q, 2) + EnPassantsUpTo(s, q, 2)
  }

  /* ---------- King.update_possible_moves ---------- */

  /** The back rank of a colour, where its king starts. */
  function HomeRow(c: Color): int
  {
    if c == 1 then 7 else 0
  }

  /** `_tiles_empty` on a grid: no listed square holds a piece. */
  predicate AllEmpty(b: Board, tiles: seq<Tile>)
  {
    forall i :: 0 <= i < |tiles| ==> At(b, tiles[i]) == None
  }

  /**
   * `_tiles_not_attacked`: neither a listed square nor the king's home square
   * of `color` occurs in the cached moves of any piece of the other colour.
   */
  predicate Unattacked(s: Position, color: Color, tiles: seq<Tile>)
  {
    var checked := tiles + [(HomeRow(color), 4)];
    var opp := Registry(s, Opp(color));
    forall i, j :: 0 <= i < |opp| && 0 <= j < |checked| ==> checked[j] !in MovesOf(s, opp[i])
  }

  /** A rook link that names a piece that has not moved yet. */
  predicate RookReady(s: Position, link: Option<PieceRef>)
  {
    link.Some? && FirstMoveOf(s, link.value)
  }

  /** `_check_castling`: the castling targets added to the king's cache, kingside before queenside. */
  function CastlingMoves(s: Position, k: PieceRef): seq<Tile>
  {
    if !FirstMoveOf(s, k) then [] else Kingside(s, k) + Queenside(s, k)
  }

  /** One side's castling target, when its rook link, its empty squares and its attack test allow it. */
  function SideCastling(s: Position, k: PieceRef, link: Option<PieceRef>, empties: seq<Tile>, checks: seq<Tile>, target: Tile): seq<Tile>
  {
    if RookReady(s, link) && AllEmpty(s.board, empties) && Unattacked(s, k.color, checks) then [target] else []
  }

  /** The kingside target (row, 6): right rook, (row, 5) and (row, 6) empty and not attacked. */
  function Kingside(s: Position, k: PieceRef): seq<Tile>
    requires k in s.pieces
  {
    var row := HomeRow(k.color);
    SideCastling(s, k, s.pieces[k].rookRight, [(row, 5), (row, 6)], [(row, 5), (row, 6)], (row, 6))
  }

  /** The queenside target (row, 2): left rook, (row, 1) to (row, 3) empty, (row, 2) and (row, 3) not attacked. */
  function Queenside(s: Position, k: PieceRef): seq<Tile>
    requires k in s.pieces
  {
    var row := HomeRow(k.color);
    SideCastling(s, k, s.pieces[k].rookLeft, [(row, 1), (row, 2), (row, 3)], [(row, 2), (row, 3)], (row, 2))
  }

  /* ---------- the cache of every class ---------- */

  /** What `update_possible_moves` of the piece's class writes to its cache. */
  function PseudoMoves(s: Position, q: PieceRef): seq<Tile>
  {
    var t := TileOf(s, q);
    match q.kind
    case Pawn => PawnMoves(s, q)
    case Knight => KnightMoves(s.board, t, q.color)
    case Bishop => LinearMoves(s.board, t, q.color, BishopDirections)
    case Rook => LinearMoves(s.board, t, q.color, RookDirections)
    case Queen => LinearMoves(s.board, t, q.color, QueenDirections)
    case King => KingMoves(s.board, t, q.color) + CastlingMoves(s, q)
  }

  /* ---------- reference definitions and lemmas ---------- */

  /** A forward move: the next row towards `-color` when empty, or two rows on the first move when both are empty. */
  ghost predicate PushTarget(s: Position, q: PieceRef, t: Tile)
  {
    var (row, col) := TileOf(s, q);
    var dir := Opp(q.color) as int;
    t.1 == col && OnBoard(t) && At(s.board, t) == None
    && (t.0 == row + dir
        || (t.0 == row + 2 * dir && FirstMoveOf(s, q) && At(s.board, (row + dir, col)) == None))
  }

  /** A diagonal capture: one row forward, one column aside, onto a piece of the other colour. */
  ghost predicate CaptureTarget(s: Position, q: PieceRef, t: Tile)
  {
    var (row, col) := TileOf(s, q);
    OnBoard(t) && t.0 == row + Opp(q.color) as int && Abs(t.1 - col) == 1
    && At(s.board, t).Some? && At(s.board, t).value.color == Opp(q.color)
  }

  /** An en-passant target: behind a same-row neighbour that is a pawn with `just_moved` set. */
  ghost predicate EnPassantTarget(s: Position, q: PieceRef, t: Tile)
  {
    var (row, col) := TileOf(s, q);
    t.0 == row - q.color && Abs(t.1 - col) == 1 && 0 <= t.1 <= 7
    && Cell(s.board, row, t.1).Some? && Cell(s.board, row, t.1).value.kind == Pawn
    && JustMovedOf(s, Cell(s.board, row, t.1).value)
  }

  /**
   * A pawn on the board has exactly the pushes, captures and en-passant
   * targets above in its cache.
   */
  lemma PawnMovesIff(s: Position, q: PieceRef, t: Tile)
    requires OnBoard(TileOf(s, q))
    ensures t in PawnMoves(s, q) <==> PushTarget(s, q, t) || CaptureTarget(s, q, t) || EnPassantTarget(s, q, t)
  {
    PushesIff(s, q, t);
    CapturesIff(s, q, t);
    EnPassantsIff(s, q, t);
  }

  lemma PushesIff(s: Position, q: PieceRef, t: Tile)
    requires OnBoard(TileOf(s, q))
    ensures t in PawnPushes(s, q) <==> PushTarget(s, q, t)
  {
  }

  lemma CapturesIff(s: Position, q: PieceRef, t: Tile)
    ensures t in CapturesUpTo(s, q, 2) <==> CaptureTarget(s, q, t)
  {
    SideLoops(s, q);
  }

  lemma EnPassantsIff(s: Position, q: PieceRef, t: Tile)
    ensures t in EnPassantsUpTo(s, q, 2) <==> EnPassantTarget(s, q, t)
  {
    SideLoops(s, q);
  }

  /** A pawn's moves read the grid and the piece fields, never a cache. */
  lemma PawnReadsNoCache(s: Position, s': Position, q: PieceRef)
    requires s.board == s'.board && s.pieces == s'.pieces
    ensures PawnPushes(s, q) == PawnPushes(s', q)
    ensures CapturesUpTo(s, q, 2) == CapturesUpTo(s', q, 2)
    ensures EnPassantsUpTo(s, q, 2) == EnPassantsUpTo(s', q, 2)
  {
    PushesReadNoCache(s, s', q);
    SideLoops(s, q);
    SideLoops(s', q);
    SideReadsNoCache(s, s', q, -1);
    SideReadsNoCache(s, s', q, 1);
  }

  lemma PushesReadNoCache(s: Position, s': Position, q: PieceRef)
    requires s.board == s'.board && s.pieces == s'.pieces
    ensures PawnPushes(s, q) == PawnPushes(s', q)
  {
    assert TileOf(s, q) == TileOf(s', q) && FirstMoveOf(s, q) == FirstMoveOf(s', q);
  }

  lemma SideReadsNoCache(s: Position, s': Position, q: PieceRef, off: int)
    requires s.board == s'.board && s.pieces == s'.pieces
    ensures PawnCapture(s, q, off) == PawnCapture(s', q, off)
    ensures EnPassant(s, q, off) == EnPassant(s', q, off)
  {
    assert TileOf(s, q) == TileOf(s', q);
  }

  /** The two side loops unrolled. */
  lemma SideLoops(s: Position, q: PieceRef)
    ensures CapturesUpTo(s, q, 2) == PawnCapture(s, q, -1) + PawnCapture(s, q, 1)
    ensures EnPassantsUpTo(s, q, 2) == EnPassant(s, q, -1) + EnPassant(s, q, 1)
  {
    assert SideOffsets[0] == -1 && SideOffsets[1] == 1;
    assert CapturesUpTo(s, q, 1) == [] + PawnCapture(s, q, -1) == PawnCapture(s, q, -1);
    assert EnPassantsUpTo(s, q, 1) == [] + EnPassant(s, q, -1) == EnPassant(s, q, -1);
  }

  /**
   * Castling is offered only to a king that has not moved, onto (row, 6) or
   * (row, 2) of its home row: kingside when the right rook has not moved,
   * (row, 5) and (row, 6) are empty and neither they nor (row, 4) is in an
   * opposing cache; queenside likewise with the left rook, (row, 1) to
   * (row, 3) empty and (row, 2), (row, 3), (row, 4) not cached.
   */
  lemma CastlingIff(s: Position, k: PieceRef, t: Tile)
    ensures t in CastlingMoves(s, k) <==>
      FirstMoveOf(s, k) &&
      var row := HomeRow(k.color);
      var opp := Registry(s, Opp(k.color));
      (t == (row, 6) && RookReady(s, s.pieces[k].rookRight)
       && Cell(s.board, row, 5) == None && Cell(s.board, row, 6) == None
       && forall i, c :: 0 <= i < |opp| && 4 <= c <= 6 ==> (row, c) !in MovesOf(s, opp[i]))
      || (t == (row, 2) && RookReady(s, s.pieces[k].rookLeft)
          && Cell(s.board, row, 1) == None && Cell(s.board, row, 2) == None && Cell(s.board, row, 3) == None
          && forall i, c :: 0 <= i < |opp| && 2 <= c <= 4 ==> (row, c) !in MovesOf(s, opp[i]))
  {
    if FirstMoveOf(s, k) {
      var row := HomeRow(k.color);
      var opp := Registry(s, Opp(k.color));
      var ks, qs := [(row, 5), (row, 6)], [(row, 2), (row, 3)];
      assert ks + [(row, 4)] == [(row, 5), (row, 6), (row, 4)];
      assert qs + [(row, 4)] == [(row, 2), (row, 3), (row, 4)];
      assert Unattacked(s, k.color, ks) <==> forall i, c :: 0 <= i < |opp| && 4 <= c <= 6 ==> (row, c) !in MovesOf(s, opp[i]) by {
        if Unattacked(s, k.color, ks) {
          forall i, c | 0 <= i < |opp| && 4 <= c <= 6 ensures (row, c) !in MovesOf(s, opp[i]) {
            var j := if c == 5 then 0 else if c == 6 then 1 else 2;
            assert (ks + [(row, 4)])[j] == (row, c);
          }
        }
      }
      assert Unattacked(s, k.color, qs) <==> forall i, c :: 0 <= i < |opp| && 2 <= c <= 4 ==> (row, c) !in MovesOf(s, opp[i]) by {
        if Unattacked(s, k.color, qs) {
          forall i, c | 0 <= i < |opp| && 2 <= c <= 4 ensures (row, c) !in MovesOf(s, opp[i]) {
            var j := c - 2;
            assert (qs + [(row, 4)])[j] == (row, c);
          }
        }
      }
      var qe := [(row, 1), (row, 2), (row, 3)];
      assert At(s.board, qe[0]) == Cell(s.board, row, 1) && At(s.board, qe[1]) == Cell(s.board, row, 2)
             && At(s.board, qe[2]) == Cell(s.board, row, 3);
      assert At(s.board, ks[0]) == Cell(s.board, row, 5) && At(s.board, ks[1]) == Cell(s.board, row, 6);
    }
  }

  /**
   * A king's cache: its one-step squares (on the board, open, at king
   * distance 1) and its castling targets.
   */
  lemma KingPseudoIff(s: Position, k: PieceRef, t: Tile)
    requires k.kind == King
    ensures t in PseudoMoves(s, k) <==>
            (OnBoard(t) && Open(s.board, t, k.color) && Chebyshev(TileOf(s, k), t) == 1) || t in CastlingMoves(s, k)
  {
    KingMovesIff(s.board, TileOf(s, k), k.color, t);
  }

  /**
   * The queen's cache is the rook's directions followed by the bishop's, from
   * the same square.
   */
  lemma QueenPseudo(s: Position, q: PieceRef)
    requires q.kind == Queen
    ensures PseudoMoves(s, q) == LinearMoves(s.board, TileOf(s, q), q.color, RookDirections)
                                 + LinearMoves(s.board, TileOf(s, q), q.color, BishopDirections)
  {
    QueenIsRookThenBishop(s.board, TileOf(s, q), q.color);
  }

  /** The pieces of a piece's own colour never matter to its castling targets: only the opposing caches do. */
  lemma CastlingFrame(s: Position, s': Position, k: PieceRef)
    requires s.board == s'.board && s.pieces == s'.pieces
    requires Registry(s, Opp(k.color)) == Registry(s', Opp(k.color))
    requires forall y :: y in Registry(s, Opp(k.color)) ==> MovesOf(s, y) == MovesOf(s', y)
    ensures CastlingMoves(s, k) == CastlingMoves(s', k)
  {
    if FirstMoveOf(s, k) {
      var opp := Registry(s, Opp(k.color));
      assert forall i :: 0 <= i < |opp| ==> MovesOf(s, opp[i]) == MovesOf(s', opp[i]);
    }
  }

  /**
   * A piece's cache depends only on the grid, the piece fields, and the
   * caches of the opposing colour's list; in particular recomputing caches
   * of one colour never changes what another piece of that colour computes.
   */
  lemma PseudoFrame(s: Position, s': Position, q: PieceRef)
    requires s.board == s'.board && s.pieces == s'.pieces
    requires Registry(s, Opp(q.color)) == Registry(s', Opp(q.color))
    requires forall y :: y in Registry(s, Opp(q.color)) ==> MovesOf(s, y) == MovesOf(s', y)
    ensures PseudoMoves(s, q) == PseudoMoves(s', q)
  {
    if q.kind == King {
      CastlingFrame(s, s', q);
    } else if q.kind == Pawn {
      assert PawnPushes(s, q) == PawnPushes(s', q);
      PawnReadsNoCache(s, s', q);
    }
  }

  /* ---------- the update methods ---------- */

  /** `_check_en_passant`: appends the en-passant targets, offset -1 before 1. */
  method CheckEnPassant(gs: GameState, q: PieceRef, ghost s0: Position)
    requires q in gs.pieces && q in gs.moves && gs.board == s0.board && gs.pieces == s0.pieces
    modifies gs`moves
    ensures gs.moves == old(gs.moves)[q := old(gs.moves)[q] + EnPassantsUpTo(s0, q, 2)]
  {
    ghost var s := gs.Pos();
    var row := gs.pieces[q].tile.0;
    var col := gs.pieces[q].tile.1;
    var i := 0;
    assert s.moves[q] + EnPassantsUpTo(s0, q, 0) == s.moves[q];
    while i < |SideOffsets|
      invariant 0 <= i <= |SideOffsets|
      invariant gs.moves == s.moves[q := s.moves[q] + EnPassantsUpTo(s0, q, i)]
    {
      ghost var before := gs.moves[q];
      var nc := col + SideOffsets[i];
      if 0 <= nc <= 7 {
        var adjacent := gs.GetPieceAt(row, nc);
        if adjacent.Some? && adjacent.value.kind == Pawn && adjacent.value in gs.pieces && gs.pieces[adjacent.value].justMoved {
          gs.moves := gs.moves[q := gs.moves[q] + [(row - q.color, nc)]];
        }
      }
      assert gs.moves[q] == before + EnPassant(s0, q, SideOffsets[i]);
      assert s.moves[q] + EnPassantsUpTo(s0, q, i + 1) == (s.moves[q] + EnPassantsUpTo(s0, q, i)) + EnPassant(s0, q, SideOffsets[i]);
      i := i + 1;
    }
  }

  /** The forward-move part of Pawn.update_possible_moves, appended to an emptied cache. */
  method AppendPushes(gs: GameState, q: PieceRef, ghost s0: Position)
    requires q in gs.pieces && q in gs.moves && gs.moves[q] == [] && gs.board == s0.board && gs.pieces == s0.pieces
    modifies gs`moves
    ensures gs.moves == old(gs.moves)[q := PawnPushes(s0, q)]
  {
    ghost var s := gs.Pos();
    var row := gs.pieces[q].tile.0;
    var col := gs.pieces[q].tile.1;
    var dir := Opp(q.color) as int;
    var nr := row + dir;
    if 0 <= nr <= 7 {
      if gs.GetPieceAt(nr, col) == None {
        gs.moves := gs.moves[q := gs.moves[q] + [(nr, col)]];
        if gs.pieces[q].firstMove {
          var dr := row + 2 * dir;
          if 0 <= dr <= 7 && gs.GetPieceAt(dr, col) == None {
            gs.moves := gs.moves[q := gs.moves[q] + [(dr, col)]];
            assert gs.moves[q] == [(nr, col)] + [(dr, col)];
          } else {
            assert gs.moves[q] == [(nr, col)] + [];
          }
        } else {
          assert gs.moves[q] == [(nr, col)] + [];
        }
      }
    }
  }

  /** The diagonal-capture loop of Pawn.update_possible_moves, offset -1 before 1. */
  method AppendCaptures(gs: GameState, q: PieceRef, ghost s0: Position)
    requires q in gs.pieces && q in gs.moves && gs.board == s0.board && gs.pieces == s0.pieces
    modifies gs`moves
    ensures gs.moves == old(gs.moves)[q := old(gs.moves)[q] + CapturesUpTo(s0, q, 2)]
  {
    ghost var s := gs.Pos();
    var col := gs.pieces[q].tile.1;
    var nr := gs.pieces[q].tile.0 + Opp(q.color) as int;
    var i := 0;
    assert s.moves[q] + CapturesUpTo(s0, q, 0) == s.moves[q];
    while i < |SideOffsets|
      invariant 0 <= i <= |SideOffsets|
      invariant gs.moves == s.moves[q := s.moves[q] + CapturesUpTo(s0, q, i)]
    {
      ghost var before := gs.moves[q];
      var nc := col + SideOffsets[i];
      ghost var hit := PawnCapture(s0, q, SideOffsets[i]);
      assert hit == (if 0 <= nc <= 7 && 0 <= nr <= 7 && Cell(gs.board, nr, nc).Some? && Cell(gs.board, nr, nc).value.color == Opp(q.color)
                     then [(nr, nc)] else []);
      if 0 <= nc <= 7 && 0 <= nr <= 7 {
        var target := gs.GetPieceAt(nr, nc);
        if target.Some? && target.value.color == Opp(q.color) {
          gs.moves := gs.moves[q := gs.moves[q] + [(nr, nc)]];
        }
      }
      assert gs.moves[q] == before + hit;
      assert s.moves[q] + CapturesUpTo(s0, q, i + 1) == (s.moves[q] + CapturesUpTo(s0, q, i)) + PawnCapture(s0, q, SideOffsets[i]);
      i := i + 1;
    }
  }

  /** Pawn.update_possible_moves: resets the cache, then appends pushes, captures and en-passant targets. */
  method UpdatePawnMoves(gs: GameState, q: PieceRef)
    requires gs.Valid() && q in gs.pieces && q.kind == Pawn
    modifies gs`moves
    ensures gs.Valid()
    ensures gs.moves == old(gs.moves)[q := PawnMoves(old(gs.Pos()), q)]
  {
    ghost var s := gs.Pos();
    gs.moves := gs.moves[q := []];
    AppendPushes(gs, q, s);
    AppendCaptures(gs, q, s);
    CheckEnPassant(gs, q, s);
    assert gs.Pos() == s.(moves := s.moves[q := PawnMoves(s, q)]);
    CacheWf(s, q, PawnMoves(s, q));
  }

  /** `_tiles_empty`: no listed square holds a piece. */
  method TilesEmpty(gs: GameState, tiles: seq<Tile>) returns (b: bool)
    ensures b == AllEmpty(gs.board, tiles)
  {
    var i := 0;
    while i < |tiles|
      invariant 0 <= i <= |tiles|
      invariant forall j :: 0 <= j < i ==> At(gs.board, tiles[j]) == None
    {
      if gs.GetPieceAt(tiles[i].0, tiles[i].1).Some? {
        return false;
      }
      i := i + 1;
    }
    return true;
  }

  /** `_tiles_not_attacked`: no opposing cache holds a listed square or the king's home square. */
  method TilesNotAttacked(gs: GameState, k: PieceRef, tiles: seq<Tile>) returns (b: bool)
    requires gs.Valid()
    ensures b == Unattacked(gs.Pos(), k.color, tiles)
  {
    var checked: seq<Tile>;
    var opp: seq<PieceRef>;
    if k.color == 1 {
      checked := tiles + [(7, 4)];
      opp := gs.GetPiecesByColor(-1);
    } else {
      checked := tiles + [(0, 4)];
      opp := gs.GetPiecesByColor(1);
    }
    var i := 0;
    while i < |opp|
      invariant 0 <= i <= |opp|
      invariant forall i', j :: 0 <= i' < i && 0 <= j < |checked| ==> checked[j] !in MovesOf(gs.Pos(), opp[i'])
    {
      var j := 0;
      while j < |checked|
        invariant 0 <= j <= |checked|
        invariant forall j' :: 0 <= j' < j ==> checked[j'] !in MovesOf(gs.Pos(), opp[i])
      {
        if checked[j] in gs.moves[opp[i]] {
          assert checked == tiles + [(HomeRow(k.color), 4)] && opp == Registry(gs.Pos(), Opp(k.color));
          assert checked[j] in MovesOf(gs.Pos(), opp[i]);
          return false;
        }
        j := j + 1;
      }
      i := i + 1;
    }
    return true;
  }

  /** One side of `_check_castling`: appends `target` when the rook, the empty squares and the attack test allow it. */
  method TryCastle(gs: GameState, k: PieceRef, link: Option<PieceRef>, empties: seq<Tile>, checks: seq<Tile>, target: Tile)
    requires gs.Valid() && k in gs.pieces
    modifies gs`moves
    ensures gs.Valid()
    ensures gs.moves == old(gs.moves)[k := old(gs.moves)[k] + SideCastling(old(gs.Pos()), k, link, empties, checks, target)]
  {
    ghost var s := gs.Pos();
    assert s.moves[k] + [] == s.moves[k];
    if link.Some? && link.value in gs.pieces && gs.pieces[link.value].firstMove {
      var empty := TilesEmpty(gs, empties);
      if empty {
        var safe := TilesNotAttacked(gs, k, checks);
        if safe {
          gs.moves := gs.moves[k := gs.moves[k] + [target]];
        }
      }
    }
  }

  /** `_check_castling`: appends the castling targets to the king's cache, kingside first. */
  method CheckCastling(gs: GameState, k: PieceRef)
    requires gs.Valid() && k in gs.pieces
    modifies gs`moves
    ensures gs.Valid()
    ensures gs.moves == old(gs.moves)[k := old(gs.moves)[k] + CastlingMoves(old(gs.Pos()), k)]
  {
    ghost var s := gs.Pos();
    if !gs.pieces[k].firstMove {
      assert old(gs.moves)[k] + CastlingMoves(s, k) == gs.moves[k];
      return;
    }
    var row := if k.color == 1 then 7 else 0;
    TryCastle(gs, k, gs.pieces[k].rookRight, [(row, 5), (row, 6)], [(row, 5), (row, 6)], (row, 6));
    OwnCacheIrrelevant(s, gs.Pos(), k);
    ghost var s1 := gs.Pos();
    assert Queenside(s1, k) == Queenside(s, k);
    TryCastle(gs, k, gs.pieces[k].rookLeft, [(row, 1), (row, 2), (row, 3)], [(row, 2), (row, 3)], (row, 2));
    assert CastlingMoves(s, k) == Kingside(s, k) + Queenside(s, k);
    assert (s.moves[k] + Kingside(s, k)) + Queenside(s, k) == s.moves[k] + (Kingside(s, k) + Queenside(s, k));
  }

  /** Changing a king's own cache does not change what the opposing caches say about its squares. */
  lemma OwnCacheIrrelevant(s: Position, s': Position, k: PieceRef)
    requires Wf(s) && s'.board == s.board && s'.pieces == s.pieces && s'.white == s.white && s'.black == s.black
    requires k in s.pieces && k in s'.moves && s'.moves == s.moves[k := s'.moves[k]]
    ensures forall tiles :: Unattacked(s, k.color, tiles) == Unattacked(s', k.color, tiles)
  {
    RegistryMembers(s, Opp(k.color));
    var opp := Registry(s, Opp(k.color));
    assert forall i :: 0 <= i < |opp| ==> MovesOf(s, opp[i]) == MovesOf(s', opp[i]);
  }

  /** King.update_possible_moves: the one-step squares, then the castling targets. */
  method UpdateKingMoves(gs: GameState, k: PieceRef)
    requires gs.Valid() && k in gs.pieces && k.kind == King
    modifies gs`moves
    ensures gs.Valid()
    ensures gs.moves == old(gs.moves)[k := PseudoMoves(old(gs.Pos()), k)]
  {
    ghost var s := gs.Pos();
    gs.moves := gs.moves[k := KingMoves(gs.board, gs.pieces[k].tile, k.color)];
    CastlingFrame(s, gs.Pos(), k);
    CheckCastling(gs, k);
  }

  /** `update_possible_moves`, dispatched on the piece's class. */
  method UpdatePossibleMoves(gs: GameState, q: PieceRef)
    requires gs.Valid() && q in gs.pieces
    modifies gs`moves
    ensures gs.Valid()
    ensures gs.moves == old(gs.moves)[q := PseudoMoves(old(gs.Pos()), q)]
  {
    var t := gs.pieces[q].tile;
    match q.kind
    case Pawn => UpdatePawnMoves(gs, q);
    case King => UpdateKingMoves(gs, q);
    case Knight => gs.moves := gs.moves[q := KnightMoves(gs.board, t, q.color)];
    case Bishop => gs.moves := gs.moves[q := LinearMoves(gs.board, t, q.color, BishopDirections)];
    case Rook => gs.moves := gs.moves[q := LinearMoves(gs.board, t, q.color, RookDirections)];
    case Queen => gs.moves := gs.moves[q := LinearMoves(gs.board, t, q.color, QueenDirections)];
  }
}
