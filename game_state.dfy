/** The board, the per-colour piece registries and the kings of one game (src/game_state.py). */
module GameStates {
  import opened Common

  /** 1 for white, -1 for black. */
  type Color = c: int | c == 1 || c == -1 witness 1

  /** The opponent's colour, `-color` in the source. */
  function Opp(c: Color): (o: Color)
    ensures o as int == -(c as int)
  {
    if c == 1 then -1 else 1
  }

  /** The concrete piece classes of src/all_pieces.py. */
  datatype Kind = Pawn | Knight | Bishop | Rook | Queen | King

  /** (row, col); row 0 is black's back rank and row 7 white's. */
  type Tile = (int, int)

  /**
   * The identity of one piece object. The class (kind) and the colour of a
   * piece never change after construction; the serial tells apart objects of
   * the same class and colour.
   */
  datatype PieceRef = PieceRef(serial: nat, kind: Kind, color: Color)

  /**
   * The fields of a piece object that the engine updates in place, except its
   * move cache: `tile`, `first_move`, a pawn's `just_moved` and a king's
   * `rook_left` / `rook_right` links (None for the other classes).
   */
  datatype PieceInfo = PieceInfo(tile: Tile, firstMove: bool, justMoved: bool,
                                 rookLeft: Option<PieceRef>, rookRight: Option<PieceRef>)

  /** One cell of the grid: a piece or nothing. */
  type Square = Option<PieceRef>

  predicate IsGrid(b: seq<seq<Square>>)
  {
    |b| == 8 && forall r :: 0 <= r < 8 ==> |b[r]| == 8
  }

  function EmptyGrid(): (b: seq<seq<Square>>)
    ensures IsGrid(b)
  {
    seq(8, _ => seq(8, _ => None))
  }

  /** The 8x8 grid of the game state. */
  type Board = b: seq<seq<Square>> | IsGrid(b) witness EmptyGrid()

  predicate InBounds(r: int, c: int)
  {
    0 <= r <= 7 && 0 <= c <= 7
  }

  predicate OnBoard(t: Tile)
  {
    InBounds(t.0, t.1)
  }

  /** The cell at (r, c), and None for every coordinate off the board. */
  function Cell(b: Board, r: int, c: int): Square
  {
    if InBounds(r, c) then b[r][c] else None
  }

  function At(b: Board, t: Tile): Square
  {
    Cell(b, t.0, t.1)
  }

  /** The grid with the cell (r, c) replaced; unchanged when (r, c) is off the board. */
  function SetCell(b: Board, r: int, c: int, v: Square): (b': Board)
    ensures forall r', c' :: Cell(b', r', c') == if InBounds(r, c) && r' == r && c' == c then v else Cell(b, r', c')
  {
    if InBounds(r, c) then b[r := b[r][c := v]] else b
  }

  function Put(b: Board, t: Tile, v: Square): (b': Board)
    ensures forall r', c' :: Cell(b', r', c') == if OnBoard(t) && r' == t.0 && c' == t.1 then v else Cell(b, r', c')
  {
    SetCell(b, t.0, t.1, v)
  }

  /** Two grids that agree on every cell are equal. */
  lemma {:induction false} BoardExt(a: Board, b: Board)
    requires forall r, c :: Cell(a, r, c) == Cell(b, r, c)
    ensures a == b
  {
    forall r | 0 <= r < 8 ensures a[r] == b[r] {
      forall c | 0 <= c < 8 ensures a[r][c] == b[r][c] {
        assert Cell(a, r, c) == Cell(b, r, c);
      }
    }
  }

  /** Writing a cell twice keeps only the second write. */
  lemma PutPut(b: Board, t: Tile, v: Square, w: Square)
    ensures Put(Put(b, t, v), t, w) == Put(b, t, w)
  {
    BoardExt(Put(Put(b, t, v), t, w), Put(b, t, w));
  }

  /** Writing back the value a cell already holds changes nothing. */
  lemma PutSame(b: Board, t: Tile)
    ensures Put(b, t, At(b, t)) == b
  {
    BoardExt(Put(b, t, At(b, t)), b);
  }

  /**
   * Clearing one cell, writing a second and then writing the first back, each
   * with the value it held, restores the grid (whether or not the two cells
   * coincide).
   */
  lemma RestoreTwo(b: Board, t: Tile, u: Tile, w: Square)
    requires At(b, t) == w || !OnBoard(t)
    ensures Put(Put(Put(b, u, None), t, w), u, At(b, u)) == b
  {
    BoardExt(Put(Put(Put(b, u, None), t, w), u, At(b, u)), b);
  }

  /** `add_piece` on one colour list: append unless already present. */
  function Added(reg: seq<PieceRef>, p: PieceRef): (r: seq<PieceRef>)
    ensures p in r && forall x :: x in r <==> x in reg || x == p
    ensures NoDup(reg) ==> NoDup(r)
    ensures p in reg ==> r == reg
    ensures multiset(r) == if p in reg then multiset(reg) else multiset(reg) + multiset{p}
  {
    if p in reg then reg else reg + [p]
  }

  /** `remove_piece` on one colour list: drop the first occurrence when present. */
  function Removed(reg: seq<PieceRef>, p: PieceRef): (r: seq<PieceRef>)
    ensures p !in reg ==> r == reg
    ensures multiset(r) == multiset(reg) - multiset{p}
    ensures forall x :: x in r ==> x in reg
    ensures forall x :: x in reg && x != p ==> x in r
    ensures NoDup(reg) ==> NoDup(r) && p !in r
  {
    RemoveFirstCount(reg, p);
    RemoveFirstMembers(reg, p);
    if p in reg then
      if NoDup(reg) then RemoveFirstNoDup(reg, p); RemoveFirst(reg, p) else RemoveFirst(reg, p)
    else reg
  }

  /** Adding a piece twice is adding it once. */
  lemma AddedIdempotent(reg: seq<PieceRef>, p: PieceRef)
    ensures Added(Added(reg, p), p) == Added(reg, p)
  {
  }

  /**
   * Taking a listed piece out and putting it back keeps the same pieces; it
   * only moves that piece to the end of the list.
   */
  lemma {:induction false} RemovedThenAdded(reg: seq<PieceRef>, p: PieceRef)
    requires NoDup(reg) && p in reg
    ensures NoDup(Added(Removed(reg, p), p))
    ensures multiset(Added(Removed(reg, p), p)) == multiset(reg)
    ensures forall x :: x in Added(Removed(reg, p), p) <==> x in reg
  {
    var r := Removed(reg, p);
    assert p !in r;
    assert multiset(Added(r, p)) == multiset(r) + multiset{p};
    assert p in multiset(reg);
  }

  /** A snapshot of everything the rules read: grid, piece fields, move caches and colour lists. */
  datatype Position = Position(board: Board,
                               pieces: map<PieceRef, PieceInfo>,
                               moves: map<PieceRef, seq<Tile>>,
                               white: seq<PieceRef>,
                               black: seq<PieceRef>)

  /** `get_pieces_by_color` on a snapshot. */
  function Registry(s: Position, c: Color): seq<PieceRef>
  {
    if c == 1 then s.white else s.black
  }

  /** A piece's `available_moves`. */
  function MovesOf(s: Position, x: PieceRef): seq<Tile>
  {
    if x in s.moves then s.moves[x] else []
  }

  function TileOf(s: Position, x: PieceRef): Tile
  {
    if x in s.pieces then s.pieces[x].tile else (-1, -1)
  }

  predicate FirstMoveOf(s: Position, x: PieceRef)
  {
    x in s.pieces && s.pieces[x].firstMove
  }

  predicate JustMovedOf(s: Position, x: PieceRef)
  {
    x in s.pieces && s.pieces[x].justMoved
  }

  /** The piece stands on the cell its `tile` names. */
  predicate Placed(s: Position, x: PieceRef)
  {
    x in s.pieces && At(s.board, s.pieces[x].tile) == Some(x)
  }

  predicate AllPlaced(s: Position, xs: seq<PieceRef>)
  {
    forall x :: x in xs ==> Placed(s, x)
  }

  /** A colour list without duplicates whose members are known pieces of that colour. */
  predicate RegistryOk(s: Position, reg: seq<PieceRef>, c: Color)
  {
    NoDup(reg) && forall x :: x in reg ==> x in s.pieces && x.color == c
  }

  /** Every piece on the grid is a known piece. */
  ghost predicate BoardOk(s: Position)
  {
    forall r, c :: Cell(s.board, r, c).Some? ==> Cell(s.board, r, c).value in s.pieces
  }

  /** The consistency every operation of the engine keeps. */
  ghost predicate Wf(s: Position)
  {
    s.moves.Keys == s.pieces.Keys
    && RegistryOk(s, s.white, 1) && RegistryOk(s, s.black, -1)
    && BoardOk(s)
  }

  /** `add_piece` on a snapshot: None is ignored, otherwise the piece joins its colour's list. */
  function WithAdded(s: Position, p: Square): (s': Position)
    ensures s'.board == s.board && s'.pieces == s.pieces && s'.moves == s.moves
  {
    if p.None? then s
    else if p.value.color == 1 then s.(white := Added(s.white, p.value))
    else s.(black := Added(s.black, p.value))
  }

  /** `remove_piece` on a snapshot: None is ignored, otherwise the piece leaves its colour's list. */
  function WithRemoved(s: Position, p: Square): (s': Position)
    ensures s'.board == s.board && s'.pieces == s.pieces && s'.moves == s.moves
  {
    if p.None? then s
    else if p.value.color == 1 then s.(white := Removed(s.white, p.value))
    else s.(black := Removed(s.black, p.value))
  }

  /** Adding or removing a known piece keeps a snapshot consistent. */
  lemma WithAddedRemovedWf(s: Position, p: Square)
    requires Wf(s) && (p.Some? ==> p.value in s.pieces)
    ensures Wf(WithAdded(s, p)) && Wf(WithRemoved(s, p))
  {
  }

  /** The colour list `c` after `remove_piece`: only the list of the removed piece's colour changes. */
  lemma RemovedRegistry(s: Position, x: Square, c: Color)
    ensures Registry(WithRemoved(s, x), c) == if x.Some? && x.value.color == c then Removed(Registry(s, c), x.value) else Registry(s, c)
  {
  }

  /** The colour list `c` after `add_piece`: only the list of the added piece's colour changes. */
  lemma AddedRegistry(s: Position, x: Square, c: Color)
    ensures Registry(WithAdded(s, x), c) == if x.Some? && x.value.color == c then Added(Registry(s, c), x.value) else Registry(s, c)
  {
  }

  /** Writing a known piece, or None, into a cell keeps a snapshot consistent. */
  lemma PutWf(s: Position, t: Tile, x: Square)
    requires Wf(s) && (x.Some? ==> x.value in s.pieces)
    ensures Wf(s.(board := Put(s.board, t, x)))
  {
    var s' := s.(board := Put(s.board, t, x));
    forall r, c | Cell(s'.board, r, c).Some? ensures Cell(s'.board, r, c).value in s'.pieces {
    }
  }

  /** Changing the fields of a known piece keeps a snapshot consistent. */
  lemma InfoWf(s: Position, x: PieceRef, info: PieceInfo)
    requires Wf(s) && x in s.pieces
    ensures Wf(s.(pieces := s.pieces[x := info]))
  {
    var s' := s.(pieces := s.pieces[x := info]);
    forall r, c | Cell(s'.board, r, c).Some? ensures Cell(s'.board, r, c).value in s'.pieces {
    }
  }

  /** A new piece object with an empty move cache keeps a snapshot consistent. */
  lemma FreshWf(s: Position, q: PieceRef, info: PieceInfo)
    requires Wf(s)
    ensures Wf(s.(pieces := s.pieces[q := info], moves := s.moves[q := []]))
  {
    var s' := s.(pieces := s.pieces[q := info], moves := s.moves[q := []]);
    forall r, c | Cell(s'.board, r, c).Some? ensures Cell(s'.board, r, c).value in s'.pieces {
    }
  }

  /** Replacing the move cache of a known piece keeps a snapshot consistent. */
  lemma CacheWf(s: Position, x: PieceRef, ms: seq<Tile>)
    requires Wf(s) && x in s.pieces
    ensures Wf(s.(moves := s.moves[x := ms]))
  {
  }

  lemma RegistryMembers(s: Position, c: Color)
    requires Wf(s)
    ensures RegistryOk(s, Registry(s, c), c)
  {
  }

  /* ---------- the initial position ---------- */

  /** The back-rank class order, files a to h. */
  function BackRankKind(c: int): Kind
  {
    if c == 0 || c == 7 then Rook
    else if c == 1 || c == 6 then Knight
    else if c == 2 || c == 5 then Bishop
    else if c == 3 then Queen
    else King
  }

  predicate StartRow(r: int)
  {
    r == 0 || r == 1 || r == 6 || r == 7
  }

  /** The piece that setup creates for (r, c); serials are numbered from `base`. */
  function InitialRef(base: nat, r: int, c: int): PieceRef
    requires InBounds(r, c)
  {
    PieceRef(base + 8 * r + c,
             if r == 0 || r == 7 then BackRankKind(c) else Pawn,
             if r < 4 then -1 else 1)
  }

  function InitialRank(base: nat, r: int): (row: seq<Square>)
    requires 0 <= r < 8
    ensures |row| == 8
  {
    if StartRow(r) then seq(8, c requires 0 <= c < 8 => Some(InitialRef(base, r, c)))
    else seq(8, _ => None)
  }

  function InitialBoard(base: nat): Board
  {
    seq(8, r requires 0 <= r < 8 => InitialRank(base, r))
  }

  function InitialInfo(base: nat, r: int, c: int): PieceInfo
    requires InBounds(r, c)
  {
    var isKing := InitialRef(base, r, c).kind == King;
    PieceInfo((r, c), true, false,
              if isKing then Some(InitialRef(base, r, 0)) else None,
              if isKing then Some(InitialRef(base, r, 7)) else None)
  }

  /** The first `k` setup pieces of row `r`, from column 0. */
  function RankPrefix(base: nat, r: int, k: int): seq<PieceRef>
    requires 0 <= r < 8 && 0 <= k <= 8
  {
    seq(k, c requires 0 <= c < k => InitialRef(base, r, c))
  }

  /** The setup pieces of rows r0 .. r - 1, read row by row as setup's list loops do. */
  function Ranks(base: nat, r0: int, r: int): seq<PieceRef>
    requires 0 <= r0 <= r <= 8
    decreases r - r0
  {
    if r == r0 then [] else Ranks(base, r0, r - 1) + RankPrefix(base, r - 1, 8)
  }

  /** The setup piece of (r, c) is known, with its initial fields and an empty move cache. */
  ghost predicate CreatedIn(pieces: map<PieceRef, PieceInfo>, moves: map<PieceRef, seq<Tile>>, base: nat, r: int, c: int)
    requires InBounds(r, c)
  {
    InitialRef(base, r, c) in pieces && pieces[InitialRef(base, r, c)] == InitialInfo(base, r, c)
    && InitialRef(base, r, c) in moves && moves[InitialRef(base, r, c)] == []
  }

  /* ---------- the game state object ---------- */

  class GameState {
    var board: Board
    var pieces: map<PieceRef, PieceInfo>
    var moves: map<PieceRef, seq<Tile>>
    var white: seq<PieceRef>
    var black: seq<PieceRef>
    var whiteKing: Option<PieceRef>
    var blackKing: Option<PieceRef>
    /** Serial for the next piece object; every existing one is below it. */
    var nextSerial: nat

    function Pos(): Position
      reads this
    {
      Position(board, pieces, moves, white, black)
    }

    predicate KingOk(k: Option<PieceRef>, c: Color)
      reads this
    {
      k.Some? ==> k.value in pieces && k.value.kind == King && k.value.color == c
    }

    ghost predicate Valid()
      reads this
    {
      Wf(Pos())
      && KingOk(whiteKing, 1) && KingOk(blackKing, -1)
      && forall x :: x in pieces ==> x.serial < nextSerial
    }

    /** Both kings are known, as every rule that looks up a king needs. */
    ghost predicate Ready()
      reads this
    {
      Valid() && whiteKing.Some? && blackKing.Some?
    }

    /** An empty grid, empty colour lists and no kings. */
    constructor ()
      ensures Valid()
      ensures board == EmptyGrid() && white == [] && black == []
      ensures whiteKing == None && blackKing == None
      ensures pieces == map[] && moves == map[] && nextSerial == 0
    {
      board := EmptyGrid();
      pieces := map[];
      moves := map[];
      white := [];
      black := [];
      whiteKing := None;
      blackKing := None;
      nextSerial := 0;
    }

    /** `get_piece_at`: the cell, or None off the board. */
    function GetPieceAt(r: int, c: int): (p: Square)
      reads this
      ensures InBounds(r, c) ==> p == board[r][c]
      ensures !InBounds(r, c) ==> p == None
    {
      Cell(board, r, c)
    }

    /** `set_piece_at`: writes one cell when it is on the board. */
    method SetPieceAt(r: int, c: int, p: Square)
      requires Valid() && (p.Some? ==> p.value in pieces)
      modifies this`board
      ensures Valid()
      ensures forall r', c' :: GetPieceAt(r', c') == if InBounds(r, c) && r' == r && c' == c then p else old(GetPieceAt(r', c'))
      ensures board == Put(old(board), (r, c), p)
    {
      PutWf(Pos(), (r, c), p);
      board := SetCell(board, r, c, p);
    }

    function GetPiecesByColor(c: Color): (reg: seq<PieceRef>)
      reads this
      ensures reg == Registry(Pos(), c)
      ensures Valid() ==> RegistryOk(Pos(), reg, c)
    {
      if c == 1 then white else black
    }

    function GetKing(c: Color): (k: Option<PieceRef>)
      reads this
      ensures Valid() && k.Some? ==> k.value in pieces && k.value.kind == King && k.value.color == c
    {
      if c == 1 then whiteKing else blackKing
    }

    /** `set_king`: the king slot of colour `c` names the new king; the other colour's slot is kept. */
    method SetKing(c: Color, k: PieceRef)
      requires Valid() && k in pieces && k.kind == King && k.color == c
      modifies this`whiteKing, this`blackKing
      ensures Valid()
      ensures GetKing(c) == Some(k) && GetKing(Opp(c)) == old(GetKing(Opp(c)))
    {
      if c == 1 {
        whiteKing := Some(k);
      } else {
        blackKing := Some(k);
      }
    }

    /** `add_piece`: None is ignored; otherwise appended to its colour list unless present. */
    method AddPiece(p: Square)
      requires Valid() && (p.Some? ==> p.value in pieces)
      modifies this`white, this`black
      ensures Valid()
      ensures Pos() == WithAdded(old(Pos()), p)
      ensures p.None? ==> white == old(white) && black == old(black)
      ensures p.Some? ==> GetPiecesByColor(p.value.color) == Added(old(GetPiecesByColor(p.value.color)), p.value)
                          && GetPiecesByColor(Opp(p.value.color)) == old(GetPiecesByColor(Opp(p.value.color)))
    {
      if p.Some? {
        var x := p.value;
        if x.color == 1 {
          white := Added(white, x);
        } else {
          black := Added(black, x);
        }
      }
    }

    /** `remove_piece`: None and absent pieces are ignored; otherwise dropped from its colour list. */
    method RemovePiece(p: Square)
      requires Valid()
      modifies this`white, this`black
      ensures Valid()
      ensures Pos() == WithRemoved(old(Pos()), p)
      ensures p.None? ==> white == old(white) && black == old(black)
      ensures p.Some? ==> GetPiecesByColor(p.value.color) == Removed(old(GetPiecesByColor(p.value.color)), p.value)
                          && GetPiecesByColor(Opp(p.value.color)) == old(GetPiecesByColor(Opp(p.value.color)))
    {
      if p.Some? {
        var x := p.value;
        if x.color == 1 {
          white := Removed(white, x);
        } else {
          black := Removed(black, x);
        }
      }
    }

    /** The setup piece of (r, c) exists with its initial fields and an empty move cache. */
    ghost predicate Created(base: nat, r: int, c: int)
      requires InBounds(r, c)
      reads this`pieces, this`moves
    {
      CreatedIn(pieces, moves, base, r, c)
    }

    /**
     * `setup_initial_position`: a fresh grid with the 32 pieces of a new game,
     * the colour lists rebuilt from rows 0-1 (black) and 6-7 (white), and both
     * kings linked to their corner rooks.
     */
    method SetupInitialPosition()
      requires Valid()
      modifies this
      ensures Ready()
      ensures board == InitialBoard(old(nextSerial))
      ensures forall r, c :: InBounds(r, c) && StartRow(r) ==> Created(old(nextSerial), r, c)
      ensures forall x :: x in old(pieces) ==> x in pieces && pieces[x] == old(pieces)[x]
      ensures forall x :: x in old(moves) ==> x in moves && moves[x] == old(moves)[x]
      ensures black == Ranks(old(nextSerial), 0, 2) && white == Ranks(old(nextSerial), 6, 8)
      ensures blackKing == Some(InitialRef(old(nextSerial), 0, 4))
      ensures whiteKing == Some(InitialRef(old(nextSerial), 7, 4))
    {
      var base := CreatePieces();
      ClearAndFillBoard(base);
      blackKing := Some(InitialRef(base, 0, 4));
      whiteKing := Some(InitialRef(base, 7, 4));
      ListPieces(base);
      assert CreatedIn(pieces, moves, base, 0, 4) && CreatedIn(pieces, moves, base, 7, 4);
      InitialWf(Pos(), base);
    }

    /** The 32 piece objects of a new game, one per cell of rows 0, 1, 6 and 7, each with an empty move cache. */
    method CreatePieces() returns (base: nat)
      requires moves.Keys == pieces.Keys
      requires forall x :: x in pieces ==> x.serial < nextSerial
      modifies this`pieces, this`moves, this`nextSerial
      ensures base == old(nextSerial) && nextSerial == base + 64
      ensures forall r, c :: InBounds(r, c) && StartRow(r) ==> Created(base, r, c)
      ensures forall x :: x in old(pieces) ==> x in pieces && pieces[x] == old(pieces)[x]
      ensures forall x :: x in old(moves) ==> x in moves && moves[x] == old(moves)[x]
      ensures moves.Keys == pieces.Keys
      ensures forall x :: x in pieces ==> x.serial < nextSerial
    {
      base := nextSerial;
      nextSerial := base + 64;
      var r := 0;
      while r < 8
        invariant 0 <= r <= 8
        invariant forall r', c :: InBounds(r', c) && StartRow(r') && r' < r ==> Created(base, r', c)
        invariant forall x :: x in old(pieces) ==> x in pieces && pieces[x] == old(pieces)[x]
        invariant forall x :: x in old(moves) ==> x in moves && moves[x] == old(moves)[x]
        invariant moves.Keys == pieces.Keys
        invariant forall x :: x in pieces ==> x.serial < base + 8 * r
        modifies this`pieces, this`moves
      {
        if StartRow(r) {
          CreateRank(base, r);
        }
        r := r + 1;
      }
    }

    /** The eight piece objects of start row `r`, created column by column. */
    method CreateRank(base: nat, r: int)
      requires 0 <= r < 8 && StartRow(r)
      requires moves.Keys == pieces.Keys
      requires forall x :: x in pieces ==> x.serial < base + 8 * r
      modifies this`pieces, this`moves
      ensures forall c :: 0 <= c < 8 ==> CreatedIn(pieces, moves, base, r, c)
      ensures forall x :: x in old(pieces) ==> x in pieces && pieces[x] == old(pieces)[x]
      ensures forall x :: x in old(moves) ==> x in moves && moves[x] == old(moves)[x]
      ensures moves.Keys == pieces.Keys
      ensures forall x :: x in pieces ==> x.serial < base + 8 * r + 8
    {
      var c := 0;
      while c < 8
        invariant 0 <= c <= 8
        invariant forall c' :: 0 <= c' < c ==> CreatedIn(pieces, moves, base, r, c')
        invariant forall x :: x in old(pieces) ==> x in pieces && pieces[x] == old(pieces)[x]
        invariant forall x :: x in old(moves) ==> x in moves && moves[x] == old(moves)[x]
        invariant moves.Keys == pieces.Keys
        invariant forall x :: x in pieces ==> x.serial < base + 8 * r + c
      {
        var x := InitialRef(base, r, c);
        ghost var p0, m0 := pieces, moves;
        pieces := pieces[x := InitialInfo(base, r, c)];
        moves := moves[x := []];
        forall c' | 0 <= c' <= c ensures CreatedIn(pieces, moves, base, r, c') {
          if c' < c {
            assert CreatedIn(p0, m0, base, r, c') && InitialRef(base, r, c') != x;
          }
        }
        c := c + 1;
      }
    }

    /** The grid rows of a new game, written row by row. */
    method ClearAndFillBoard(base: nat)
      modifies this`board
      ensures board == InitialBoard(base)
    {
      board := EmptyGrid();
      board := board[0 := InitialRank(base, 0)];
      board := board[1 := InitialRank(base, 1)];
      var i := 2;
      while i < 6
        invariant 2 <= i <= 6
        invariant forall r :: 0 <= r < i ==> board[r] == InitialRank(base, r)
      {
        board := board[i := seq(8, _ => None)];
        i := i + 1;
      }
      board := board[6 := InitialRank(base, 6)];
      board := board[7 := InitialRank(base, 7)];
      assert forall r :: 0 <= r < 8 ==> board[r] == InitialBoard(base)[r];
    }

    /** The colour lists rebuilt from rows 0-1 (black) and 6-7 (white) of the grid. */
    method ListPieces(base: nat)
      requires board == InitialBoard(base)
      modifies this`white, this`black
      ensures black == Ranks(base, 0, 2) && white == Ranks(base, 6, 8)
    {
      white := [];
      black := [];
      var row := 0;
      while row < 2
        invariant 0 <= row <= 2
        invariant black == Ranks(base, 0, row)
        modifies this`black
      {
        var col := 0;
        while col < 8
          invariant 0 <= col <= 8
          invariant black == Ranks(base, 0, row) + RankPrefix(base, row, col)
          modifies this`black
        {
          assert RankPrefix(base, row, col + 1) == RankPrefix(base, row, col) + [board[row][col].value];
          black := black + [board[row][col].value];
          col := col + 1;
        }
        row := row + 1;
      }
      row := 6;
      while row < 8
        invariant 6 <= row <= 8
        invariant white == Ranks(base, 6, row)
        modifies this`white
      {
        var col := 0;
        while col < 8
          invariant 0 <= col <= 8
          invariant white == Ranks(base, 6, row) + RankPrefix(base, row, col)
          modifies this`white
        {
          assert RankPrefix(base, row, col + 1) == RankPrefix(base, row, col) + [board[row][col].value];
          white := white + [board[row][col].value];
          col := col + 1;
        }
        row := row + 1;
      }
    }
  }

  /** `initialize_game`: a new game state holding the starting position, serials numbered from 0. */
  method InitializeGame() returns (gs: GameState)
    ensures fresh(gs) && gs.Ready()
    ensures gs.board == InitialBoard(0)
    ensures gs.black == Ranks(0, 0, 2) && gs.white == Ranks(0, 6, 8)
    ensures gs.blackKing == Some(InitialRef(0, 0, 4)) && gs.whiteKing == Some(InitialRef(0, 7, 4))
    ensures forall r, c :: InBounds(r, c) && StartRow(r) ==> gs.Created(0, r, c)
  {
    gs := new GameState();
    gs.SetupInitialPosition();
  }

  /* ---------- facts about the initial position ---------- */

  /** The two rows read by setup's list loops give 16 distinct pieces of one colour, in row-major order. */
  lemma InitialRegistry(base: nat, r0: int)
    requires r0 == 0 || r0 == 6
    ensures |Ranks(base, r0, r0 + 2)| == 16
    ensures NoDup(Ranks(base, r0, r0 + 2))
    ensures forall i :: 0 <= i < 16 ==> Ranks(base, r0, r0 + 2)[i] == InitialRef(base, r0 + i / 8, i % 8)
  {
    var reg := Ranks(base, r0, r0 + 2);
    assert Ranks(base, r0, r0 + 1) == RankPrefix(base, r0, 8);
    assert reg == RankPrefix(base, r0, 8) + RankPrefix(base, r0 + 1, 8);
    assert forall i :: 0 <= i < 16 ==> reg[i].serial == base + 8 * r0 + i;
  }

  /** Once setup has written the grid, the lists and the pieces, the snapshot is consistent. */
  lemma InitialWf(s: Position, base: nat)
    requires s.moves.Keys == s.pieces.Keys
    requires s.board == InitialBoard(base) && s.black == Ranks(base, 0, 2) && s.white == Ranks(base, 6, 8)
    requires forall r, c :: InBounds(r, c) && StartRow(r) ==> CreatedIn(s.pieces, s.moves, base, r, c)
    ensures Wf(s)
  {
    InitialListOk(s, base, 0, -1, s.black);
    InitialListOk(s, base, 6, 1, s.white);
    InitialCellsOk(s, base);
    assert BoardOk(s);
  }

  /** The list setup builds from rows r0 and r0 + 1 is a duplicate-free list of created pieces of the row's colour. */
  lemma InitialListOk(s: Position, base: nat, r0: int, c: Color, reg: seq<PieceRef>)
    requires (r0 == 0 && c == -1) || (r0 == 6 && c == 1)
    requires reg == Ranks(base, r0, r0 + 2)
    requires forall r, c :: InBounds(r, c) && StartRow(r) ==> CreatedIn(s.pieces, s.moves, base, r, c)
    ensures RegistryOk(s, reg, c)
  {
    InitialRegistry(base, r0);
    forall x | x in reg ensures x in s.pieces && x.color == c {
      var i :| 0 <= i < 16 && reg[i] == x;
      assert CreatedIn(s.pieces, s.moves, base, r0 + i / 8, i % 8);
    }
  }

  lemma InitialCellsOk(s: Position, base: nat)
    requires s.board == InitialBoard(base)
    requires forall r, c :: InBounds(r, c) && StartRow(r) ==> CreatedIn(s.pieces, s.moves, base, r, c)
    ensures forall r, c :: Cell(s.board, r, c).Some? ==>
              Cell(s.board, r, c).value in s.pieces && s.pieces[Cell(s.board, r, c).value].tile == (r, c)
  {
    forall r, c | Cell(s.board, r, c).Some?
      ensures Cell(s.board, r, c).value in s.pieces && s.pieces[Cell(s.board, r, c).value].tile == (r, c)
    {
      assert CreatedIn(s.pieces, s.moves, base, r, c);
    }
  }

  /**
   * The initial layout: rows 2-5 empty, black on rows 0-1 and white on rows
   * 6-7, each start cell holding the piece created for it, with that cell as
   * its tile, and the kings on (0, 4) and (7, 4) linked to the rooks of their
   * own corners.
   */
  lemma InitialLayout(base: nat)
    ensures forall r, c :: 2 <= r <= 5 ==> Cell(InitialBoard(base), r, c) == None
    ensures forall r, c :: InBounds(r, c) && StartRow(r) ==>
              Cell(InitialBoard(base), r, c) == Some(InitialRef(base, r, c))
              && InitialInfo(base, r, c).tile == (r, c)
              && (InitialRef(base, r, c).color == -1 <==> r <= 1)
    ensures InitialRef(base, 0, 4).kind == King && InitialRef(base, 7, 4).kind == King
    ensures forall r :: r == 0 || r == 7 ==>
              InitialInfo(base, r, 4).rookLeft == Cell(InitialBoard(base), r, 0)
              && InitialInfo(base, r, 4).rookRight == Cell(InitialBoard(base), r, 7)
              && InitialRef(base, r, 0).kind == Rook && InitialRef(base, r, 7).kind == Rook
  {
  }
}
