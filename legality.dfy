/**
 * The legality filter of class Piece (src/piece.py): whether a king is
 * attacked, which piece gives check, whether a side has no cached move,
 * the three filters that prune cached moves by simulating them on the
 * shared grid, and the classification of the position after a move.
 */
module Legality {
  import opened Common
  import opened GameStates
  import opened PieceMoves
  import opened Movement
  import opened AllPieces

  /* ---------- refreshing caches ---------- */

  /**
   * The caches after `update_possible_moves` on xs[0], ..., xs[n-1] in turn,
   * each computed on `s`: those pieces hold freshly computed caches and every
   * other cache is kept. Recomputing caches of one colour never changes what
   * another piece of that colour computes, so this is what the loops over a
   * colour list produce (RefreshUpToSnoc is one turn of such a loop).
   */
  function RefreshUpTo(s: Position, xs: seq<PieceRef>, n: nat): (m: map<PieceRef, seq<Tile>>)
    requires n <= |xs|
  {
    map x | x in s.moves.Keys + (set y | y in xs[..n]) :: if x in xs[..n] then PseudoMoves(s, x) else s.moves[x]
  }

  /** One more turn of the loop: refreshing the first n + 1 pieces is refreshing n, then updating piece xs[n]. */
  lemma RefreshUpToSnoc(s: Position, xs: seq<PieceRef>, n: nat)
    requires n < |xs|
    ensures RefreshUpTo(s, xs, n + 1) == RefreshUpTo(s, xs, n)[xs[n] := PseudoMoves(s, xs[n])]
  {
    assert xs[..n + 1] == xs[..n] + [xs[n]];
  }

  /** After refreshing xs[..n], exactly those pieces hold freshly computed caches; every other cache is kept. */
  lemma RefreshUpToAt(s: Position, xs: seq<PieceRef>, n: nat)
    requires n <= |xs|
    ensures forall x :: x in RefreshUpTo(s, xs, n) <==> x in s.moves || x in xs[..n]
    ensures forall x :: x in xs[..n] ==> RefreshUpTo(s, xs, n)[x] == PseudoMoves(s, x)
    ensures forall x :: x !in xs[..n] && x in s.moves ==> RefreshUpTo(s, xs, n)[x] == s.moves[x]
  {
  }

  /** The snapshot `s` with some of the caches of colour `c` refreshed. */
  function Refreshed(s: Position, c: Color, n: nat): Position
    requires n <= |Registry(s, c)|
  {
    s.(moves := RefreshUpTo(s, Registry(s, c), n))
  }

  /**
   * Refreshing caches of colour `c` leaves a consistent snapshot consistent
   * and does not change what any piece of colour `c` computes.
   */
  lemma RefreshedFrame(s: Position, c: Color, n: nat, x: PieceRef)
    requires Wf(s) && n <= |Registry(s, c)| && x.color == c
    ensures Wf(Refreshed(s, c, n))
    ensures PseudoMoves(Refreshed(s, c, n), x) == PseudoMoves(s, x)
  {
    var reg := Registry(s, c);
    RegistryMembers(s, c);
    RegistryMembers(s, Opp(c));
    RefreshUpToAt(s, reg, n);
    var s' := Refreshed(s, c, n);
    assert forall y :: y in reg[..n] ==> y in reg;
    assert s'.moves.Keys == s.moves.Keys;
    forall y | y in Registry(s, Opp(c)) ensures MovesOf(s, y) == MovesOf(s', y) {
      assert y !in reg[..n];
    }
    PseudoFrame(s, s', x);
  }

  /* ---------- is the king attacked ---------- */

  /** The king `k` stands on a square some piece of the other colour can move to. */
  predicate InCheck(s: Position, k: PieceRef)
  {
    var opp := Registry(s, Opp(k.color));
    exists i :: 0 <= i < |opp| && TileOf(s, k) in PseudoMoves(s, opp[i])
  }

  /** For each piece of `xs`, whether it can move to `t`. */
  function Hits(s: Position, t: Tile, xs: seq<PieceRef>): (bs: seq<bool>)
    ensures |bs| == |xs|
  {
    seq(|xs|, m requires 0 <= m < |xs| => t in PseudoMoves(s, xs[m]))
  }

  /** The index of the first piece of `xs`, from `i` on, that can move to `t`; |xs| when there is none. */
  function FirstHit(s: Position, t: Tile, xs: seq<PieceRef>, i: nat): (j: nat)
    requires i <= |xs|
    ensures i <= j <= |xs|
    ensures j < |xs| ==> t in PseudoMoves(s, xs[j])
    ensures forall m :: i <= m < j ==> t !in PseudoMoves(s, xs[m])
  {
    var bs := Hits(s, t, xs);
    var j := FirstTrue(bs, i);
    assert forall m :: 0 <= m < |xs| ==> bs[m] == (t in PseudoMoves(s, xs[m]));
    j
  }

  /** How many pieces of `xs` a scan for `t` refreshes: up to and including the first hit. */
  function ScanEnd(s: Position, t: Tile, xs: seq<PieceRef>): (n: nat)
    ensures n <= |xs|
  {
    var j := FirstHit(s, t, xs, 0);
    if j < |xs| then j + 1 else j
  }

  /** The scan finds an attacker exactly when the king is in check. */
  lemma InCheckFirstHit(s: Position, k: PieceRef)
    ensures var opp := Registry(s, Opp(k.color));
            InCheck(s, k) <==> FirstHit(s, TileOf(s, k), opp, 0) < |opp|
  {
    var opp := Registry(s, Opp(k.color));
    var j := FirstHit(s, TileOf(s, k), opp, 0);
    if InCheck(s, k) {
      var i :| 0 <= i < |opp| && TileOf(s, k) in PseudoMoves(s, opp[i]);
      assert j <= i;
    }
  }

  /**
   * The loop shared by `king_in_chess` and `get_piece_that_check`: each
   * piece of colour `c`, in list order, recomputes its cache, and the first
   * one whose cache holds `t` is returned.
   */
  method Scan(gs: GameState, c: Color, t: Tile) returns (hit: Option<PieceRef>)
    requires gs.Valid()
    modifies gs`moves
    ensures gs.Valid()
    ensures var s := old(gs.Pos());
            var reg := Registry(s, c);
            var j := FirstHit(s, t, reg, 0);
            hit == (if j < |reg| then Some(reg[j]) else None)
            && gs.Pos() == Refreshed(s, c, ScanEnd(s, t, reg))
    ensures forall x :: x in old(gs.moves) && x.color != c ==> gs.moves[x] == old(gs.moves)[x]
  {
    ghost var s := gs.Pos();
    var reg := gs.GetPiecesByColor(c);
    ghost var bs := Hits(s, t, reg);
    var i, found := ScanLoop(gs, c, t, s, bs);
    FirstHitIs(s, t, reg, bs, i);
    RefreshedKeeps(s, c, ScanEnd(s, t, reg));
    hit := if found then Some(reg[i]) else None;
  }

  /**
   * The loop of the scan: it stops at index `i` with `found` set at the
   * first piece whose refreshed cache holds `t`, or at the end of the list.
   */
  method ScanLoop(gs: GameState, c: Color, t: Tile, ghost s: Position, ghost bs: seq<bool>) returns (i: nat, found: bool)
    requires gs.Valid() && gs.Pos() == s && bs == Hits(s, t, Registry(s, c))
    modifies gs`moves
    ensures i <= |bs| && found == (i < |bs|) && (found ==> bs[i])
    ensures forall m :: 0 <= m < i ==> !bs[m]
    ensures gs.Valid() && gs.Pos() == Refreshed(s, c, if found then i + 1 else i)
  {
    var reg := gs.GetPiecesByColor(c);
    i := 0;
    while i < |reg|
      invariant 0 <= i <= |reg|
      invariant gs.Valid() && gs.Pos() == Refreshed(s, c, i)
      invariant forall m :: 0 <= m < i ==> !bs[m]
      modifies gs`moves
    {
      found := ScanStep(gs, c, t, s, bs, i);
      if found {
        return;
      }
      i := i + 1;
    }
    found := false;
  }

  /** Where the scan stops: at the first set flag, or past the end. */
  lemma FirstHitIs(s: Position, t: Tile, xs: seq<PieceRef>, bs: seq<bool>, j: nat)
    requires bs == Hits(s, t, xs) && j <= |bs| && (j < |bs| ==> bs[j])
    requires forall m :: 0 <= m < j ==> !bs[m]
    ensures FirstHit(s, t, xs, 0) == j
    ensures ScanEnd(s, t, xs) == if j < |xs| then j + 1 else j
  {
    FirstTrueIs(bs, j);
  }

  /**
   * One turn of the scan: the next piece of the list recomputes its cache,
   * which is then searched for `t`.
   */
  method ScanStep(gs: GameState, c: Color, t: Tile, ghost s: Position, ghost bs: seq<bool>, i: nat) returns (found: bool)
    requires Wf(s) && i < |Registry(s, c)| && bs == Hits(s, t, Registry(s, c))
    requires gs.Valid() && gs.Pos() == Refreshed(s, c, i)
    requires forall m :: 0 <= m < i ==> !bs[m]
    modifies gs`moves
    ensures gs.Valid() && gs.Pos() == Refreshed(s, c, i + 1)
    ensures found == bs[i]
    ensures !found ==> forall m :: 0 <= m < i + 1 ==> !bs[m]
  {
    var x := gs.GetPiecesByColor(c)[i];
    assert x in Registry(s, c);
    RefreshedFrame(s, c, i, x);
    RefreshUpToSnoc(s, Registry(s, c), i);
    UpdatePossibleMoves(gs, x);
    found := t in gs.moves[x];
  }

  /**
   * `king_in_chess`: true exactly when some piece of the other colour, with
   * its cache recomputed, can move to the king's square; the scan stops at
   * the first such piece.
   */
  method KingInCheck(gs: GameState, k: PieceRef) returns (b: bool)
    requires gs.Valid() && k in gs.pieces
    modifies gs`moves
    ensures gs.Valid()
    ensures b == InCheck(old(gs.Pos()), k)
    ensures var s := old(gs.Pos());
            gs.Pos() == Refreshed(s, Opp(k.color), ScanEnd(s, TileOf(s, k), Registry(s, Opp(k.color))))
    ensures !b ==> gs.Pos() == Refreshed(old(gs.Pos()), Opp(k.color), |Registry(old(gs.Pos()), Opp(k.color))|)
    ensures forall x :: x in old(gs.moves) && x.color == k.color ==> gs.moves[x] == old(gs.moves)[x]
  {
    ghost var s := gs.Pos();
    ghost var reg := Registry(s, Opp(k.color));
    InCheckFirstHit(s, k);
    var hit := Scan(gs, Opp(k.color), gs.pieces[k].tile);
    b := hit.Some?;
    assert !b ==> ScanEnd(s, TileOf(s, k), reg) == |reg|;
  }

  /**
   * `get_piece_that_check`: the first piece of colour `mc`, in list order,
   * whose recomputed cache holds the square of the other colour's king; None
   * exactly when that king is not in check.
   */
  method GetPieceThatCheck(gs: GameState, mc: Color) returns (r: Option<PieceRef>)
    requires gs.Valid() && gs.GetKing(Opp(mc)).Some?
    modifies gs`moves
    ensures gs.Valid()
    ensures var s := old(gs.Pos());
            var k := old(gs.GetKing(Opp(mc))).value;
            (r.Some? <==> InCheck(s, k))
            && (r.Some? ==> r.value in Registry(s, mc) && TileOf(s, k) in PseudoMoves(s, r.value))
            && (r.Some? ==> r.value == Registry(s, mc)[FirstHit(s, TileOf(s, k), Registry(s, mc), 0)])
            && gs.Pos() == Refreshed(s, mc, ScanEnd(s, TileOf(s, k), Registry(s, mc)))
    ensures forall x :: x in old(gs.moves) && x.color != mc ==> gs.moves[x] == old(gs.moves)[x]
  {
    var k := gs.GetKing(Opp(mc)).value;
    InCheckFirstHit(gs.Pos(), k);
    r := Scan(gs, mc, gs.pieces[k].tile);
  }

  /** Every piece of colour `c` has an empty cache. */
  predicate NoMoves(s: Position, c: Color)
  {
    forall x :: x in Registry(s, c) ==> MovesOf(s, x) == []
  }

  /** `player_cant_move`: true exactly when every piece of colour `c` has an empty cache. */
  method PlayerCantMove(gs: GameState, c: Color) returns (b: bool)
    ensures b <==> NoMoves(gs.Pos(), c)
  {
    var reg := gs.GetPiecesByColor(c);
    var i := 0;
    while i < |reg|
      invariant 0 <= i <= |reg|
      invariant forall m :: 0 <= m < i ==> MovesOf(gs.Pos(), reg[m]) == []
    {
      if reg[i] in gs.moves && gs.moves[reg[i]] != [] {
        assert reg[i] in Registry(gs.Pos(), c) && MovesOf(gs.Pos(), reg[i]) != [];
        return false;
      }
      i := i + 1;
    }
    return true;
  }

  /** The opening loop of `update_available_moves`: every piece of colour `c` recomputes its cache. */
  method RefreshColor(gs: GameState, c: Color)
    requires gs.Valid()
    modifies gs`moves
    ensures gs.Valid()
    ensures gs.Pos() == Refreshed(old(gs.Pos()), c, |Registry(old(gs.Pos()), c)|)
  {
    ghost var s := gs.Pos();
    var reg := gs.GetPiecesByColor(c);
    var i := 0;
    while i < |reg|
      invariant 0 <= i <= |reg|
      invariant gs.Valid() && gs.Pos() == Refreshed(s, c, i)
      modifies gs`moves
    {
      RefreshedFrame(s, c, i, reg[i]);
      RefreshUpToSnoc(s, reg, i);
      UpdatePossibleMoves(gs, reg[i]);
      i := i + 1;
    }
  }

  /** The closing loop of each filter: `for r in rs: if r in moves: moves.remove(r)` on the cache of `x`. */
  method RemoveAll(gs: GameState, x: PieceRef, rs: seq<Tile>)
    requires gs.Valid() && x in gs.pieces
    modifies gs`moves
    ensures gs.Valid()
    ensures gs.moves == old(gs.moves)[x := RemoveEach(old(gs.moves)[x], rs)]
  {
    ghost var ms := gs.moves[x];
    var i := 0;
    while i < |rs|
      invariant 0 <= i <= |rs|
      invariant gs.Valid() && gs.moves == old(gs.moves)[x := RemoveEach(ms, rs[..i])]
      modifies gs`moves
    {
      RemoveEachSnoc(ms, rs[..i], rs[i]);
      assert rs[..i + 1] == rs[..i] + [rs[i]];
      gs.moves := gs.moves[x := RemoveFirst(gs.moves[x], rs[i])];
      i := i + 1;
    }
    assert rs[..|rs|] == rs;
  }

  /** Refreshing the caches of colour `c` keeps every cache of a piece of another colour. */
  lemma RefreshedKeeps(s: Position, c: Color, n: nat)
    requires Wf(s) && n <= |Registry(s, c)|
    ensures Refreshed(s, c, n).moves.Keys == s.moves.Keys
    ensures forall x :: x in s.moves && x.color != c ==> Refreshed(s, c, n).moves[x] == s.moves[x]
  {
    var reg := Registry(s, c);
    RegistryMembers(s, c);
    RefreshUpToAt(s, reg, n);
    assert forall y :: y in reg[..n] ==> y in reg;
  }

  /**
   * Whether a king is in check depends only on the grid, the piece fields,
   * the colour lists and the caches of the king's own colour (which the
   * opposing king's castling test reads).
   */
  lemma InCheckFrame(s: Position, s': Position, k: PieceRef)
    requires Wf(s)
    requires s.board == s'.board && s.pieces == s'.pieces && s.white == s'.white && s.black == s'.black
    requires forall y :: y in Registry(s, k.color) ==> MovesOf(s, y) == MovesOf(s', y)
    ensures InCheck(s, k) == InCheck(s', k)
  {
    RegistryMembers(s, Opp(k.color));
    var opp := Registry(s, Opp(k.color));
    forall i | 0 <= i < |opp| ensures PseudoMoves(s, opp[i]) == PseudoMoves(s', opp[i]) {
      assert opp[i] in opp;
      PseudoFrame(s, s', opp[i]);
    }
  }

  /* ---------- remove_moves_of_king_that_chess_him ---------- */

  /**
   * The position simulated for the king's candidate square `m`: the king's
   * own cell cleared, the king written on `m` and its tile set to `m`.
   */
  function KingSim(s: Position, k: PieceRef, m: Tile): Position
    requires k in s.pieces
  {
    s.(board := Put(Put(s.board, s.pieces[k].tile, None), m, Some(k)),
       pieces := s.pieces[k := s.pieces[k].(tile := m)])
  }

  /** The king's cached squares on which it would stand in check. */
  function UnsafeSquares(s: Position, k: PieceRef): set<Tile>
    requires k in s.pieces
  {
    set m | m in MovesOf(s, k) && InCheck(KingSim(s, k, m), k)
  }

  /**
   * One candidate square of the king filter: the king is written on `m`
   * and takes it as its tile, `king_in_chess` is asked, and the cell `m` is
   * written back. The answer is whether the king is in check in the
   * simulated position.
   */
  method TryKingSquare(gs: GameState, k: PieceRef, m: Tile, ghost s: Position, ghost at: Tile) returns (attacked: bool)
    requires Wf(s) && k in s.pieces
    requires gs.Valid() && gs.board == Put(s.board, s.pieces[k].tile, None)
    requires gs.pieces == s.pieces[k := s.pieces[k].(tile := at)]
    requires gs.white == s.white && gs.black == s.black
    requires forall x :: x in s.moves && x.color == k.color ==> x in gs.moves && gs.moves[x] == s.moves[x]
    modifies gs`board, gs`pieces, gs`moves
    ensures gs.Valid()
    ensures attacked == InCheck(KingSim(s, k, m), k)
    ensures gs.board == old(gs.board) && gs.pieces == s.pieces[k := s.pieces[k].(tile := m)]
    ensures forall x :: x in s.moves && x.color == k.color ==> x in gs.moves && gs.moves[x] == s.moves[x]
  {
    ghost var b := gs.board;
    ghost var m0 := gs.moves;
    var saved := gs.GetPieceAt(m.0, m.1);
    PlaceKing(gs, k, m);
    Retile(s.pieces, old(gs.pieces), k, at, m);
    RegistryMembers(gs.Pos(), k.color);
    InCheckFrame(gs.Pos(), KingSim(s, k, m), k);
    ghost var m1 := gs.moves;
    attacked := KingInCheck(gs, k);
    FrameTrans(s.moves, m1, gs.moves, k.color);
    gs.SetPieceAt(m.0, m.1, saved);
    PutPut(b, m, Some(k), saved);
    PutSame(b, m);
  }

  /** Giving a piece tile `a` and then tile `b` is giving it tile `b`. */
  lemma Retile(p: map<PieceRef, PieceInfo>, q: map<PieceRef, PieceInfo>, k: PieceRef, a: Tile, b: Tile)
    requires k in p && q == p[k := p[k].(tile := a)]
    ensures q[k := q[k].(tile := b)] == p[k := p[k].(tile := b)]
  {
  }

  /** Two steps that each keep the caches of colour `c` keep them. */
  lemma FrameTrans(m0: map<PieceRef, seq<Tile>>, m1: map<PieceRef, seq<Tile>>, m2: map<PieceRef, seq<Tile>>, c: Color)
    requires forall x :: x in m0 && x.color == c ==> x in m1 && m1[x] == m0[x]
    requires m1.Keys == m2.Keys
    requires forall x :: x in m1 && x.color == c ==> m2[x] == m1[x]
    ensures forall x :: x in m0 && x.color == c ==> x in m2 && m2[x] == m0[x]
  {
  }

  /** The simulation loop of the king filter: the candidate squares on which the king would stand in check, in cache order. */
  method FlagKingSquares(gs: GameState, k: PieceRef, ghost s: Position, ghost unsafe: set<Tile>) returns (remove: seq<Tile>)
    requires Wf(s) && k in s.pieces
    requires forall m :: m in MovesOf(s, k) ==> (m in unsafe <==> InCheck(KingSim(s, k, m), k))
    requires gs.Valid() && gs.board == Put(s.board, s.pieces[k].tile, None) && gs.pieces == s.pieces
    requires gs.white == s.white && gs.black == s.black && gs.moves == s.moves
    modifies gs`board, gs`pieces, gs`moves
    ensures gs.Valid()
    ensures remove == FilterIn(s.moves[k], unsafe)
    ensures gs.board == old(gs.board) && k in gs.pieces && gs.pieces == s.pieces[k := s.pieces[k].(tile := gs.pieces[k].tile)]
    ensures forall x :: x in s.moves && x.color == k.color ==> x in gs.moves && gs.moves[x] == s.moves[x]
  {
    var ms := gs.moves[k];
    remove := [];
    ghost var at := s.pieces[k].tile;
    assert s.pieces[k].(tile := at) == s.pieces[k];
    var i := 0;
    while i < |ms|
      invariant 0 <= i <= |ms|
      invariant gs.Valid()
      invariant gs.board == Put(s.board, s.pieces[k].tile, None) && gs.pieces == s.pieces[k := s.pieces[k].(tile := at)]
      invariant gs.white == s.white && gs.black == s.black
      invariant forall x :: x in s.moves && x.color == k.color ==> x in gs.moves && gs.moves[x] == s.moves[x]
      invariant remove == FilterIn(ms[..i], unsafe)
    {
      var attacked := TryKingSquare(gs, k, ms[i], s, at);
      at := ms[i];
      assert ms[i] in MovesOf(s, k);
      FilterInStep(ms, i, unsafe, remove, attacked);
      if attacked {
        remove := remove + [ms[i]];
      }
      i := i + 1;
    }
    assert ms[..|ms|] == ms;
  }

  /** A cached square of the king is unsafe exactly when the king would stand in check on it. */
  lemma UnsafeIff(s: Position, k: PieceRef)
    requires k in s.pieces
    ensures forall m :: m in MovesOf(s, k) ==> (m in UnsafeSquares(s, k) <==> InCheck(KingSim(s, k, m), k))
  {
  }

  /** The king takes tile `home` and is written on that cell (each simulated square, and the end of the simulation). */
  method PlaceKing(gs: GameState, k: PieceRef, home: Tile)
    requires gs.Valid() && k in gs.pieces
    modifies gs`board, gs`pieces
    ensures gs.Valid()
    ensures gs.pieces == old(gs.pieces)[k := old(gs.pieces)[k].(tile := home)]
    ensures gs.board == Put(old(gs.board), home, Some(k))
  {
    InfoWf(gs.Pos(), k, gs.pieces[k].(tile := home));
    gs.pieces := gs.pieces[k := gs.pieces[k].(tile := home)];
    gs.SetPieceAt(home.0, home.1, Some(k));
  }

  /**
   * `remove_moves_of_king_that_chess_him`: the king's cache loses exactly
   * the squares on which it would stand in check (each simulated with the
   * king lifted from its own cell); the grid is restored, with the king
   * written back on its own cell; the piece fields and the other caches of
   * the king's colour are as before.
   */
  method RemoveKingMovesThatCheckHim(gs: GameState, k: PieceRef)
    requires gs.Valid() && k in gs.pieces
    modifies gs`board, gs`pieces, gs`moves
    ensures gs.Valid()
    ensures gs.board == Put(old(gs.board), old(gs.pieces)[k].tile, Some(k))
    ensures gs.pieces == old(gs.pieces)
    ensures gs.moves[k] == FilterOut(old(gs.moves)[k], UnsafeSquares(old(gs.Pos()), k))
    ensures multiset(gs.moves[k]) <= multiset(old(gs.moves)[k])
    ensures forall x :: x in old(gs.moves) && x.color == k.color && x != k ==> gs.moves[x] == old(gs.moves)[x]
  {
    ghost var s := gs.Pos();
    var home := gs.pieces[k].tile;
    PutWf(s, home, None);
    gs.board := Put(gs.board, home, None);
    UnsafeIff(s, k);
    var remove := FlagKingSquares(gs, k, s, UnsafeSquares(s, k));
    ghost var p1 := gs.pieces;
    assert p1[k].(tile := home) == s.pieces[k];
    PlaceKing(gs, k, home);
    MapRestore(s.pieces, k, p1[k]);
    PutPut(s.board, home, None, Some(k));
    assert gs.board == Put(s.board, home, Some(k));
    ghost var m1 := gs.moves;
    RemoveFiltered(s.moves[k], UnsafeSquares(s, k));
    RemoveAll(gs, k, remove);
    assert gs.moves == m1[k := FilterOut(s.moves[k], UnsafeSquares(s, k))];
    FilterOutMembers(s.moves[k], UnsafeSquares(s, k));
  }

  /* ---------- removes_moves_that_doesnt_protect_king ---------- */

  /** Simulation 1 of the check filter: the checking piece's cell cleared and the piece out of its colour list. */
  function Lifted(s: Position, checker: PieceRef): Position
  {
    WithRemoved(s, Some(checker)).(board := Put(s.board, TileOf(s, checker), None))
  }

  /** Simulation 2: on top of simulation 1 the defender is written on `m`; its own cell is not vacated. */
  function DefenderSim(s: Position, checker: PieceRef, d: PieceRef, m: Tile): Position
  {
    var l := Lifted(s, checker);
    l.(board := Put(l.board, m, Some(d)))
  }

  /**
   * The defender's cached squares, other than the checker's own square,
   * after which the lifted checker, recomputing its moves, would still
   * reach the king's square.
   */
  function Unprotecting(s: Position, k: PieceRef, checker: PieceRef, d: PieceRef): set<Tile>
  {
    set m | m in MovesOf(s, d) && m != TileOf(s, checker) && TileOf(s, k) in PseudoMoves(DefenderSim(s, checker, d, m), checker)
  }

  /** Simulation 1 itself: the checker's cell is cleared and `remove_piece` drops it from its list. */
  method LiftChecker(gs: GameState, checker: PieceRef)
    requires gs.Valid() && checker in gs.pieces
    modifies gs`board, gs`white, gs`black
    ensures gs.Valid()
    ensures gs.Pos() == Lifted(old(gs.Pos()), checker)
  {
    var ct := gs.pieces[checker].tile;
    gs.SetPieceAt(ct.0, ct.1, None);
    gs.RemovePiece(Some(checker));
  }

  /**
   * One candidate square of the check filter: the defender is written on
   * `m`, the checker recomputes its cache, and the cell is written back.
   * The answer is whether the checker then reaches the king's square.
   */
  method TryDefenderSquare(gs: GameState, k: PieceRef, checker: PieceRef, d: PieceRef, m: Tile, ghost s: Position) returns (flagged: bool)
    requires Wf(s) && checker in s.pieces && d in s.pieces && k in s.pieces
    requires gs.Valid()
    requires gs.board == Lifted(s, checker).board && gs.pieces == s.pieces
    requires gs.white == Lifted(s, checker).white && gs.black == Lifted(s, checker).black
    requires forall x :: x in s.moves && x.color != checker.color ==> x in gs.moves && gs.moves[x] == s.moves[x]
    modifies gs`board, gs`moves
    ensures gs.Valid()
    ensures flagged == (TileOf(s, k) in PseudoMoves(DefenderSim(s, checker, d, m), checker))
    ensures gs.board == old(gs.board)
    ensures forall x :: x in s.moves && x.color != checker.color ==> x in gs.moves && gs.moves[x] == s.moves[x]
  {
    ghost var b := gs.board;
    var saved := gs.GetPieceAt(m.0, m.1);
    gs.SetPieceAt(m.0, m.1, Some(d));
    ghost var sim := DefenderSim(s, checker, d, m);
    assert gs.board == sim.board && gs.pieces == sim.pieces;
    RegistryMembers(gs.Pos(), Opp(checker.color));
    RemovedRegistry(s, Some(checker), Opp(checker.color));
    assert Registry(gs.Pos(), Opp(checker.color)) == Registry(sim, Opp(checker.color));
    PseudoFrame(gs.Pos(), sim, checker);
    UpdatePossibleMoves(gs, checker);
    flagged := gs.pieces[k].tile in gs.moves[checker];
    gs.SetPieceAt(m.0, m.1, saved);
    PutPut(b, m, Some(d), saved);
    PutSame(b, m);
  }

  /** A cached square of the defender is flagged exactly when it is not the checker's square and the checker still reaches the king. */
  lemma UnprotectingIff(s: Position, k: PieceRef, checker: PieceRef, d: PieceRef)
    requires d in s.pieces
    ensures forall m :: m in MovesOf(s, d) ==>
              (m in Unprotecting(s, k, checker, d) <==> m != TileOf(s, checker) && TileOf(s, k) in PseudoMoves(DefenderSim(s, checker, d, m), checker))
  {
  }

  /** The simulation loop of the check filter: the defender's squares that leave the king attacked, in cache order. */
  method FlagUnprotecting(gs: GameState, k: PieceRef, checker: PieceRef, d: PieceRef, ghost s: Position, ghost flaggedSet: set<Tile>) returns (remove: seq<Tile>)
    requires Wf(s) && checker in s.pieces && d in s.pieces && k in s.pieces && d.color != checker.color
    requires gs.Valid()
    requires gs.board == Lifted(s, checker).board && gs.pieces == s.pieces
    requires gs.white == Lifted(s, checker).white && gs.black == Lifted(s, checker).black
    requires forall x :: x in s.moves && x.color != checker.color ==> x in gs.moves && gs.moves[x] == s.moves[x]
    requires forall m :: m in MovesOf(s, d) ==>
               (m in flaggedSet <==> m != TileOf(s, checker) && TileOf(s, k) in PseudoMoves(DefenderSim(s, checker, d, m), checker))
    modifies gs`board, gs`moves
    ensures gs.Valid()
    ensures remove == FilterIn(s.moves[d], flaggedSet)
    ensures gs.board == old(gs.board)
    ensures forall x :: x in s.moves && x.color != checker.color ==> x in gs.moves && gs.moves[x] == s.moves[x]
  {
    var ct := gs.pieces[checker].tile;
    var ms := gs.moves[d];
    remove := [];
    var i := 0;
    while i < |ms|
      invariant 0 <= i <= |ms|
      invariant gs.Valid() && gs.board == old(gs.board)
      invariant forall x :: x in s.moves && x.color != checker.color ==> x in gs.moves && gs.moves[x] == s.moves[x]
      invariant remove == FilterIn(ms[..i], flaggedSet)
    {
      var m := ms[i];
      assert m in MovesOf(s, d);
      var flagged := false;
      if m != ct {
        flagged := TryDefenderSquare(gs, k, checker, d, m, s);
      }
      FilterInStep(ms, i, flaggedSet, remove, flagged);
      if flagged {
        remove := remove + [m];
      }
      i := i + 1;
    }
    assert ms[..|ms|] == ms;
  }

  /** The end of the check filter: the checker is written back on its cell and `add_piece` lists it again. */
  method RestoreChecker(gs: GameState, checker: PieceRef, ct: Tile)
    requires gs.Valid() && checker in gs.pieces
    modifies gs`board, gs`white, gs`black
    ensures gs.Valid()
    ensures gs.Pos() == WithAdded(old(gs.Pos()), Some(checker)).(board := Put(old(gs.board), ct, Some(checker)))
  {
    gs.SetPieceAt(ct.0, ct.1, Some(checker));
    gs.AddPiece(Some(checker));
  }

  /** The single-check path of the check filter: simulate the defender's squares, write it back, prune its cache. */
  method FilterDefender(gs: GameState, k: PieceRef, checker: PieceRef, d: PieceRef, ghost s: Position)
    requires Wf(s) && checker in s.pieces && d in s.pieces && k in s.pieces && d.color != checker.color
    requires gs.Valid()
    requires gs.board == Lifted(s, checker).board && gs.pieces == s.pieces
    requires gs.white == Lifted(s, checker).white && gs.black == Lifted(s, checker).black
    requires forall x :: x in s.moves && x.color != checker.color ==> x in gs.moves && gs.moves[x] == s.moves[x]
    modifies gs`board, gs`moves
    ensures gs.Valid()
    ensures gs.board == Put(old(gs.board), TileOf(s, d), Some(d))
    ensures gs.moves[d] == FilterOut(s.moves[d], Unprotecting(s, k, checker, d))
    ensures multiset(gs.moves[d]) <= multiset(s.moves[d])
    ensures forall x :: x in s.moves && x.color != checker.color && x != d ==> gs.moves[x] == s.moves[x]
  {
    FilterOutMembers(s.moves[d], Unprotecting(s, k, checker, d));
    UnprotectingIff(s, k, checker, d);
    var remove := FlagUnprotecting(gs, k, checker, d, s, Unprotecting(s, k, checker, d));
    var dt := gs.pieces[d].tile;
    gs.SetPieceAt(dt.0, dt.1, Some(d));
    RemoveFiltered(s.moves[d], Unprotecting(s, k, checker, d));
    RemoveAll(gs, d, remove);
  }

  /** The double-check test of the check filter: with the checker lifted, is the king still in check? Only the checker's colour recomputes. */
  method DoubleCheck(gs: GameState, k: PieceRef, checker: PieceRef, ghost s: Position) returns (double: bool)
    requires Wf(s) && checker in s.pieces && k in s.pieces && k.color != checker.color
    requires gs.Valid() && gs.Pos() == Lifted(s, checker)
    modifies gs`moves
    ensures gs.Valid()
    ensures double == InCheck(Lifted(s, checker), k)
    ensures gs.board == old(gs.board) && gs.pieces == old(gs.pieces) && gs.white == old(gs.white) && gs.black == old(gs.black)
    ensures forall x :: x in s.moves && x.color != checker.color ==> x in gs.moves && gs.moves[x] == s.moves[x]
  {
    double := KingInCheck(gs, k);
    assert Opp(k.color) == checker.color;
  }

  /** Between lifting and restoring the checker: the double-check test, then clearing or pruning the defender's cache. */
  method PruneDefender(gs: GameState, k: PieceRef, checker: PieceRef, d: PieceRef, ghost s: Position) returns (double: bool)
    requires Wf(s) && checker in s.pieces && d in s.pieces && k in s.pieces
    requires d.color != checker.color && k.color != checker.color
    requires gs.Valid() && gs.Pos() == Lifted(s, checker)
    modifies gs`board, gs`moves
    ensures gs.Valid()
    ensures double == InCheck(Lifted(s, checker), k)
    ensures double ==> gs.board == old(gs.board) && gs.moves[d] == []
    ensures !double ==> gs.board == Put(old(gs.board), TileOf(s, d), Some(d))
                        && gs.moves[d] == FilterOut(s.moves[d], Unprotecting(s, k, checker, d))
    ensures multiset(gs.moves[d]) <= multiset(s.moves[d])
    ensures forall x :: x in s.moves && x.color != checker.color && x != d ==> gs.moves[x] == s.moves[x]
  {
    double := DoubleCheck(gs, k, checker, s);
    if double {
      gs.moves := gs.moves[d := []];
    } else {
      FilterDefender(gs, k, checker, d, s);
    }
  }

  /**
   * `removes_moves_that_doesnt_protect_king`, for a defender `d` of the side
   * in check and the piece `checker` that gives check. With the checker
   * lifted, a king still in check (double check) leaves `d` no move;
   * otherwise `d` loses the squares after which the checker still reaches
   * the king. The checker is written back on its cell and listed again, at
   * the end of its colour list; the defender is written back on its own
   * cell when the simulations ran.
   */
  method RemovesMovesThatDoesntProtectKing(gs: GameState, moved: PieceRef, d: PieceRef, checker: PieceRef)
    requires gs.Valid() && gs.GetKing(Opp(moved.color)).Some?
    requires d in gs.pieces && checker in gs.pieces
    requires checker.color == moved.color && d.color == Opp(moved.color)
    modifies gs`board, gs`moves, gs`white, gs`black
    ensures gs.Valid()
    ensures var s := old(gs.Pos());
            var k := old(gs.GetKing(Opp(moved.color))).value;
            var ct := TileOf(s, checker);
            (InCheck(Lifted(s, checker), k) ==>
               gs.moves[d] == [] && gs.board == Put(s.board, ct, Some(checker)))
            && (!InCheck(Lifted(s, checker), k) ==>
               gs.moves[d] == FilterOut(s.moves[d], Unprotecting(s, k, checker, d))
               && gs.board == Put(Put(Put(s.board, ct, None), TileOf(s, d), Some(d)), ct, Some(checker)))
    ensures multiset(gs.moves[d]) <= multiset(old(gs.moves)[d])
    ensures Registry(gs.Pos(), moved.color) == Added(Removed(Registry(old(gs.Pos()), moved.color), checker), checker)
    ensures Registry(gs.Pos(), Opp(moved.color)) == Registry(old(gs.Pos()), Opp(moved.color))
    ensures forall x :: x in old(gs.moves) && x.color != moved.color && x != d ==> gs.moves[x] == old(gs.moves)[x]
  {
    ghost var s := gs.Pos();
    var k := gs.GetKing(Opp(moved.color)).value;
    var ct := gs.pieces[checker].tile;
    LiftChecker(gs, checker);
    ghost var l := gs.Pos();
    var double := PruneDefender(gs, k, checker, d, s);
    PutPut(s.board, ct, None, Some(checker));
    RestoreChecker(gs, checker, ct);
    AddedRegistry(l, Some(checker), moved.color);
    AddedRegistry(l, Some(checker), Opp(moved.color));
    RemovedRegistry(s, Some(checker), moved.color);
    RemovedRegistry(s, Some(checker), Opp(moved.color));
  }

  /**
   * When the defender and the checker both stand on the cells their tiles
   * name, the check filter leaves the grid as it found it, on both paths.
   */
  lemma ProtectFilterRestores(s: Position, d: PieceRef, checker: PieceRef)
    requires Placed(s, d) && Placed(s, checker) && d != checker
    ensures var ct := TileOf(s, checker);
            Put(s.board, ct, Some(checker)) == s.board
            && Put(Put(Put(s.board, ct, None), TileOf(s, d), Some(d)), ct, Some(checker)) == s.board
  {
    var ct := TileOf(s, checker);
    PutSame(s.board, ct);
    RestoreTwo(s.board, TileOf(s, d), ct, Some(d));
  }

  /* ---------- remove_moves_that_puts_king_in_chess ---------- */

  /** Pin simulation: the defender's cell cleared and the defender written on `m`; every other field as in `s`. */
  function PinSim(s: Position, d: PieceRef, m: Tile): Position
  {
    s.(board := Put(Put(s.board, TileOf(s, d), None), m, Some(d)))
  }

  /**
   * The defender's cached squares after which the attacker `a`, recomputing
   * its moves from its own tile on the simulated board, reaches the king's
   * square.
   */
  function Pinning(s: Position, k: PieceRef, a: PieceRef, d: PieceRef): set<Tile>
  {
    set m | m in MovesOf(s, d) && TileOf(s, k) in PseudoMoves(PinSim(s, d, m), a)
  }

  lemma PinningIff(s: Position, k: PieceRef, a: PieceRef, d: PieceRef)
    ensures forall m :: m in MovesOf(s, d) ==>
              (m in Pinning(s, k, a, d) <==> TileOf(s, k) in PseudoMoves(PinSim(s, d, m), a))
  {
  }

  /** One simulated square of the pin filter; the grid is written back afterwards. */
  method TryPinSquare(gs: GameState, k: PieceRef, a: PieceRef, d: PieceRef, m: Tile, ghost s: Position) returns (flagged: bool)
    requires Wf(s) && k in s.pieces && a in s.pieces && d in s.pieces
    requires gs.Valid()
    requires gs.board == Put(s.board, TileOf(s, d), None) && gs.pieces == s.pieces
    requires gs.white == s.white && gs.black == s.black
    requires forall x :: x in s.moves && x.color != a.color ==> x in gs.moves && gs.moves[x] == s.moves[x]
    modifies gs`board, gs`moves
    ensures gs.Valid()
    ensures flagged == (TileOf(s, k) in PseudoMoves(PinSim(s, d, m), a))
    ensures gs.board == old(gs.board)
    ensures forall x :: x in s.moves && x.color != a.color ==> x in gs.moves && gs.moves[x] == s.moves[x]
  {
    ghost var b := gs.board;
    var saved := gs.GetPieceAt(m.0, m.1);
    gs.SetPieceAt(m.0, m.1, Some(d));
    ghost var sim := PinSim(s, d, m);
    assert gs.board == sim.board && gs.pieces == sim.pieces;
    RegistryMembers(s, Opp(a.color));
    assert Registry(gs.Pos(), Opp(a.color)) == Registry(sim, Opp(a.color));
    PseudoFrame(gs.Pos(), sim, a);
    UpdatePossibleMoves(gs, a);
    flagged := gs.pieces[k].tile in gs.moves[a];
    gs.SetPieceAt(m.0, m.1, saved);
    PutPut(b, m, Some(d), saved);
    PutSame(b, m);
  }

  /** The simulation loop of the pin filter: the defender's squares in `pinned`, in cache order. */
  method FlagPinned(gs: GameState, k: PieceRef, a: PieceRef, d: PieceRef, ghost s: Position, ghost pinned: set<Tile>) returns (remove: seq<Tile>)
    requires Wf(s) && k in s.pieces && a in s.pieces && d in s.pieces
    requires gs.Valid()
    requires gs.board == Put(s.board, TileOf(s, d), None) && gs.pieces == s.pieces
    requires gs.white == s.white && gs.black == s.black
    requires forall x :: x in s.moves && x.color != a.color ==> x in gs.moves && gs.moves[x] == s.moves[x]
    requires a.color != d.color
    requires forall m :: m in MovesOf(s, d) ==> (m in pinned <==> TileOf(s, k) in PseudoMoves(PinSim(s, d, m), a))
    modifies gs`board, gs`moves
    ensures gs.Valid()
    ensures remove == FilterIn(s.moves[d], pinned)
    ensures gs.board == old(gs.board)
    ensures forall x :: x in s.moves && x.color != a.color ==> x in gs.moves && gs.moves[x] == s.moves[x]
  {
    var ms := gs.moves[d];
    remove := [];
    var i := 0;
    while i < |ms|
      invariant 0 <= i <= |ms|
      invariant gs.Valid() && gs.board == old(gs.board)
      invariant forall x :: x in s.moves && x.color != a.color ==> x in gs.moves && gs.moves[x] == s.moves[x]
      invariant remove == FilterIn(ms[..i], pinned)
    {
      var m := ms[i];
      assert m in MovesOf(s, d);
      var flagged := TryPinSquare(gs, k, a, d, m, s);
      FilterInStep(ms, i, pinned, remove, flagged);
      if flagged {
        remove := remove + [m];
      }
      i := i + 1;
    }
    assert ms[..|ms|] == ms;
  }

  /**
   * Simulation for one defender `d` attacked by `a`: `d`'s cell is cleared,
   * `d` is written on each of its cached squares in turn while `a`
   * recomputes its cache, and the squares after which `a` reaches the king's
   * square are collected; every simulated cell is written back, then `d` is
   * written on its own cell. The state `s` is the one the filter started
   * from; the grid may already hold `d` written back on its own cell.
   */
  method SimulatePin(gs: GameState, k: PieceRef, a: PieceRef, d: PieceRef, ghost s: Position) returns (remove: seq<Tile>)
    requires Wf(s) && k in s.pieces && a in s.pieces && d in s.pieces && a.color != d.color
    requires gs.Valid() && gs.pieces == s.pieces && gs.white == s.white && gs.black == s.black
    requires gs.board == s.board || gs.board == Put(s.board, TileOf(s, d), Some(d))
    requires forall x :: x in s.moves && x.color != a.color ==> x in gs.moves && gs.moves[x] == s.moves[x]
    modifies gs`board, gs`moves
    ensures gs.Valid()
    ensures remove == FilterIn(s.moves[d], Pinning(s, k, a, d))
    ensures gs.board == Put(s.board, TileOf(s, d), Some(d))
    ensures forall x :: x in s.moves && x.color != a.color ==> x in gs.moves && gs.moves[x] == s.moves[x]
  {
    var dt := gs.pieces[d].tile;
    gs.SetPieceAt(dt.0, dt.1, None);
    PutPut(s.board, dt, Some(d), None);
    PinningIff(s, k, a, d);
    remove := FlagPinned(gs, k, a, d, s, Pinning(s, k, a, d));
    gs.SetPieceAt(dt.0, dt.1, Some(d));
    PutPut(s.board, dt, None, Some(d));
  }

  /**
   * The simulation keeps the attacker's tile even when the defender is
   * written over it. Take a rook `a` whose ray in direction `i` meets the
   * defender `d` after `j` squares and the king after `n`, with every other
   * square in between empty, and suppose `d` has the rook's square (a
   * capture of the pinner) in its cache. Then the rook reaches `d`, so the
   * simulation runs, and, recomputing from its own tile with `d`'s cell
   * cleared, it reaches the king: the capture is flagged.
   */
  lemma PinnerCaptureFlagged(s: Position, k: PieceRef, a: PieceRef, d: PieceRef, i: nat, j: nat, n: nat)
    requires a.kind == Rook && d.color == Opp(a.color) && k.color == d.color
    requires Placed(s, d) && Placed(s, k)
    requires i < |RookDirections| && 1 <= j < n <= 7
    requires TileOf(s, d) == Along(TileOf(s, a), RookDirections[i], j)
    requires TileOf(s, k) == Along(TileOf(s, a), RookDirections[i], n)
    requires forall l :: 1 <= l <= n ==> OnBoard(Along(TileOf(s, a), RookDirections[i], l))
    requires forall l :: 1 <= l < n && l != j ==> At(s.board, Along(TileOf(s, a), RookDirections[i], l)) == None
    requires TileOf(s, a) in MovesOf(s, d)
    ensures TileOf(s, d) in PseudoMoves(s, a)
    ensures TileOf(s, a) in Pinning(s, k, a, d)
    ensures TileOf(s, a) in FilterIn(MovesOf(s, d), Pinning(s, k, a, d))
  {
    var ta, dir := TileOf(s, a), RookDirections[i];
    var dt, kt := TileOf(s, d), TileOf(s, k);
    assert Reachable(s.board, ta, a.color, dir, j);
    LinearMovesIff(s.board, ta, a.color, RookDirections, dt);
    var sim := PinSim(s, d, ta);
    RookAlongDistinct(ta, dir, n, 0);
    RookAlongDistinct(ta, dir, n, j);
    assert Along(ta, dir, 0) == ta;
    forall l | 1 <= l < n
      ensures OnBoard(Along(ta, dir, l)) && At(sim.board, Along(ta, dir, l)) == None
    {
      RookAlongDistinct(ta, dir, l, 0);
    }
    assert At(sim.board, kt) == Some(k);
    assert Reachable(sim.board, ta, a.color, dir, n);
    LinearMovesIff(sim.board, ta, a.color, RookDirections, kt);
    assert TileOf(sim, k) in PseudoMoves(sim, a);
    FilterInCount(MovesOf(s, d), Pinning(s, k, a, d), ta);
    assert ta in multiset(MovesOf(s, d));
  }

  /**
   * The pin filter for one defender `d`: every piece of colour `mc`
   * recomputes its cache; each one that reaches `d`'s square runs the
   * simulation; the collected squares are then removed from `d`'s cache.
   */
  method PinFilterOne(gs: GameState, mc: Color, k: PieceRef, d: PieceRef)
    requires gs.Valid() && k in gs.pieces && d in gs.pieces && d.color == Opp(mc)
    modifies gs`board, gs`moves
    ensures gs.Valid()
    ensures gs.board == old(gs.board) || gs.board == Put(old(gs.board), old(gs.pieces)[d].tile, Some(d))
    ensures multiset(gs.moves[d]) <= multiset(old(gs.moves)[d])
    ensures forall x :: x in old(gs.moves) && x.color == d.color && x != d ==> gs.moves[x] == old(gs.moves)[x]
  {
    ghost var s := gs.Pos();
    var reg := gs.GetPiecesByColor(mc);
    RegistryMembers(s, mc);
    var dt := gs.pieces[d].tile;
    var remove: seq<Tile> := [];
    var j := 0;
    while j < |reg|
      invariant 0 <= j <= |reg|
      invariant gs.Valid()
      invariant gs.board == s.board || gs.board == Put(s.board, dt, Some(d))
      invariant forall x :: x in s.moves && x.color == d.color ==> x in gs.moves && gs.moves[x] == s.moves[x]
    {
      var a := reg[j];
      assert a in reg;
      UpdatePossibleMoves(gs, a);
      if dt in gs.moves[a] {
        var more := SimulatePin(gs, k, a, d, s);
        remove := remove + more;
      }
      j := j + 1;
    }
    RemoveEachShrinks(gs.moves[d], remove);
    RemoveAll(gs, d, remove);
  }

  /**
   * `remove_moves_that_puts_king_in_chess`: each piece of the side to move
   * (colour Opp(mc)) loses the cached squares after which some piece of
   * colour `mc` would reach that side's king. The caches of that side only
   * shrink; the piece fields and colour lists are untouched; when every
   * piece of that side stands on the cell its tile names, the grid is
   * restored.
   */
  method RemoveMovesThatPutKingInCheck(gs: GameState, mc: Color)
    requires gs.Valid() && gs.GetKing(Opp(mc)).Some?
    modifies gs`board, gs`moves
    ensures gs.Valid()
    ensures forall x :: x in old(gs.moves) && x.color == Opp(mc) ==> multiset(gs.moves[x]) <= multiset(old(gs.moves)[x])
    ensures AllPlaced(old(gs.Pos()), Registry(old(gs.Pos()), Opp(mc))) ==> gs.board == old(gs.board)
  {
    ghost var s := gs.Pos();
    var k := gs.GetKing(Opp(mc)).value;
    var reg := gs.GetPiecesByColor(Opp(mc));
    var i := 0;
    while i < |reg|
      invariant 0 <= i <= |reg|
      invariant gs.Valid() && gs.pieces == s.pieces
      invariant forall x :: x in s.moves && x.color == Opp(mc) ==> multiset(gs.moves[x]) <= multiset(s.moves[x])
      invariant AllPlaced(s, reg) ==> gs.board == s.board
    {
      var d := reg[i];
      assert d in reg;
      PinFilterOne(gs, mc, k, d);
      if AllPlaced(s, reg) {
        PutSame(s.board, s.pieces[d].tile);
      }
      i := i + 1;
    }
  }

  /* ---------- update_available_moves ---------- */

  /** The strings "move", "check", "checkmate" and "stalemate" that `update_available_moves` returns. */
  datatype Status = Quiet | Check | Checkmate | Stalemate

  /** Every listed piece, and the king `k`, stands on the cell its tile names. */
  ghost predicate Settled(s: Position, k: PieceRef)
  {
    AllPlaced(s, s.white) && AllPlaced(s, s.black) && Placed(s, k)
  }

  /** Settled depends on the grid, the piece fields and the colour lists taken as sets. */
  lemma SettledSame(s: Position, s': Position, k: PieceRef, c: Color)
    requires Settled(s, k) && s'.board == s.board && s'.pieces == s.pieces
    requires Registry(s', Opp(c)) == Registry(s, Opp(c))
    requires forall x :: x in Registry(s', c) <==> x in Registry(s, c)
    ensures Settled(s', k)
    ensures forall x :: x in Registry(s', Opp(c)) ==> Placed(s', x)
  {
    assert forall x :: Placed(s', x) == Placed(s, x);
    if c == 1 {
      assert Registry(s', c) == s'.white && Registry(s, c) == s.white;
    } else {
      assert Registry(s', c) == s'.black && Registry(s, c) == s.black;
    }
  }

  /**
   * The branch of `update_available_moves` where the king of the side to
   * move is not in check: the pin filter, then the king filter. The caches
   * of the side to move only shrink, the piece fields and colour lists are
   * untouched, and a settled grid is restored.
   */
  method QuietBranch(gs: GameState, mc: Color, k: PieceRef)
    requires gs.Valid() && gs.GetKing(Opp(mc)) == Some(k)
    modifies gs`board, gs`pieces, gs`moves
    ensures gs.Valid() && gs.pieces == old(gs.pieces)
    ensures forall x :: x in old(gs.moves) && x.color == Opp(mc) ==> multiset(gs.moves[x]) <= multiset(old(gs.moves)[x])
    ensures Settled(old(gs.Pos()), k) ==> gs.board == old(gs.board)
  {
    ghost var s := gs.Pos();
    RemoveMovesThatPutKingInCheck(gs, mc);
    RemoveKingMovesThatCheckHim(gs, k);
    if Settled(s, k) {
      PutSame(s.board, s.pieces[k].tile);
    }
  }

  /**
   * One step of the check branch for the defender `d`: the king filter when
   * `d` is the king, otherwise the checking piece is looked up (a failure
   * when none is found) and the check filter runs.
   */
  method CheckStep(gs: GameState, moved: PieceRef, k: PieceRef, d: PieceRef) returns (ok: bool)
    requires gs.Valid() && gs.GetKing(Opp(moved.color)) == Some(k)
    requires d in gs.pieces && d.color == Opp(moved.color)
    modifies gs`board, gs`pieces, gs`moves, gs`white, gs`black
    ensures gs.Valid() && gs.pieces == old(gs.pieces)
    ensures Registry(gs.Pos(), Opp(moved.color)) == Registry(old(gs.Pos()), Opp(moved.color))
    ensures forall x :: x in Registry(gs.Pos(), moved.color) <==> x in Registry(old(gs.Pos()), moved.color)
    ensures forall x :: x in old(gs.moves) && x.color == Opp(moved.color) ==> multiset(gs.moves[x]) <= multiset(old(gs.moves)[x])
    ensures Settled(old(gs.Pos()), k) && Placed(old(gs.Pos()), d) ==> gs.board == old(gs.board)
    ensures !ok ==> d != k && !InCheck(old(gs.Pos()), k)
  {
    ghost var s := gs.Pos();
    if d == k {
      RemoveKingMovesThatCheckHim(gs, d);
      PutSame(s.board, s.pieces[k].tile);
      return true;
    }
    ok := DefenderStep(gs, moved, k, d);
  }

  /** The check branch's step for a defender other than the king: find the checking piece, then run the check filter. */
  method DefenderStep(gs: GameState, moved: PieceRef, k: PieceRef, d: PieceRef) returns (ok: bool)
    requires gs.Valid() && gs.GetKing(Opp(moved.color)) == Some(k)
    requires d in gs.pieces && d.color == Opp(moved.color)
    modifies gs`moves, gs`board, gs`white, gs`black
    ensures gs.Valid()
    ensures Registry(gs.Pos(), Opp(moved.color)) == Registry(old(gs.Pos()), Opp(moved.color))
    ensures forall x :: x in Registry(gs.Pos(), moved.color) <==> x in Registry(old(gs.Pos()), moved.color)
    ensures forall x :: x in old(gs.moves) && x.color == Opp(moved.color) ==> multiset(gs.moves[x]) <= multiset(old(gs.moves)[x])
    ensures Settled(old(gs.Pos()), k) && Placed(old(gs.Pos()), d) ==> gs.board == old(gs.board)
    ensures !ok ==> !InCheck(old(gs.Pos()), k)
  {
    ghost var s := gs.Pos();
    var checker := GetPieceThatCheck(gs, moved.color);
    if checker.None? {
      return false;
    }
    ProtectStep(gs, moved, k, d, checker.value, s);
    return true;
  }

  /** Caches of colour `c` equal to those of `m0` in `m1`, and in `m2` only the cache of `d` shrunk: every cache of colour `c` in `m2` is a sub-multiset of its `m0` version. */
  lemma ShrinkTrans(m0: map<PieceRef, seq<Tile>>, m1: map<PieceRef, seq<Tile>>, m2: map<PieceRef, seq<Tile>>, c: Color, d: PieceRef)
    requires forall x :: x in m0 && x.color == c ==> x in m1 && m1[x] == m0[x]
    requires m1.Keys == m2.Keys && d in m1
    requires multiset(m2[d]) <= multiset(m1[d])
    requires forall x :: x in m1 && x.color != Opp(c) && x != d ==> m2[x] == m1[x]
    ensures forall x :: x in m0 && x.color == c ==> x in m2 && multiset(m2[x]) <= multiset(m0[x])
  {
    forall x | x in m0 && x.color == c
      ensures x in m2 && multiset(m2[x]) <= multiset(m0[x])
    {
      if x != d {
        assert x.color != Opp(c);
      }
    }
  }

  /** The check filter run for the defender `d` against `checker`, seen from the snapshot `s` taken before the checker was looked up. */
  method ProtectStep(gs: GameState, moved: PieceRef, k: PieceRef, d: PieceRef, checker: PieceRef, ghost s: Position)
    requires gs.Valid() && gs.GetKing(Opp(moved.color)) == Some(k)
    requires d in gs.pieces && d.color == Opp(moved.color) && checker in Registry(gs.Pos(), moved.color)
    requires Wf(s) && gs.board == s.board && gs.pieces == s.pieces && gs.white == s.white && gs.black == s.black
    requires forall x :: x in s.moves && x.color == Opp(moved.color) ==> x in gs.moves && gs.moves[x] == s.moves[x]
    modifies gs`moves, gs`board, gs`white, gs`black
    ensures gs.Valid()
    ensures Registry(gs.Pos(), Opp(moved.color)) == Registry(s, Opp(moved.color))
    ensures forall x :: x in Registry(gs.Pos(), moved.color) <==> x in Registry(s, moved.color)
    ensures forall x :: x in s.moves && x.color == Opp(moved.color) ==> x in gs.moves && multiset(gs.moves[x]) <= multiset(s.moves[x])
    ensures Settled(s, k) && Placed(s, d) ==> gs.board == s.board
  {
    RegistryMembers(gs.Pos(), moved.color);
    ghost var s1 := gs.Pos();
    RemovesMovesThatDoesntProtectKing(gs, moved, d, checker);
    assert Opp(Opp(moved.color)) == moved.color;
    ShrinkTrans(s.moves, s1.moves, gs.moves, Opp(moved.color), d);
    RemovedThenAdded(Registry(s1, moved.color), checker);
    if Settled(s, k) && Placed(s, d) {
      ProtectFilterRestores(s1, d, checker);
    }
  }

  /**
   * The loop of the check branch: each piece of the side to move, in list
   * order, is filtered, and as soon as no piece of that side has a cached
   * move the result is checkmate; otherwise check. A missing checking
   * piece is a failure.
   */
  method CheckBranch(gs: GameState, moved: PieceRef, k: PieceRef) returns (r: Result<Status, Fault>)
    requires gs.Valid() && gs.GetKing(Opp(moved.color)) == Some(k)
    modifies gs`board, gs`pieces, gs`moves, gs`white, gs`black
    ensures gs.Valid() && gs.pieces == old(gs.pieces)
    ensures r == Success(Check) || r == Success(Checkmate) || r == Failure(NoCheckingPiece)
    ensures r == Success(Checkmate) ==> NoMoves(gs.Pos(), Opp(moved.color))
    ensures r == Success(Check) && Registry(old(gs.Pos()), Opp(moved.color)) != [] ==> !NoMoves(gs.Pos(), Opp(moved.color))
    ensures Registry(gs.Pos(), Opp(moved.color)) == Registry(old(gs.Pos()), Opp(moved.color))
    ensures forall x :: x in Registry(gs.Pos(), moved.color) <==> x in Registry(old(gs.Pos()), moved.color)
    ensures forall x :: x in old(gs.moves) && x.color == Opp(moved.color) ==> multiset(gs.moves[x]) <= multiset(old(gs.moves)[x])
    ensures Settled(old(gs.Pos()), k) ==> gs.board == old(gs.board)
  {
    ghost var s := gs.Pos();
    var reg := gs.GetPiecesByColor(Opp(moved.color));
    var i := 0;
    while i < |reg|
      invariant 0 <= i <= |reg|
      invariant CheckRoundInv(gs, moved, k, s)
      invariant i > 0 ==> !NoMoves(gs.Pos(), Opp(moved.color))
    {
      var d := reg[i];
      assert d in reg;
      var ok, cant := CheckRound(gs, moved, k, d, s);
      if !ok {
        return Failure(NoCheckingPiece);
      }
      if cant {
        return Success(Checkmate);
      }
      i := i + 1;
    }
    return Success(Check);
  }

  /** What holds between the rounds of the check branch, relative to the snapshot `s` taken before it. */
  ghost predicate CheckRoundInv(gs: GameState, moved: PieceRef, k: PieceRef, s: Position)
    reads gs
  {
    gs.Valid() && gs.pieces == s.pieces && gs.GetKing(Opp(moved.color)) == Some(k)
    && Registry(gs.Pos(), Opp(moved.color)) == Registry(s, Opp(moved.color))
    && (forall x :: x in Registry(gs.Pos(), moved.color) <==> x in Registry(s, moved.color))
    && (forall x :: x in s.moves && x.color == Opp(moved.color) ==> x in gs.moves && multiset(gs.moves[x]) <= multiset(s.moves[x]))
    && (Settled(s, k) ==> gs.board == s.board)
  }

  /** One round of the check branch: filter the defender `d`, then ask whether the side to move has any cached move left. */
  method CheckRound(gs: GameState, moved: PieceRef, k: PieceRef, d: PieceRef, ghost s: Position) returns (ok: bool, cant: bool)
    requires CheckRoundInv(gs, moved, k, s) && d in Registry(s, Opp(moved.color))
    modifies gs`board, gs`pieces, gs`moves, gs`white, gs`black
    ensures CheckRoundInv(gs, moved, k, s)
    ensures ok ==> (cant <==> NoMoves(gs.Pos(), Opp(moved.color)))
  {
    RegistryMembers(gs.Pos(), Opp(moved.color));
    if Settled(s, k) {
      SettledSame(s, gs.Pos(), k, moved.color);
    }
    ok := CheckStep(gs, moved, k, d);
    cant := false;
    if ok {
      cant := PlayerCantMove(gs, Opp(moved.color));
    }
  }

  /**
   * `update_available_moves` after `moved` has moved: the side to move
   * (colour Opp(moved.color)) recomputes its caches; when its king is not in
   * check the pin filter and the king filter run and the result is
   * stalemate if no cached move is left, a plain move otherwise; when it is
   * in check the check branch runs. The caches of the side to move end up
   * within its freshly computed pseudo-legal moves, the piece fields and the
   * membership of the colour lists are kept, and a settled grid is restored.
   */
  method UpdateAvailableMoves(gs: GameState, moved: PieceRef) returns (r: Result<Status, Fault>)
    requires gs.Valid() && gs.GetKing(Opp(moved.color)).Some?
    modifies gs`board, gs`pieces, gs`moves, gs`white, gs`black
    ensures gs.Valid() && gs.pieces == old(gs.pieces)
    ensures var s := old(gs.Pos());
            var k := old(gs.GetKing(Opp(moved.color))).value;
            var s1 := Refreshed(s, Opp(moved.color), |Registry(s, Opp(moved.color))|);
            (r == Success(Quiet) || r == Success(Stalemate)) <==> !InCheck(s1, k)
    ensures r == Success(Stalemate) || r == Success(Checkmate) ==> NoMoves(gs.Pos(), Opp(moved.color))
    ensures r == Success(Quiet) ==> !NoMoves(gs.Pos(), Opp(moved.color))
    ensures r == Success(Check) && Registry(old(gs.Pos()), Opp(moved.color)) != [] ==> !NoMoves(gs.Pos(), Opp(moved.color))
    ensures r.Failure? ==> r.error == NoCheckingPiece
    ensures forall x :: x in Registry(old(gs.Pos()), Opp(moved.color)) ==>
              multiset(gs.moves[x]) <= multiset(PseudoMoves(old(gs.Pos()), x))
    ensures Registry(gs.Pos(), Opp(moved.color)) == Registry(old(gs.Pos()), Opp(moved.color))
    ensures forall x :: x in Registry(gs.Pos(), moved.color) <==> x in Registry(old(gs.Pos()), moved.color)
    ensures Settled(old(gs.Pos()), old(gs.GetKing(Opp(moved.color))).value) ==> gs.board == old(gs.board)
  {
    ghost var s := gs.Pos();
    var mc := moved.color;
    var k := gs.GetKing(Opp(mc)).value;
    var inCheck := RefreshAndTest(gs, k);
    ghost var s2 := gs.Pos();
    assert Settled(s, k) ==> Settled(s2, k);
    r := Classify(gs, moved, k, inCheck);
  }

  /** The start of `update_available_moves`: the side of `k` recomputes every cache, then `king_in_chess` runs on the refreshed snapshot. */
  method RefreshAndTest(gs: GameState, k: PieceRef) returns (inCheck: bool)
    requires gs.Valid() && k in gs.pieces
    modifies gs`moves
    ensures gs.Valid()
    ensures var s := old(gs.Pos());
            inCheck == InCheck(Refreshed(s, k.color, |Registry(s, k.color)|), k)
    ensures forall x :: x in Registry(old(gs.Pos()), k.color) ==> x in gs.moves && gs.moves[x] == PseudoMoves(old(gs.Pos()), x)
  {
    ghost var s := gs.Pos();
    RefreshColor(gs, k.color);
    RefreshedFresh(s, k.color);
    inCheck := KingInCheck(gs, k);
    assert Opp(Opp(k.color)) == k.color;
  }

  /** The two branches of `update_available_moves`, once it is known whether the king of the side to move is in check. */
  method Classify(gs: GameState, moved: PieceRef, k: PieceRef, inCheck: bool) returns (r: Result<Status, Fault>)
    requires gs.Valid() && gs.GetKing(Opp(moved.color)) == Some(k)
    modifies gs`board, gs`pieces, gs`moves, gs`white, gs`black
    ensures gs.Valid() && gs.pieces == old(gs.pieces)
    ensures (r == Success(Quiet) || r == Success(Stalemate)) <==> !inCheck
    ensures r == Success(Stalemate) || r == Success(Checkmate) ==> NoMoves(gs.Pos(), Opp(moved.color))
    ensures r == Success(Quiet) ==> !NoMoves(gs.Pos(), Opp(moved.color))
    ensures r == Success(Check) && Registry(old(gs.Pos()), Opp(moved.color)) != [] ==> !NoMoves(gs.Pos(), Opp(moved.color))
    ensures r.Failure? ==> r.error == NoCheckingPiece
    ensures forall x :: x in old(gs.moves) && x.color == Opp(moved.color) ==> multiset(gs.moves[x]) <= multiset(old(gs.moves)[x])
    ensures Registry(gs.Pos(), Opp(moved.color)) == Registry(old(gs.Pos()), Opp(moved.color))
    ensures forall x :: x in Registry(gs.Pos(), moved.color) <==> x in Registry(old(gs.Pos()), moved.color)
    ensures Settled(old(gs.Pos()), k) ==> gs.board == old(gs.board)
  {
    if !inCheck {
      QuietBranch(gs, moved.color, k);
      var cant := PlayerCantMove(gs, Opp(moved.color));
      if cant {
        return Success(Stalemate);
      }
      return Success(Quiet);
    }
    r := CheckBranch(gs, moved, k);
  }

  /** After refreshing a whole colour, each of its listed pieces holds its pseudo-legal moves. */
  lemma RefreshedFresh(s: Position, c: Color)
    requires Wf(s)
    ensures var reg := Registry(s, c);
            forall x :: x in reg ==> x in Refreshed(s, c, |reg|).moves && Refreshed(s, c, |reg|).moves[x] == PseudoMoves(s, x)
  {
    var reg := Registry(s, c);
    RefreshUpToAt(s, reg, |reg|);
    assert reg[..|reg|] == reg;
  }
}
