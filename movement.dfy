/**
 * Move geometry of the sliding, jumping and stepping pieces (src/movement.py).
 * Each function only reads the grid; it returns the target squares in the
 * order the source's loops append them.
 */
module Movement {
  import opened Common
  import opened GameStates

  /** A (row_delta, col_delta) direction or offset. */
  type Dir = (int, int)

  const RookDirections: seq<Dir> := [(-1, 0), (1, 0), (0, -1), (0, 1)]

  const BishopDirections: seq<Dir> := [(-1, -1), (-1, 1), (1, -1), (1, 1)]

  const QueenDirections: seq<Dir> := RookDirections + BishopDirections

  const KnightOffsets: seq<Dir> := [(-2, -1), (-2, 1), (-1, -2), (-1, 2), (1, -2), (1, 2), (2, -1), (2, 1)]

  /** The offsets of get_king_moves's two nested loops over -1..1, in loop order, (0, 0) skipped. */
  const KingOffsets: seq<Dir> := [(-1, -1), (-1, 0), (-1, 1), (0, -1), (0, 1), (1, -1), (1, 0), (1, 1)]

  /** A square a piece of `color` may enter: empty, or holding a piece of the other colour. */
  predicate Open(b: Board, t: Tile, color: Color)
  {
    At(b, t) == None || At(b, t).value.color == Opp(color)
  }

  /** The square `k` steps from `pos` along `d`. */
  function Along(pos: Tile, d: Dir, k: int): Tile
  {
    (pos.0 + d.0 * k, pos.1 + d.1 * k)
  }

  /**
   * The inner loop of get_linear_moves for one direction, from distance
   * `dist` on: empty squares are collected, an enemy square is collected and
   * ends the ray, an own piece or the board edge ends it, and distance 7 is
   * the last one tried.
   */
  function Ray(b: Board, pos: Tile, color: Color, d: Dir, dist: int): seq<Tile>
    requires 1 <= dist
    decreases 8 - dist
  {
    if dist > 7 then []
    else
      var t := Along(pos, d, dist);
      if !OnBoard(t) then []
      else if At(b, t) == None then [t] + Ray(b, pos, color, d, dist + 1)
      else if At(b, t).value.color == Opp(color) then [t]
      else []
  }

  /** get_linear_moves: the rays of `dirs`, one after the other. */
  function LinearMoves(b: Board, pos: Tile, color: Color, dirs: seq<Dir>): seq<Tile>
  {
    RaysUpTo(b, pos, color, dirs, |dirs|)
  }

  /** The rays of the first `n` directions of `dirs`. */
  function RaysUpTo(b: Board, pos: Tile, color: Color, dirs: seq<Dir>, n: nat): seq<Tile>
    requires n <= |dirs|
  {
    if n == 0 then [] else RaysUpTo(b, pos, color, dirs, n - 1) + Ray(b, pos, color, dirs[n - 1], 1)
  }

  /** The loop of get_knight_moves / get_king_moves: each offset square that is on the board and open. */
  function StepMoves(b: Board, pos: Tile, color: Color, offs: seq<Dir>): seq<Tile>
  {
    StepsUpTo(b, pos, color, offs, |offs|)
  }

  /** The step moves of the first `n` offsets of `offs`. */
  function StepsUpTo(b: Board, pos: Tile, color: Color, offs: seq<Dir>, n: nat): (r: seq<Tile>)
    requires n <= |offs|
    ensures |r| <= n
  {
    if n == 0 then []
    else
      var rest := StepsUpTo(b, pos, color, offs, n - 1);
      var t := (pos.0 + offs[n - 1].0, pos.1 + offs[n - 1].1);
      if OnBoard(t) && Open(b, t, color) then rest + [t] else rest
  }

  function KnightMoves(b: Board, pos: Tile, color: Color): seq<Tile>
  {
    StepMoves(b, pos, color, KnightOffsets)
  }

  /** get_king_moves: one step in each of the eight directions, castling excluded. */
  function KingMoves(b: Board, pos: Tile, color: Color): seq<Tile>
  {
    StepMoves(b, pos, color, KingOffsets)
  }

  /* ---------- reference definitions ---------- */

  /**
   * Along `d`, distance `k` (from `dist` up to 7) is on the board and open and
   * every nearer distance from `dist` on is on the board and empty.
   */
  ghost predicate ReachableFrom(b: Board, pos: Tile, color: Color, d: Dir, dist: int, k: int)
  {
    dist <= k <= 7 && OnBoard(Along(pos, d, k)) && Open(b, Along(pos, d, k), color)
    && forall j :: dist <= j < k ==> OnBoard(Along(pos, d, j)) && At(b, Along(pos, d, j)) == None
  }

  /** A sliding piece on `pos` can reach distance `k` along `d`: the squares before are free. */
  ghost predicate Reachable(b: Board, pos: Tile, color: Color, d: Dir, k: int)
  {
    ReachableFrom(b, pos, color, d, 1, k)
  }

  /** Along a rook direction, different distances give different squares. */
  lemma RookAlongDistinct(pos: Tile, dir: Dir, l: int, l': int)
    requires dir in RookDirections && l != l'
    ensures Along(pos, dir, l) != Along(pos, dir, l')
  {
  }

  function Abs(x: int): nat
  {
    if x < 0 then -x else x
  }

  /** The king-move distance between two squares. */
  function Chebyshev(s: Tile, t: Tile): nat
  {
    var dr := Abs(s.0 - t.0);
    var dc := Abs(s.1 - t.1);
    if dr < dc then dc else dr
  }

  /** A knight's jump: two squares one way and one the other. */
  predicate KnightJump(s: Tile, t: Tile)
  {
    (Abs(s.0 - t.0) == 1 && Abs(s.1 - t.1) == 2) || (Abs(s.0 - t.0) == 2 && Abs(s.1 - t.1) == 1)
  }

  /* ---------- lemmas ---------- */

  /**
   * A ray lists consecutive distances from `dist`, none beyond 7, each on the
   * board and open, and all but the last empty.
   */
  lemma {:induction false} RayShape(b: Board, pos: Tile, color: Color, d: Dir, dist: int)
    requires 1 <= dist
    ensures var r := Ray(b, pos, color, d, dist);
            (r != [] ==> dist + |r| <= 8)
            && (forall i :: 0 <= i < |r| ==> r[i] == Along(pos, d, dist + i) && OnBoard(r[i]) && Open(b, r[i], color))
            && (forall i :: 0 <= i < |r| - 1 ==> At(b, r[i]) == None)
    decreases 8 - dist
  {
    if dist <= 7 && OnBoard(Along(pos, d, dist)) && At(b, Along(pos, d, dist)) == None {
      RayShape(b, pos, color, d, dist + 1);
    }
  }

  /** A ray holds exactly the reachable squares of its direction. */
  lemma {:induction false} RayComplete(b: Board, pos: Tile, color: Color, d: Dir, dist: int, k: int)
    requires 1 <= dist && ReachableFrom(b, pos, color, d, dist, k)
    ensures Along(pos, d, k) in Ray(b, pos, color, d, dist)
    decreases k - dist
  {
    if k > dist {
      assert OnBoard(Along(pos, d, dist)) && At(b, Along(pos, d, dist)) == None;
      assert ReachableFrom(b, pos, color, d, dist + 1, k);
      RayComplete(b, pos, color, d, dist + 1, k);
    }
  }

  lemma RaySound(b: Board, pos: Tile, color: Color, d: Dir, dist: int, t: Tile)
    requires 1 <= dist && t in Ray(b, pos, color, d, dist)
    ensures exists k :: ReachableFrom(b, pos, color, d, dist, k) && t == Along(pos, d, k)
  {
    var r := Ray(b, pos, color, d, dist);
    RayShape(b, pos, color, d, dist);
    var i :| 0 <= i < |r| && r[i] == t;
    forall j | dist <= j < dist + i ensures OnBoard(Along(pos, d, j)) && At(b, Along(pos, d, j)) == None {
      assert r[j - dist] == Along(pos, d, j);
    }
    assert ReachableFrom(b, pos, color, d, dist, dist + i);
  }

  /** The first `n` rays hold exactly the squares that one of the first `n` directions reaches. */
  lemma {:induction false} RaysUpToIff(b: Board, pos: Tile, color: Color, dirs: seq<Dir>, n: nat, t: Tile)
    requires n <= |dirs|
    ensures t in RaysUpTo(b, pos, color, dirs, n) <==>
            exists i, k :: 0 <= i < n && Reachable(b, pos, color, dirs[i], k) && t == Along(pos, dirs[i], k)
  {
    if n > 0 {
      RaysUpToIff(b, pos, color, dirs, n - 1, t);
      var last := dirs[n - 1];
      if t in Ray(b, pos, color, last, 1) {
        RaySound(b, pos, color, last, 1, t);
      }
      if exists i, k :: 0 <= i < n && Reachable(b, pos, color, dirs[i], k) && t == Along(pos, dirs[i], k) {
        var i, k :| 0 <= i < n && Reachable(b, pos, color, dirs[i], k) && t == Along(pos, dirs[i], k);
        if i == n - 1 {
          RayComplete(b, pos, color, last, 1, k);
        }
      }
    }
  }

  /**
   * get_linear_moves returns exactly the squares some direction reaches: on
   * the board, empty or enemy-held, with only empty squares before them.
   */
  lemma LinearMovesIff(b: Board, pos: Tile, color: Color, dirs: seq<Dir>, t: Tile)
    ensures t in LinearMoves(b, pos, color, dirs) <==>
            exists i, k :: 0 <= i < |dirs| && Reachable(b, pos, color, dirs[i], k) && t == Along(pos, dirs[i], k)
  {
    RaysUpToIff(b, pos, color, dirs, |dirs|, t);
  }

  /** Every square get_linear_moves returns is on the board and empty or enemy-held. */
  lemma LinearMovesOpen(b: Board, pos: Tile, color: Color, dirs: seq<Dir>)
    ensures forall t :: t in LinearMoves(b, pos, color, dirs) ==> OnBoard(t) && Open(b, t, color)
  {
    forall t | t in LinearMoves(b, pos, color, dirs) ensures OnBoard(t) && Open(b, t, color) {
      LinearMovesIff(b, pos, color, dirs, t);
    }
  }

  /** The rays of a prefix of `d1 + d2` are those of the same prefix of `d1`. */
  lemma {:induction false} RaysUpToPrefix(b: Board, pos: Tile, color: Color, d1: seq<Dir>, d2: seq<Dir>, n: nat)
    requires n <= |d1|
    ensures RaysUpTo(b, pos, color, d1 + d2, n) == RaysUpTo(b, pos, color, d1, n)
  {
    if n > 0 {
      RaysUpToPrefix(b, pos, color, d1, d2, n - 1);
      assert (d1 + d2)[n - 1] == d1[n - 1];
    }
  }

  lemma SeqAssoc<T>(a: seq<T>, m: seq<T>, r: seq<T>)
    ensures (a + m) + r == a + (m + r)
  {
  }

  /** Past `d1`, the rays of `d1 + d2` continue with those of `d2`. */
  lemma {:induction false} RaysUpToAppend(b: Board, pos: Tile, color: Color, d1: seq<Dir>, d2: seq<Dir>, n: nat)
    requires n <= |d2|
    ensures RaysUpTo(b, pos, color, d1 + d2, |d1| + n) == RaysUpTo(b, pos, color, d1, |d1|) + RaysUpTo(b, pos, color, d2, n)
  {
    if n == 0 {
      RaysUpToPrefix(b, pos, color, d1, d2, |d1|);
    } else {
      RaysUpToAppend(b, pos, color, d1, d2, n - 1);
      var dd := d1 + d2;
      assert dd[|d1| + n - 1] == d2[n - 1];
      var a, m, r := RaysUpTo(b, pos, color, d1, |d1|), RaysUpTo(b, pos, color, d2, n - 1), Ray(b, pos, color, d2[n - 1], 1);
      calc {
        RaysUpTo(b, pos, color, dd, |d1| + n);
        RaysUpTo(b, pos, color, dd, |d1| + n - 1) + Ray(b, pos, color, dd[|d1| + n - 1], 1);
        (a + m) + r;
        { SeqAssoc(a, m, r); }
        a + (m + r);
        a + RaysUpTo(b, pos, color, d2, n);
      }
    }
  }

  /** Collecting two direction lists one after the other is collecting each in turn. */
  lemma LinearMovesAppend(b: Board, pos: Tile, color: Color, d1: seq<Dir>, d2: seq<Dir>)
    ensures LinearMoves(b, pos, color, d1 + d2) == LinearMoves(b, pos, color, d1) + LinearMoves(b, pos, color, d2)
  {
    RaysUpToAppend(b, pos, color, d1, d2, |d2|);
  }

  /** The queen's moves are the rook's moves followed by the bishop's, from the same square. */
  lemma QueenIsRookThenBishop(b: Board, pos: Tile, color: Color)
    ensures LinearMoves(b, pos, color, QueenDirections)
            == LinearMoves(b, pos, color, RookDirections) + LinearMoves(b, pos, color, BishopDirections)
  {
    LinearMovesAppend(b, pos, color, RookDirections, BishopDirections);
  }

  /** A step move lands on one of the first `n` offsets from `pos`, on the board and open; each such square is listed. */
  lemma {:induction false} StepsUpToIff(b: Board, pos: Tile, color: Color, offs: seq<Dir>, n: nat, t: Tile)
    requires n <= |offs|
    ensures t in StepsUpTo(b, pos, color, offs, n) <==>
            OnBoard(t) && Open(b, t, color) && exists i :: 0 <= i < n && t == (pos.0 + offs[i].0, pos.1 + offs[i].1)
  {
    if n > 0 {
      StepsUpToIff(b, pos, color, offs, n - 1, t);
    }
  }

  lemma StepMovesIff(b: Board, pos: Tile, color: Color, offs: seq<Dir>, t: Tile)
    ensures |StepMoves(b, pos, color, offs)| <= |offs|
    ensures t in StepMoves(b, pos, color, offs) <==>
            OnBoard(t) && Open(b, t, color) && exists i :: 0 <= i < |offs| && t == (pos.0 + offs[i].0, pos.1 + offs[i].1)
  {
    StepsUpToIff(b, pos, color, offs, |offs|, t);
  }

  /** get_knight_moves: at most eight squares, exactly the open on-board squares a knight's jump away. */
  lemma KnightMovesIff(b: Board, pos: Tile, color: Color, t: Tile)
    ensures |KnightMoves(b, pos, color)| <= 8
    ensures t in KnightMoves(b, pos, color) <==> OnBoard(t) && Open(b, t, color) && KnightJump(pos, t)
  {
    StepMovesIff(b, pos, color, KnightOffsets, t);
    if KnightJump(pos, t) {
      var dr, dc := t.0 - pos.0, t.1 - pos.1;
      var i := if dr == -2 then (if dc == -1 then 0 else 1)
               else if dr == -1 then (if dc == -2 then 2 else 3)
               else if dr == 1 then (if dc == -2 then 4 else 5)
               else (if dc == -1 then 6 else 7);
      assert t == (pos.0 + KnightOffsets[i].0, pos.1 + KnightOffsets[i].1);
    }
  }

  /** get_king_moves: exactly the open on-board squares at king-move distance 1 (never `pos` itself). */
  lemma KingMovesIff(b: Board, pos: Tile, color: Color, t: Tile)
    ensures |KingMoves(b, pos, color)| <= 8
    ensures t in KingMoves(b, pos, color) <==> OnBoard(t) && Open(b, t, color) && Chebyshev(pos, t) == 1
  {
    StepMovesIff(b, pos, color, KingOffsets, t);
    if Chebyshev(pos, t) == 1 {
      var dr, dc := t.0 - pos.0, t.1 - pos.1;
      var i := if dr == -1 then dc + 1 else if dr == 0 then (if dc == -1 then 3 else 4) else dc + 6;
      assert t == (pos.0 + KingOffsets[i].0, pos.1 + KingOffsets[i].1);
    }
  }
}
