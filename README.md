# Chess rules engine — a Dafny model

This project models the rules core of a small Python chess program. It covers four parts:

- **Board and registry.** `GameState` holds the 8×8 board, one list of live pieces per colour, and the two kings. The initial position is set up here.
- **Move geometry.** Sliding, knight and king moves.
- **Per-class move generation and execution.**
  - Pawn: pushes, diagonal captures, en passant and promotion.
  - King: castling.
  - Knight, rook, bishop and queen.
- **Legality filter and classifier.** After each half-move, the filter prunes the defender's cached moves by simulating moves on the shared board and restoring it. It then classifies the position as `move`, `check`, `checkmate` or `stalemate`.

Modules, one per source file:

| Dafny file | module | source file | form |
|---|---|---|---|
| `common.dfy` | `Common` | — | Option/Result, and Python's `list.remove` as functions with lemmas |
| `game_state.dfy` | `GameStates` | `src/game_state.py` | class `GameState` with methods; position snapshots as values |
| `movement.dfy` | `Movement` | `src/movement.py` | pure functions and lemmas |
| `piece_moves.dfy` | `PieceMoves` | `src/piece.py` (`get_mod_move`, `move_piece`) | function plus method |
| `all_pieces.dfy` | `AllPieces` | `src/all_pieces.py` (`update_possible_moves` of each class) | methods with loops, proved against functions |
| `all_pieces_moves.dfy` | `AllPiecesMoves` | `src/all_pieces.py` (`move_piece` of pawn and king) | methods proved against functions |
| `legality.dfy` | `Legality` | `src/piece.py` (check detection, the three filters, `update_available_moves`) | methods with loops |

## How the objects are modelled

In Python, each piece is an object whose fields are updated in place.

- **Identity.** A piece is modelled by an immutable `PieceRef(serial, kind, color)`. A piece's kind and colour never change in the source. The serial stands for object identity.
- **Mutable fields.** These live in two maps held as fields of the `GameState` class:
  - `pieces` holds each piece's `tile`, `first_move`, `just_moved`, and the king's `rook_left`/`rook_right` links;
  - `moves` holds each piece's `available_moves` cache.
- **Aliasing.** The board, the colour lists, the king slots and the rook links all hold `PieceRef`s. They therefore alias exactly as the Python references do.
- **Snapshots.** `GameState.Pos()` is a value snapshot (`Position`) of the whole state. Each state-changing method states its new state as a function of the old snapshot. The specification functions work on snapshots: `PseudoMoves`, `InCheck`, `BaseMove`, `PawnMove`, `KingMove`, `UnsafeSquares` and `Unprotecting`.
- **Invariant.** `GameState.Valid()` is the consistency invariant that every method preserves:
  - every piece on the board and in a colour list is a known piece, and every known piece has a cache;
  - each colour list holds pieces of its colour, without duplicates;
  - each king slot names a known king of its colour;
  - serial numbers stay below the next fresh serial.

The model follows the code where it departs from idealised chess:

- **Castling attack test.** It reads the opponents' *cached* `available_moves`, which may be stale. It always adds the king's home square `(row, 4)`, whatever square the king is on.
- **`just_moved`.** It is only cleared when that same pawn moves again.
- **En-passant targets.** The generator checks only that the neighbour is a pawn with `just_moved` set. It ignores the neighbour's colour. The target's row is not bounds-checked.
- **Execution.** Any pawn move that changes column onto an empty square is executed as an en-passant capture of the square behind it.
- **Castling with a captured rook.** The castling generator tests only the linked rook's `first_move` (`src/all_pieces.py:180`, `src/all_pieces.py:186`). A captured rook stays linked to its king, stays known to the game and keeps `first_move` set. The king's castling move (`src/all_pieces.py:199-206`, `src/all_pieces.py:209-216`) then shifts whatever stands on the corner, for example the enemy piece that took the rook. That piece goes beside the king and loses `first_move`. An empty corner makes the move fail after the grid writes. The model reads the link through `RookReady` and shifts the corner's occupant in `Castle`.
- **Check-branch simulation.** While the check filter tries a defender's move, it does not vacate the defender's origin square. The pin filter does.
- **Check-branch loop.** It stops with `checkmate` at the first point where no defender piece has a cached move. Otherwise it reports `check`.
- **Pin-filter simulation.** The attacker recomputes its moves from its own recorded tile, even when the simulated defender has been written over it. A pinned piece that captures its pinner is therefore flagged and loses that move (`src/piece.py:227-230`; lemma `PinnerCaptureFlagged`).
- **Double-check test.** With the checker lifted, the check filter asks whether the king is still attacked (`src/piece.py:178-183`). A second piece of the mover behind the checker on the same line now reaches the king. The filter then treats the position as double check and empties every non-king defender's cache, even though capturing the checker would be legal.
- **Check branch and pins.** In check, the branch runs only the king filter and the check filter (`src/piece.py:298-307`). The pin filter never runs there, so a pinned defender may still block or capture the checker.
- **Board restore.** The filters restore the board to its starting contents only when every defender piece stands on its own recorded tile. In other cases, the "restore" writes a piece back to its recorded tile. The per-filter methods `RemoveKingMovesThatCheckHim`, `RemovesMovesThatDoesntProtectKing`, `SimulatePin` and `PinFilterOne` state the board they leave in every case. The pin-filter loop and the branches above it (`RemoveMovesThatPutKingInCheck`, `QuietBranch`, `CheckBranch`, `UpdateAvailableMoves`) state only the settled case, where the board is unchanged.

Several of these depart from the FIDE Laws of Chess:
- The `just_moved` and en-passant quirks break Article 3.7, which allows an en-passant capture only by a pawn of the other colour and only on the move right after the double step.
- The stale castling attack test breaks Article 3.8, which forbids castling out of, through or into a square attacked by the opponent.
- Castling with a captured rook breaks Article 3.8, under which castling moves the king together with a rook of its own colour that has not yet moved.
- The pin-filter simulation, the double-check test and the missing pin filter in the check branch break Article 3.9, under which a move is legal exactly when it does not leave one's own king attacked. The first two remove legal moves. The third keeps illegal ones.

Neither the code nor the model re-validates that a destination is legal before executing it.

## Model

| member | source | states |
|---|---|---|
| Movement.Ray | src/movement.py:56-75 | The squares of one direction, nearest first: each empty square up to the first piece, that piece's square when it is of the other colour, and nothing beyond the board edge or distance 7. |
| Movement.RaysUpTo | src/movement.py:55-75 | The rays of the first n directions, concatenated in direction order. |
| Movement.LinearMoves | src/movement.py:32-77 | `get_linear_moves`: the rays of all the given directions, concatenated in order. |
| Movement.StepMoves | src/movement.py:100-107 | For each offset in order, the offset square when it is on the board and empty or held by the other colour. |
| Movement.KnightMoves | src/movement.py:80-109 | `get_knight_moves`: the single-step moves over the eight knight offsets, in the source's order. |
| Movement.KingMoves | src/movement.py:112-146 | `get_king_moves`: the single-step moves over the eight neighbouring offsets, in the order of the nested loops. |
| GameStates.Cell | src/game_state.py:44-48 | `get_piece_at`: the board cell for an on-board square, otherwise None. |
| GameStates.Registry | src/game_state.py:55-57 | `get_pieces_by_color`: white's list for colour 1, black's list for colour -1. |
| PieceMoves.ModMove | src/piece.py:52-64 | `get_mod_move`: `capture` when the destination holds a piece, otherwise `move`. |
| PieceMoves.BaseMove | src/piece.py:75-103 | `Piece.move_piece` on a snapshot. The destination's occupant leaves its list, and the piece is written on the destination. Its origin is emptied, its tile is set, and `first_move` is cleared. |
| AllPieces.PawnPushes | src/all_pieces.py:40-50 | One square forward when it is empty. Two squares when the pawn has not moved and that square is on the board and empty too. |
| AllPieces.CapturesUpTo | src/all_pieces.py:52-58 | The diagonal captures for the column offsets -1, then 1. |
| AllPieces.EnPassantsUpTo | src/all_pieces.py:63-74 | The en-passant targets for the column offsets -1, then 1. Each is the square diagonally forward, next to a same-row pawn with `just_moved` set, whatever that pawn's colour. |
| AllPieces.PawnMoves | src/all_pieces.py:33-74 | The pawn's cache: pushes, then captures, then en-passant targets. |
| AllPieces.AllEmpty | src/all_pieces.py:149-154 | `_tiles_empty`: every listed square is empty. |
| AllPieces.Unattacked | src/all_pieces.py:156-170 | `_tiles_not_attacked`: neither any listed square nor the home square `(row, 4)` is in an opponent's cached moves. |
| AllPieces.CastlingMoves | src/all_pieces.py:172-190 | `_check_castling`: nothing once the king has moved. Otherwise `(row, 6)`, then `(row, 2)`, each when its rook link names an unmoved rook, the squares between are empty and the tested squares are unattacked. |
| AllPieces.PseudoMoves | src/all_pieces.py:33-290 | `update_possible_moves` by class. The pawn's moves; the knight's jumps; the bishop, rook and queen rays; the king's steps followed by its castling squares. |
| AllPiecesMoves.Promote | src/all_pieces.py:81-105 | Promotion on a snapshot. The destination's occupant and the pawn leave their lists. A new queen with `first_move` off and an empty cache joins its list and is written on the destination. The origin is emptied. |
| AllPiecesMoves.EnPassantCapture | src/all_pieces.py:114-118 | The piece on the square behind leaves its list and that square is emptied. |
| AllPiecesMoves.PawnStep | src/all_pieces.py:107-120 | A non-promoting pawn move: `just_moved` set iff this is a two-row first move, then an en-passant removal for a sideways step onto an empty square, then the base move. |
| AllPiecesMoves.PawnMove | src/all_pieces.py:76-120 | `Pawn.move_piece`: promotion onto row 0 or 7, otherwise a pawn step. |
| AllPiecesMoves.RookShift | src/all_pieces.py:200-202 | The corner's content is written beside the king's target and the corner is cleared. |
| AllPiecesMoves.Castle | src/all_pieces.py:197-216 | The rook shift happens first. An empty corner then faults. Otherwise the rook gets its new tile and `first_move` off, and the king makes the base move and reports `castling`. |
| AllPiecesMoves.KingMove | src/all_pieces.py:192-218 | `King.move_piece`: an unmoved king going to column 6 castles with column 7; one going to column 2 castles with column 0. Any other move is the base move. |
| AllPiecesMoves.Moved | src/all_pieces.py:76-218 | `move_piece` dispatched by class: the pawn's, the king's, or the base move for the other pieces. |
| Legality.InCheck | src/piece.py:148-152 | The king's tile is in the fresh moves of some piece in the opponents' list. |
| Legality.NoMoves | src/piece.py:164-167 | Every listed piece of the colour has an empty cache. |
| Legality.Refreshed | src/piece.py:148-151 | The state after the first n opponents have recomputed their caches. |
| Legality.KingSim | src/piece.py:249-256 | The king lifted from its cell and placed, tile included, on the tried square. |
| Legality.UnsafeSquares | src/piece.py:252-259 | The king's cached squares whose simulation leaves it in check. |
| Legality.Lifted | src/piece.py:177-179 | The checker's cell cleared and the checker taken off its list. |
| Legality.DefenderSim | src/piece.py:186-189 | On top of the lifted state, the defender written on the tried square; its own cell is not vacated. |
| Legality.Unprotecting | src/piece.py:185-193 | The defender's cached squares, other than the checker's tile, after which the lifted checker still reaches the king. |
| Movement.RayShape | src/movement.py:55-75 | Each square of one direction's ray is at the next distance from the piece, on the board, and empty or held by the other colour. All squares but the last are empty. The ray never passes distance 7. |
| Movement.RayComplete | src/movement.py:56-72 | Every square reachable along a direction (all squares between it and the piece are empty, and it is not own-occupied) is in that ray. |
| Movement.RaySound | src/movement.py:56-75 | Every square in a ray is reachable along its direction. |
| Movement.RaysUpToIff | src/movement.py:55-75 | After the loop has handled the first n directions, the list holds exactly the squares reachable along one of them. |
| Movement.LinearMovesIff | src/movement.py:32-77 | `get_linear_moves` returns exactly the squares reachable along one of the given directions: both directions of the iff. |
| Movement.LinearMovesOpen | src/movement.py:60-75 | A sliding move never leaves the board and never lands on a piece of its own colour. |
| Movement.RaysUpToPrefix | src/movement.py:55-75 | Directions beyond those already handled do not affect the partial result. |
| Movement.RaysUpToAppend | src/movement.py:55-75 | Scanning a concatenation of direction lists appends the two partial results. |
| Movement.LinearMovesAppend | src/movement.py:32-77 | The sliding moves over `d1 + d2` are the moves over `d1` followed by those over `d2`. |
| Movement.QueenIsRookThenBishop | src/movement.py:22 | Queen moves are exactly rook moves followed by bishop moves, in that order. |
| Movement.StepsUpToIff | src/movement.py:100-107 | After n offsets, the list holds exactly the on-board, not-own-occupied squares at one of the first n offsets. |
| Movement.StepMovesIff | src/movement.py:100-107 | A single-step generator returns at most one square per offset: exactly the on-board, not-own-occupied ones. |
| Movement.KnightMovesIff | src/movement.py:80-109 | At most 8 knight moves; a square is one iff it is on the board, not own-occupied, and a (1,2) or (2,1) jump away. |
| Movement.KingMovesIff | src/movement.py:112-146 | At most 8 king steps; a square is one iff it is on the board, not own-occupied, and at Chebyshev distance 1. |
| GameStates.SetCell | src/game_state.py:50-53 | Writing a cell changes that cell only, and only when it is inside the board. |
| GameStates.Put | src/game_state.py:50-53 | Writing at a tile changes that tile only, and only when it is on the board. |
| GameStates.BoardExt | src/game_state.py:44-48 | Two boards that agree on every `get_piece_at` query are equal. |
| GameStates.PutPut | src/piece.py:188-196 | A second write to the same square overrides the first. |
| GameStates.PutSame | src/piece.py:196 | Writing back a square's saved contents leaves the board unchanged. |
| GameStates.RestoreTwo | src/piece.py:178-206 | Clearing a square, writing a piece back where it already stands, then restoring the first square gives back the original board. |
| GameStates.Added | src/game_state.py:71-74 | `add_piece` appends a piece only when it is absent. Its members are the old ones plus the piece. No duplicates appear, and the multiset grows by at most that piece. |
| GameStates.Removed | src/game_state.py:76-79 | `remove_piece` takes out one occurrence when present. A list without duplicates loses the piece entirely; all others stay. |
| GameStates.AddedIdempotent | src/game_state.py:71-74 | Adding the same piece twice is the same as adding it once. |
| GameStates.RemovedThenAdded | src/piece.py:179-207 | Removing and re-adding a listed piece keeps the same members and the same multiset, with no duplicates. |
| GameStates.WithAdded | src/game_state.py:71-74 | Registering a piece leaves the board, the piece fields and the caches untouched. |
| GameStates.WithRemoved | src/game_state.py:76-79 | Unregistering a piece leaves the board, the piece fields and the caches untouched. |
| GameStates.AddedRegistry | src/game_state.py:71-74 | Adding changes only the list of the piece's own colour. |
| GameStates.RemovedRegistry | src/game_state.py:76-79 | Removing changes only the list of the piece's own colour. |
| GameStates.WithAddedRemovedWf | src/game_state.py:71-79 | Adding or removing a known piece keeps the state consistent. |
| GameStates.PutWf | src/game_state.py:50-53 | Writing a known piece, or None, to the board keeps the state consistent. |
| GameStates.InfoWf | src/piece.py:95-101 | Updating a known piece's fields keeps the state consistent. |
| GameStates.FreshWf | src/all_pieces.py:84-86 | Creating a new piece with an empty cache keeps the state consistent. |
| GameStates.CacheWf | src/all_pieces.py:232-236 | Replacing a piece's `available_moves` keeps the state consistent. |
| GameStates.RegistryMembers | src/game_state.py:55-57 | In a consistent state, each colour list holds distinct known pieces of that colour. |
| GameStates.InitialRank | src/game_state.py:102-137 | Each starting rank has exactly 8 squares. |
| GameStates.GameState.constructor | src/game_state.py:33-42 | A new state has an empty board, empty colour lists and no kings, and is consistent. |
| GameStates.GameState.GetPieceAt | src/game_state.py:44-48 | Returns the board cell for an on-board square, otherwise None. |
| GameStates.GameState.SetPieceAt | src/game_state.py:50-53 | Only the addressed cell changes, and consistency is kept. |
| GameStates.GameState.GetPiecesByColor | src/game_state.py:55-57 | Returns that colour's registry: distinct pieces of that colour, each known. |
| GameStates.GameState.GetKing | src/game_state.py:59-61 | A recorded king is a known king of the asked colour. |
| GameStates.GameState.SetKing | src/game_state.py:63-69 | Sets the asked colour's king and leaves the other colour's king alone. |
| GameStates.GameState.AddPiece | src/game_state.py:71-74 | The piece's colour list becomes `Added(old, p)`; the other list and everything else stay; None is a no-op. |
| GameStates.GameState.RemovePiece | src/game_state.py:76-79 | The piece's colour list becomes `Removed(old, p)`; the other list and everything else stay; None is a no-op. |
| GameStates.GameState.SetupInitialPosition | src/game_state.py:81-146 | The board becomes the standard opening layout, with fresh pieces that know their tiles. Black's list is ranks 0-1 and white's is ranks 6-7. The kings are (0,4) and (7,4). Earlier pieces are untouched. |
| GameStates.GameState.CreatePieces | src/game_state.py:91-137 | Creates one fresh piece per starting square, each with its tile and an empty cache. Existing pieces are unchanged. |
| GameStates.GameState.CreateRank | src/game_state.py:102-137 | Creates the eight pieces of one starting rank. |
| GameStates.GameState.ClearAndFillBoard | src/game_state.py:87-137 | The board becomes exactly the initial layout. |
| GameStates.GameState.ListPieces | src/game_state.py:139-146 | The colour lists become the row-major listing of the black ranks 0-1 and the white ranks 6-7. |
| GameStates.InitializeGame | src/game_state.py:10-19 | Yields a fresh, consistent state in the opening position. |
| GameStates.InitialRegistry | src/game_state.py:139-146 | Each colour starts with 16 distinct pieces, listed rank by rank and file by file. |
| GameStates.InitialWf | src/game_state.py:81-146 | The opening position is consistent. |
| GameStates.InitialListOk | src/game_state.py:139-146 | Each starting list holds distinct known pieces of its colour. |
| GameStates.InitialCellsOk | src/game_state.py:92-137 | Every occupied starting square holds a piece whose recorded tile is that square. |
| GameStates.InitialLayout | src/game_state.py:92-137 | Rows 2-5 are empty; rows 0-1 are black and rows 6-7 white. Kings stand on (0,4) and (7,4). Rooks stand in the corners, and each king's rook links name those corner rooks. |
| PieceMoves.GetModMove | src/piece.py:52-64 | `capture` iff the destination is occupied, otherwise `move`; never `castling`. |
| PieceMoves.BaseMoveCells | src/piece.py:75-103 | The piece lands on the destination and its origin is emptied. All other squares are unchanged. The piece's tile is updated and its `first_move` cleared. No other piece changes. |
| PieceMoves.BaseMoveCaptured | src/piece.py:91-93 | A captured piece leaves its colour's list, which keeps everything else; the other list is unchanged. Without a capture, both lists are unchanged. |
| PieceMoves.BaseMoveWf | src/piece.py:75-103 | A move keeps the state consistent. |
| PieceMoves.BaseMovePiece | src/piece.py:75-103 | Performs `BaseMove` on the state and returns the move kind read from the board before the move. |
| AllPieces.PawnMovesIff | src/all_pieces.py:33-74 | A pawn's moves are exactly its pushes, captures and en-passant targets. |
| AllPieces.PushesIff | src/all_pieces.py:40-50 | A push goes one empty square forward, or two if the pawn has not moved and both squares are empty. |
| AllPieces.CapturesIff | src/all_pieces.py:52-58 | A capture is one square diagonally forward, onto a piece of the other colour. |
| AllPieces.EnPassantsIff | src/all_pieces.py:63-74 | An en-passant target lies behind a same-row neighbour that is a pawn with `just_moved` set, whatever its colour. |
| AllPieces.PawnReadsNoCache | src/all_pieces.py:33-74 | A pawn's moves depend only on the board and the piece fields, never on any cache. |
| AllPieces.PushesReadNoCache | src/all_pieces.py:40-50 | Pushes depend only on the board and the piece fields. |
| AllPieces.SideReadsNoCache | src/all_pieces.py:52-74 | Captures and en-passant targets depend only on the board and the piece fields. |
| AllPieces.SideLoops | src/all_pieces.py:52-74 | The loops over the offsets -1 and 1 produce the left results, then the right ones. |
| AllPieces.CastlingIff | src/all_pieces.py:172-190 | The king's castling squares are exactly `(row, 6)` and `(row, 2)`, each under its own conditions. The king has not moved, the rook link names an unmoved rook, and the squares between are empty. No opponent's cached moves contain the tested squares: (row,4..6) kingside, or (row,2..4) queenside. |
| AllPieces.KingPseudoIff | src/all_pieces.py:139-147 | The king's moves are its one-square steps plus its castling squares. |
| AllPieces.QueenPseudo | src/all_pieces.py:286-290 | The queen's cache is rook moves followed by bishop moves. |
| AllPieces.CastlingFrame | src/all_pieces.py:156-170 | Castling depends only on the board, the piece fields, the opponents' list and their caches. |
| AllPieces.PseudoFrame | src/all_pieces.py:139-170 | Each piece's moves depend only on the board, the piece fields, the opponents' list and their caches. |
| AllPieces.OwnCacheIrrelevant | src/all_pieces.py:156-170 | The attack test for castling does not read the king's own colour's caches. |
| AllPieces.CheckEnPassant | src/all_pieces.py:63-74 | Appends exactly the en-passant targets to the pawn's cache. |
| AllPieces.AppendPushes | src/all_pieces.py:40-50 | An empty cache becomes exactly the pawn's pushes. |
| AllPieces.AppendCaptures | src/all_pieces.py:52-58 | Appends exactly the diagonal captures. |
| AllPieces.UpdatePawnMoves | src/all_pieces.py:33-61 | The pawn's cache becomes `PawnMoves` of the old state; nothing else changes. |
| AllPieces.TilesEmpty | src/all_pieces.py:149-154 | True iff every listed square is empty. |
| AllPieces.TilesNotAttacked | src/all_pieces.py:156-170 | True iff no cached opponent move hits a listed square or the home square `(row, 4)`. |
| AllPieces.TryCastle | src/all_pieces.py:180-190 | Appends one side's castling square exactly when its conditions hold. |
| AllPieces.CheckCastling | src/all_pieces.py:172-190 | Appends exactly `CastlingMoves`: kingside first, then queenside, and nothing if the king has moved. |
| AllPieces.UpdateKingMoves | src/all_pieces.py:139-147 | The king's cache becomes its steps followed by its castling squares. |
| AllPieces.UpdatePossibleMoves | src/all_pieces.py:232-290 | Any piece's cache becomes `PseudoMoves` of the old state for its kind; nothing else changes. |
| AllPiecesMoves.PromoteWf | src/all_pieces.py:81-105 | Promotion keeps the state consistent. |
| AllPiecesMoves.PawnStepWf | src/all_pieces.py:107-120 | A non-promoting pawn move keeps the state consistent. |
| AllPiecesMoves.PawnMoveWf | src/all_pieces.py:76-120 | A pawn move keeps the state consistent. |
| AllPiecesMoves.CastleWf | src/all_pieces.py:197-216 | Castling keeps the state consistent. |
| AllPiecesMoves.KingMoveWf | src/all_pieces.py:192-218 | A king move keeps the state consistent. |
| AllPiecesMoves.MovedWf | src/all_pieces.py:76-218 | Every piece's move keeps the state consistent. |
| AllPiecesMoves.PromotionCells | src/all_pieces.py:81-105 | On the last rank, a new queen of the pawn's colour appears on the destination, with a fresh tile and an empty cache. The origin is emptied and no other square changes. The pawn's own fields keep their old values. |
| AllPiecesMoves.PromotionRegistry | src/all_pieces.py:94-101 | After promotion the pawn is unlisted, the queen is listed, and a captured piece is unlisted. |
| AllPiecesMoves.JustMovedFlag | src/all_pieces.py:107-111 | After a non-promoting pawn move, `just_moved` is set iff the pawn moved two rows on its first move. `first_move` is cleared and the tile updated. |
| AllPiecesMoves.EnPassantFacts | src/all_pieces.py:113-120 | A pawn move that changes column onto an empty square empties the square behind the destination and unlists its occupant. The pawn lands on the destination, and the reported kind is `move`. |
| AllPiecesMoves.EnPassantCaptureFacts | src/all_pieces.py:114-118 | The en-passant removal empties the square behind and unlists its occupant. |
| AllPiecesMoves.CastlingFacts | src/all_pieces.py:197-216 | An unmoved king going to file 6 or 2 moves the corner rook beside it, updating the rook's tile and `first_move`. It reports `castling`, or a fault when the corner is empty. |
| AllPiecesMoves.PromotePawn | src/all_pieces.py:81-105 | Performs `Promote` on the state, consumes one serial, and returns the kind read before the move. |
| AllPiecesMoves.SwapListed | src/all_pieces.py:94-101 | Unlists the captured piece and the pawn, then lists the queen. |
| AllPiecesMoves.AddQueen | src/all_pieces.py:84-86 | Registers the new queen's fields and empty cache. |
| AllPiecesMoves.StepPawn | src/all_pieces.py:107-120 | Performs `PawnStep`: the `just_moved` update, any en-passant capture, then the base move. |
| AllPiecesMoves.SetJustMoved | src/all_pieces.py:107-111 | Only the pawn's `just_moved` field changes. |
| AllPiecesMoves.TakeEnPassant | src/all_pieces.py:114-118 | Performs the en-passant removal on the state. |
| AllPiecesMoves.PawnMovePiece | src/all_pieces.py:76-120 | Performs `PawnMove`: promotion on the last ranks, otherwise a step. |
| AllPiecesMoves.ShiftRook | src/all_pieces.py:200-202 | The corner's occupant moves beside the king's destination and the corner is emptied. Returns that occupant. |
| AllPiecesMoves.CastleMove | src/all_pieces.py:198-216 | Performs `Castle` and returns its result, including the empty-corner fault. |
| AllPiecesMoves.SetRookFields | src/all_pieces.py:203-204 | Only the rook's tile and `first_move` change. |
| AllPiecesMoves.KingMovePiece | src/all_pieces.py:192-218 | Performs `KingMove`: castling for an unmoved king going to file 6 or 2, otherwise the base move. |
| AllPiecesMoves.MovePiece | src/all_pieces.py:76-218 | Dispatches by kind and performs `Moved` on the state. |
| Common.RemoveFirstCount | src/piece.py:268-270 | `remove` takes away exactly one occurrence when there is one. |
| Common.RemoveEachCount | src/piece.py:268-270 | The removal loop subtracts the removal list as multisets. |
| Common.RemoveFiltered | src/piece.py:268-270 | Removing, one occurrence each, the flagged elements of a list leaves exactly the unflagged ones, in order. |
| Common.FilterOutMembers | src/piece.py:268-270 | What remains is exactly the unflagged entries, each with at most its old multiplicity. |
| Common.RemoveEachShrinks | src/piece.py:239-241 | Removing entries only shrinks a cache. |
| Common.RemoveFirstNoDup | src/game_state.py:76-79 | Removing from a list without duplicates leaves neither the element nor any duplicate. |
| Legality.RefreshUpToSnoc | src/piece.py:284-285 | One more turn of the refresh loop replaces one more piece's cache with its fresh moves. |
| Legality.RefreshUpToAt | src/piece.py:284-285 | After n turns, the first n pieces have fresh caches and all other caches are untouched. |
| Legality.RefreshedFrame | src/piece.py:284-285 | Refreshing one colour keeps consistency and does not change that colour's own fresh moves. |
| Legality.RefreshedKeeps | src/piece.py:284-285 | Refreshing one colour leaves the other colour's caches untouched. |
| Legality.RefreshedFresh | src/piece.py:284-285 | After a full refresh, every listed piece of that colour caches its fresh moves. |
| Legality.FirstHit | src/piece.py:148-152 | The index of the first opponent whose fresh moves contain the square; every opponent before it misses. |
| Legality.InCheckFirstHit | src/piece.py:148-152 | The king is in check iff some opponent's fresh moves contain its tile. |
| Legality.Scan | src/piece.py:129-134 | Returns the first listed piece of the colour whose fresh moves hit the square, refreshing caches up to and including it and no further. |
| Legality.ScanLoop | src/piece.py:148-152 | The scanning loop stops at the first hit, or at the end of the list. |
| Legality.ScanStep | src/piece.py:149-151 | One turn refreshes one cache and tests it. |
| Legality.KingInCheck | src/piece.py:138-152 | True iff the king is in check; refreshes the opponents' caches up to the first hit and leaves its own colour's caches alone. |
| Legality.GetPieceThatCheck | src/piece.py:119-134 | Returns a piece iff the opponent king is in check; that piece belongs to the mover and attacks the king. |
| Legality.PlayerCantMove | src/piece.py:154-167 | True iff every listed piece of the colour has an empty cache. |
| Legality.RefreshColor | src/piece.py:284-285 | Every listed piece of the colour gets its fresh moves. |
| Legality.RemoveAll | src/piece.py:268-270 | The cache becomes `RemoveEach(old, removals)`; nothing else changes. |
| Legality.InCheckFrame | src/piece.py:148-152 | Whether a king is in check does not depend on its own colour's caches. |
| Legality.TryKingSquare | src/piece.py:253-262 | The king is placed on the tried square; the result is whether that leaves it in check. The board is restored and its own colour's caches are untouched. |
| Legality.FlagKingSquares | src/piece.py:252-262 | Collects, in order, exactly the king's cached moves that would leave it in check. |
| Legality.UnsafeIff | src/piece.py:252-259 | A cached king move is unsafe iff moving the king there puts it in check. |
| Legality.PlaceKing | src/piece.py:265-266 | The king gets back its tile and square. |
| Legality.RemoveKingMovesThatCheckHim | src/piece.py:243-270 | The king's cache keeps exactly its safe moves. The king's fields are restored and its own colour's other caches are untouched. |
| Legality.LiftChecker | src/piece.py:177-179 | The checking piece leaves the board and its list. |
| Legality.TryDefenderSquare | src/piece.py:186-196 | With the defender written onto the tried square (origin not vacated), the result is whether the checker still attacks the king. The board is restored. |
| Legality.UnprotectingIff | src/piece.py:185-193 | A defender's cached move is flagged iff it is not the checker's tile and the checker would still attack the king afterwards. |
| Legality.FlagUnprotecting | src/piece.py:185-196 | Collects, in order, exactly the flagged moves. |
| Legality.RestoreChecker | src/piece.py:206-207 | Writes the checker back to its tile and re-lists it. |
| Legality.FilterDefender | src/piece.py:184-203 | The defender's cache keeps exactly its unflagged moves, and the defender is written back to its tile. |
| Legality.DoubleCheck | src/piece.py:181 | With the checker lifted, the result is whether the king is still in check. The defending colour's caches are untouched. |
| Legality.PruneDefender | src/piece.py:181-203 | In double check the defender's cache is emptied; otherwise it is filtered. |
| Legality.RemovesMovesThatDoesntProtectKing | src/piece.py:169-207 | In double check the defender gets no moves; otherwise it keeps its unflagged moves. The board ends as the simulation's writes leave it, which is the original board when both pieces stand on their tiles. The checker is re-listed at the end of its list. |
| Legality.ProtectFilterRestores | src/piece.py:199-206 | When the defender and the checker stand on their recorded tiles, the filter leaves the board as it was. |
| Legality.PinSim | src/piece.py:222-227 | The simulated board of the pin filter: the defender's cell is cleared and the defender is written on the tried square. The attacker and all piece fields keep their values. |
| Legality.Pinning | src/piece.py:224-231 | The defender's cached squares after which the attacker, recomputing its moves on the simulated board, reaches the king's square. |
| Legality.PinningIff | src/piece.py:224-231 | A cached square of the defender is in `Pinning` iff the attacker's fresh moves on the simulated board contain the king's tile. |
| Legality.TryPinSquare | src/piece.py:226-234 | With the defender written on the tried square, the result is whether the attacker reaches the king. The cell is written back and the defending colour's caches are untouched. |
| Legality.FlagPinned | src/piece.py:224-234 | Collects, in cache order, exactly the defender's squares in the given flagged set; the board is unchanged at the end. |
| Legality.SimulatePin | src/piece.py:221-237 | Returns exactly the defender's cached squares in `Pinning`, in cache order. The defender is then written back to its tile, and the defending colour's caches are untouched. |
| Legality.PinnerCaptureFlagged | src/piece.py:220-231 | Take a rook that reaches a defender, with the defender's king further along the same line and every other square between them empty. If the defender's cache holds the rook's square, then that capture of the pinner is in `Pinning`, so the simulation returns it. |
| Movement.RookAlongDistinct | src/movement.py:56-58 | Along a rook direction, different distances give different squares. |
| Common.FilterInCount | src/piece.py:224-231 | Collecting the flagged squares of a cache keeps every occurrence of a flagged square. |
| Legality.PinFilterOne | src/piece.py:214-241 | The defender's cache only shrinks; its colour's other caches are unchanged. |
| Legality.RemoveMovesThatPutKingInCheck | src/piece.py:209-241 | Each defender's cache only shrinks. The board is unchanged when every defender stands on its tile. |
| Legality.QuietBranch | src/piece.py:290-292 | The pin and king filters only shrink the defender caches and keep the piece fields. The board is unchanged when the position is settled. |
| Legality.CheckStep | src/piece.py:300-307 | One check-branch round only shrinks defender caches and keeps both lists. It fails only when no checker exists, in which case the king was not in check. |
| Legality.DefenderStep | src/piece.py:303-307 | A non-king defender is filtered against the current checker, or the step fails when there is none. |
| Legality.ProtectStep | src/piece.py:305-307 | Filtering against a found checker only shrinks defender caches and keeps both lists. |
| Legality.CheckBranch | src/piece.py:298-312 | Returns `checkmate` only when no defender has a cached move. When the defending side has a listed piece, `check` implies some defender has one. With an empty defender list the loop never runs and `check` is returned. The fault arises only when no checker is found. |
| Legality.CheckRound | src/piece.py:300-310 | One round keeps the loop invariant. When it succeeds, it reports whether the defender cannot move. |
| Legality.RefreshAndTest | src/piece.py:284-290 | Refreshes every defender and reports whether the king is in check afterwards. |
| Legality.Classify | src/piece.py:289-312 | `move` or `stalemate` iff not in check. Each outcome agrees with whether the defender can move. |
| Legality.UpdateAvailableMoves | src/piece.py:272-312 | `move`/`stalemate` iff the defender's king is not in check after the refresh. `stalemate`/`checkmate` imply no defender move, and `move` implies some defender move. `check` implies some defender move when the defending side has a listed piece. Each defender's final cache is a sub-multiset of its fresh moves. The defender's list is unchanged. The mover's list keeps its members, but its order may change because the check filter re-lists the checker at the end. The board is unchanged when settled. |

## Left out

- The user interface is not part of this model: drawing, images, sounds, menus and the AI player. This covers `game.py`, `board.py`, `menu.py`, `player_ai.py` and `main.py`.
- The fallback in `Piece.__init__` that builds a private `GameState` when none is given is not modelled. Every piece here lives in one shared state.
- The `Piece.add_piece`, `remove_piece` and `get_king` delegates (`src/piece.py:44-50`, `107-117`) are not modelled separately. The model calls the `GameState` methods directly.
- The base `Piece.update_possible_moves` (`src/piece.py:66-73`) is not modelled. Only the concrete classes are ever instantiated.
- The source keeps its kings in a `_kings` dictionary; here it becomes the two fields `whiteKing` and `blackKing`.
- Off-board indexing is a no-op for writes and reads as `None`. Python would wrap a negative index or raise on index 8.
- Two Python exceptions are modelled as `Failure` results:
  - `NoRookOnCorner`: castling toward an empty corner (`src/all_pieces.py:203`).
  - `NoCheckingPiece`: the check branch finds no checker (`src/piece.py:178`).
- KingInCheck, GetPieceThatCheck, RemovesMovesThatDoesntProtectKing and UpdateAvailableMoves require a recorded king. The Python code would raise on `None.tile`.
- RemovesMovesThatDoesntProtectKing: requires the checker to be of the mover's colour and the defender of the other. That is how `update_available_moves` always calls it.
- PinFilterOne: states only that the defender's cache shrinks. The squares each attacker's simulation collects are stated exactly by `SimulatePin`, but the loop over attackers is not tied to their union, because the invariant needed for that is too expensive for the verifier.
- RemoveMovesThatPutKingInCheck: states only that defender caches shrink and the board is restored when every defender stands on its tile. Which pinned moves are removed is not stated.
- QuietBranch: inherits the weaker pin-filter contract; the defender caches are bounded, not characterised exactly.
- UpdateAvailableMoves: the defender caches after filtering are bounded by their fresh moves but not characterised exactly. The mover's caches, refreshed while searching for checks, are not stated.
- CheckBranch: states the board only for a settled position, where it is unchanged. Each filter method states its unsettled write-back, but the loop does not carry it.
- QuietBranch: states the board only for a settled position, for the same reason.
- UpdateAvailableMoves: states the board only for a settled position, for the same reason.
- UpdateAvailableMoves: states only the members of the mover's list, not its order after the checker is re-listed.
- Move execution is not checked against the piece's legal moves, exactly as in the source.
