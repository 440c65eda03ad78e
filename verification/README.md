# Magic hexagon solver — a verified model

The program searches for the order-3 magic hexagon. The board has 19 cells in five rows of
lengths 3, 4, 5, 4 and 3. The cells must hold 1..19, once each, so that every row and
every diagonal sums to 38.

The model covers two parts.

- The working solver in `main.go`:
  - the board geometry: `rowLen`, the row-major order `nextPos`/`previousPos`, and the
    table `DIAGS`;
  - the line checker `IsValid`;
  - the backtracking state machine: `NewBoard`, `NextMove`, `Backtrack` and `Solve`.
- The move-generation helpers in `puzzle/board.go`: `InitBoard`, `getRow`/`getPosition`,
  `removeEmptyPieces`, the row prefix, `rowSum`, `getPiecesLte`, `max`, `getUsedPieces`,
  `GetValidMoves` and `SetPosition`.

Modules:

- `Sums` (sums.dfy): sequence sums, plus the counting facts the solver rests on. A pigeonhole
  bound holds, and 19 distinct values from 1..19 total 190.
- `Hexagon` (hexagon.dfy): positions, the visiting order, `DIAGS`, and the flattening of
  the rows into 19 cells.
- `Validity` (validity.dfy): `IsValid`, and how it relates to line totals.
- `Search` (search.dfy): main.go's `Board` and the search.
  - The Go struct is mutated through pointer receivers. Here it is a value: each step
    takes a board and returns the board it leaves behind.
  - `usedNums` becomes the set of values the map sends to `true`.
- `Pieces` (pieces.dfy): puzzle/board.go.

The central results:

- The search keeps an invariant, `Search.Inv`:
  - the used set is exactly the set of non-zero cell values;
  - no value repeats;
  - cells before the cursor are filled and cells after it are empty.
- Whenever `Solve` stops with `IsFull` set, the board is a magic hexagon
  (`Search.FullBoardIsMagic`). This includes the diagonals, although `IsValid` only checks
  that a diagonal stays at or below 38. The argument runs as follows:
  - the 19 distinct values total 190;
  - the five diagonals of each direction cover every cell once;
  - each diagonal is at most 38, so each is exactly 38.

## Model

| member | source | states |
|---|---|---|
| Hexagon.NextPos | main.go:47-60 | the following position is on the board and one step later in row-major order; undefined (a panic in Go) at (4,2) |
| Hexagon.PreviousPos | main.go:32-45 | the preceding position is on the board and one step earlier in row-major order; undefined (a panic in Go) at (0,0) |
| Hexagon.PreviousOfNext | main.go:32-60 | previousPos(nextPos(p)) == p for every on-board p other than (4,2) |
| Hexagon.NextOfPrevious | main.go:32-60 | nextPos(previousPos(p)) == p for every on-board p other than (0,0) |
| Hexagon.IndexInjective | main.go:30-60 | two on-board positions have the same place in the visiting order exactly when they are equal |
| Hexagon.DiagsShape | main.go:14-30 | there are ten diagonals, every entry lies on the board, and each direction's diagonals have the row lengths 3,4,5,4,3 |
| Hexagon.DiagsPartition | main.go:14-28 | in each direction every on-board cell lies on one of the five diagonals, and every entry of a diagonal belongs to that diagonal and no other in its direction |
| Hexagon.Place | main.go:131 | writing one cell changes that cell of the flattened board and no other |
| Hexagon.FirstDirectionCoversBoard | main.go:15-20 | the five top-right-to-bottom-left diagonals together add up to the sum of all 19 cells |
| Hexagon.SecondDirectionCoversBoard | main.go:22-27 | the five top-left-to-bottom-right diagonals together add up to the sum of all 19 cells |
| Validity.CheckRow | main.go:150-160 | a row passes iff its running sum never exceeds 38 and, when its last cell is set, it ends exactly at 38 |
| Validity.CheckDiag | main.go:164-171 | a diagonal passes iff its running sum never exceeds 38 |
| Validity.IsValid | main.go:148-175 | the board passes iff every row and every diagonal passes |
| Validity.WithinTargetIffTotal | main.go:153-156 | for non-negative values the early-exit running-sum test is the same as a test of the total |
| Validity.ValidIffTotals | main.go:148-175 | on non-negative cells IsValid holds iff each row totals at most 38, each row whose last cell is set totals exactly 38, and each diagonal totals at most 38 |
| Search.NewBoard | main.go:75-89 | rows of lengths 3,4,5,4,3, all zero, no used value, cursor at (0,0), not full; the search invariant holds |
| Search.Write | main.go:129-133 | one attempt in NextMove: the cursor cell takes the new value, the value becomes used and the old one unused, and the invariant is kept |
| Search.UpdateCells | main.go:129-133 | overwriting a cell with 0 or an unused value keeps the values distinct and moves exactly the old and new value in the used set |
| Search.PlaceKeepsInv | main.go:129-133 | writing a fresh value 1..19 at the cursor keeps the used set equal to the set of placed values, with no repeats and the cursor ordering intact |
| Search.NextMove | main.go:116-146 | only the cursor cell changes. On success the new value is above the old one, at most 19, was unused, and the board is valid. No smaller unused value above the old one would have been valid. The cursor advances, or IsFull is set at (4,2). On failure no value up to 19 fits and the cursor and IsFull stay. The cell then holds the largest unused value above the old one, or the old value when there is none. The invariant is kept either way |
| Search.AdvanceKeepsInv | main.go:136-140 | after a successful move away from (4,2), stepping the cursor forward past the newly filled cell keeps the invariant |
| Search.CompleteKeepsInv | main.go:136-138 | after a successful move at (4,2), setting IsFull keeps the invariant |
| Search.Backtrack | main.go:100-114 | the current cell becomes 0, its value leaves the used set, IsFull is cleared and the cursor steps back one place; no other cell changes; undefined at (0,0) |
| Search.BacktrackKeepsInv | main.go:100-114 | backtracking keeps the search invariant |
| Search.BacktrackUndoesPlace | main.go:100-114 | backtracking right after a value was placed in an empty cell restores the cells and the used set exactly |
| Search.FailedMoveThenBacktrack | main.go:91-114 | on a dead end, NextMove fails at an empty cursor cell and Solve backtracks. This restores the cells and the used set exactly and moves the cursor one place back |
| Search.BacktrackAfterAdvance | main.go:100-146 | backtracking right after NextMove advanced the cursor returns exactly the board NextMove produced before advancing |
| Search.FullBoardIsMagic | main.go:148-175 | a board with IsFull set holds 1..19 once each, and every row and every one of the ten diagonals sums to exactly 38 |
| Search.DirectionExact | main.go:164-172 | five diagonals of one direction that each total at most 38 and together total 190 each total exactly 38 |
| Search.Solve | main.go:91-98 | the loop keeps the invariant, and a run that ends with IsFull set has found a magic hexagon; a run that would backtrack past (0,0) ends with the cursor there |
| Pieces.InitBoard | puzzle/board.go:60-72 | five rows of lengths 3,4,5,4,3 whose pieces are all unfilled with value 0 |
| Pieces.InitBoardValues | puzzle/board.go:137-145 | the only value on a fresh board is 0 |
| Pieces.GetRow | puzzle/board.go:79-81 | row n of the board, with that row's length, every piece of which carries a value on the board |
| Pieces.GetPosition | puzzle/board.go:74-77 | the piece at the position, which is a member of its row and carries a value on the board |
| Pieces.SetPosition | puzzle/board.go:202-205 | the position receives a filled piece with the move's value and every other piece is unchanged |
| Pieces.GetAfterSet | puzzle/board.go:202-205 | reading a position back after SetPosition sees the move at that position and the old piece elsewhere |
| Pieces.FilledOnlyMembers | puzzle/board.go:83-91 | the kept pieces are exactly the filled pieces of the input, and none is empty |
| Pieces.FilledOnlyAppend | puzzle/board.go:83-91 | filtering distributes over concatenation, so the original order is kept |
| Pieces.FilledOnlyIdempotent | puzzle/board.go:83-91 | removing empty pieces twice is the same as removing them once |
| Pieces.RemoveEmptyPieces | puzzle/board.go:83-91 | returns exactly the filled pieces in their original order |
| Pieces.GetPrevHorizontalRowPieces | puzzle/board.go:93-97 | the first Column+1 pieces of the position's row, ending at the position |
| Pieces.RowSum | puzzle/board.go:147-153 | the total of the pieces' values |
| Pieces.RowSumIgnoresEmpty | puzzle/board.go:147-153 | when empty pieces carry 0, the total equals the total of the filled pieces alone |
| Pieces.GetPiecesLte | puzzle/board.go:155-161 | filled pieces 1, 2, …, n in ascending order, and none when n < 1 |
| Pieces.Max | puzzle/board.go:163-171 | for a non-empty list, a member of the list that is at least every member |
| Pieces.Highest | puzzle/board.go:187 | the maximum of three sums: one of them, and at least each |
| Pieces.GetUsedPieces | puzzle/board.go:137-145 | a value is marked iff some piece on the board carries it (0 included for empty pieces) |
| Pieces.UsedPiecesAreBoardValues | puzzle/board.go:137-145 | the marked set is the set of values on the board |
| Pieces.FilterUnused | puzzle/board.go:190-199 | keeps, in ascending order, exactly the candidates whose value is not used |
| Pieces.GetValidMoves | puzzle/board.go:175-200 | the result is strictly ascending. It holds each v with 1 ≤ v ≤ 38 − max(row prefix sum, diagonal sums) that is not on the board, and nothing else |
| Pieces.GetValidMovesClamped | puzzle/board.go:175-200 | as GetValidMoves, with the bound also capped at 19, so every offered value is a piece value |
| Pieces.MoveListUnique | puzzle/board.go:175-200 | the move list is determined by the used values and the bound alone |
| Pieces.EmptyBoardOffersTwenty | puzzle/board.go:186-188 | on an empty board at (1,0), where both diagonal sums are 0, the move list contains a piece of value 20 |
| Pieces.ClampedBound | puzzle/board.go:186-188 | the corrected bound: at most 19 and at most 38 minus the largest prefix sum, and equal to one of the two |
| Pieces.EmptyBoardClampedOffersAllPieces | puzzle/board.go:186-188 | with the capped bound, the empty board at (1,0) is offered exactly the pieces 1..19 in order |

## Left out

- `ToString` and `main` in main.go, and the board print before the panic in `Backtrack`:
  these only format text and write to standard output.
- `rowToString`, `BoardToString` and `PrintBoard` in puzzle/board.go: presentation only.
- `getPrevLeftDiagRowPieces` and `getPrevRightDiagRowPieces` (puzzle/board.go:101-135)
  have no usable meaning:
  - each loop body assigns the loop variables the values they already have, so once a
    loop is entered it never ends;
  - their `Row == 1` guards count rows from 1, while `InitBoard` counts from 0.
  - At Row 0 the left helper reads row -1 (puzzle/board.go:107-108), which panics.
  - At every Row of 2 or more, at least one of the two loops is entered: the left loop
    whenever Column + 1 is inside the row above, the right loop whenever Column is at
    least 1. So the call never returns.
  - Only at Row 1 do both helpers return, and there they return no pieces. The Go
    `GetValidMoves` therefore returns only for positions in Row 1, with both diagonal
    sums 0.
  `Pieces.GetValidMoves` takes the two diagonal prefix sums as parameters instead. It
  states what the function computes for any such sums. The Row 1 case is the one with
  both sums 0.
- puzzle/solver.go is not part of this model. It is a draft that does not compile:
  - it reads a field `Position` that `BoardPosition` lacks;
  - it calls an undefined `getRowLen`;
  - it mixes `Board` and `*Board`.
  The working search is the one in main.go.
- Search.Solve: the Go loop has no bound and simply runs until the board is full. The
  model adds a `fuel` parameter and an `OutOfFuel` outcome, and proves partial
  correctness: every run that stops with the board full has found a magic hexagon.
  Termination of the full search is not proved.
- Search.Solve: the Go code panics when it backtracks past the first cell. The model
  returns `Exhausted` there instead of failing.
- Panics elsewhere become preconditions: `nextPos` at (4,2), `previousPos` at (0,0),
  `NextMove` on a full board, `Backtrack` at (0,0), and `max` on an empty list.
- Go's `map[int]bool` for `usedNums` and for `getUsedPieces` is modelled as the set of
  keys mapped to `true`. Go's fixed-width `int` is unbounded here: no value in the
  search comes near overflow.
- The board as a mutable object, aliasing and pointers are not modelled. Each operation
  returns the new board.
- Piece values are 1..19 (the comment at puzzle/board.go:6 and `MaxPieceValue`), but
  `GetValidMoves` bounds its candidates by 38 minus the largest prefix sum only and never
  caps that bound at 19. The model follows the code; see Findings.

## Findings

| source | as written | input that shows it | evidently intended | confidence | as-written member | corrected member |
|---|---|---|---|---|---|---|
| puzzle/board.go:188 | the candidate bound is `TargetRowSum - highestRowSum`, never capped at `MaxPieceValue` | an empty board at position (1,0): both diagonal helpers return no pieces and the row prefix sums to 0, so the bound is 38 and values 20..38 are offered | candidates limited to the piece values 1..19 | not executed | Pieces.EmptyBoardOffersTwenty | Pieces.EmptyBoardClampedOffersAllPieces |

