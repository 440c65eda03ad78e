/** The iterative backtracking solver of main.go. The Go Board is a mutable struct driven
    through pointer-receiver methods; here it is a value, and each method takes the board
    and returns the board it leaves behind. */
module Search {
  import opened Sums
  import opened Hexagon
  import opened Validity

  /** rows: the cells, 0 meaning empty; used: the values usedNums maps to true;
      cur: the cell being filled; isFull: the last cell has been filled validly. */
  datatype Board = Board(rows: seq<seq<int>>, used: set<int>, cur: Pos, isFull: bool)

  /** How a bounded run of Solve ends. Exhausted is the run that would backtrack past the
      first cell (the Go code panics there); OutOfFuel bounds the otherwise unbounded loop. */
  datatype Outcome = Solved(board: Board) | Exhausted(board: Board) | OutOfFuel(board: Board)

  /** The non-zero values among the cells. */
  function UsedOf(cells: seq<int>): set<int>
  {
    set i | 0 <= i < |cells| && cells[i] != 0 :: cells[i]
  }

  /** No non-zero value appears in two cells. */
  predicate NoRepeats(c: seq<int>)
  {
    forall i, j :: 0 <= i < j < |c| && c[i] != 0 ==> c[i] != c[j]
  }

  /** The invariant the search keeps between steps. */
  predicate Inv(b: Board)
  {
    && WellShaped(b.rows)
    && OnBoard(b.cur)
    && (forall i :: 0 <= i < CellCount ==> 0 <= Cells(b.rows)[i] <= MaxValue)
    && NoRepeats(Cells(b.rows))
    && b.used == UsedOf(Cells(b.rows))
    && (forall i :: 0 <= i < Index(b.cur) ==> Cells(b.rows)[i] != 0)
    && (forall i :: Index(b.cur) < i < CellCount ==> Cells(b.rows)[i] == 0)
    && (b.isFull ==> b.cur == Last && Cells(b.rows)[CellCount - 1] != 0 && Valid(b.rows))
  }

  /** A solved magic hexagon: 1..19 each once, every row and every diagonal summing to 38. */
  predicate IsMagic(rows: seq<seq<int>>)
  {
    && WellShaped(rows)
    && Distinct(Cells(rows))
    && (forall i :: 0 <= i < CellCount ==> 1 <= Cells(rows)[i] <= MaxValue)
    && (forall r :: 0 <= r < 5 ==> Sum(rows[r]) == Target)
    && (forall d :: 0 <= d < 10 ==> DiagSum(rows, d) == Target)
  }

  /** NewBoard: an empty board with the cursor on the first cell. */
  function NewBoard(): (b: Board)
    ensures Inv(b)
    ensures forall r :: 0 <= r < 5 ==> |b.rows[r]| == RowLens[r]
    ensures forall i :: 0 <= i < CellCount ==> Cells(b.rows)[i] == 0
    ensures b.used == {} && b.cur == First && !b.isFull
  {
    var b := Board([[0, 0, 0], [0, 0, 0, 0], [0, 0, 0, 0, 0], [0, 0, 0, 0], [0, 0, 0]], {}, Pos(0, 0), false);
    assert forall i :: 0 <= i < CellCount ==> Cells(b.rows)[i] == 0 by {
      forall i | 0 <= i < CellCount
        ensures Cells(b.rows)[i] == 0
      {
        assert Cells(b.rows)[Index(PosAt(i))] == At(b.rows, PosAt(i));
      }
    }
    assert UsedOf(Cells(b.rows)) == {};
    b
  }

  // ---------------------------------------------------------------------------
  // How single steps act on the invariant

  /** Overwriting a cell twice keeps only the second write. */
  lemma PlaceTwice(rows: seq<seq<int>>, p: Pos, u: int, v: int)
    requires WellShaped(rows) && OnBoard(p)
    ensures Place(Place(rows, p, u), p, v) == Place(rows, p, v)
  {
    CellsDetermineRows(Place(Place(rows, p, u), p, v), Place(rows, p, v));
  }

  /** One attempt inside NextMove: write v into the cursor cell, mark v used, then unmark
      the value the cell held (in that order, as the Go code does). Given a board that
      keeps the invariant and a fresh value, the result keeps it too. */
  function Write(b: Board, v: int): (r: Board)
    requires Inv(b) && !b.isFull
    requires 1 <= v <= MaxValue && v !in b.used
    ensures Inv(r) && r.cur == b.cur && !r.isFull
    ensures Cells(r.rows) == Cells(b.rows)[Index(b.cur) := v]
    ensures r.used == (b.used + {v}) - {At(b.rows, b.cur)}
  {
    PlaceKeepsInv(b, v);
    Board(Place(b.rows, b.cur, v), (b.used + {v}) - {At(b.rows, b.cur)}, b.cur, false)
  }

  /** Overwriting cell k with v, where v is 0 or a value no cell holds, keeps the cells
      free of repeats and changes the used set by exactly the old and the new value. */
  lemma UpdateCells(c: seq<int>, k: int, v: int)
    requires NoRepeats(c) && 0 <= k < |c|
    requires v == 0 || v !in UsedOf(c)
    ensures NoRepeats(c[k := v])
    ensures UsedOf(c[k := v]) == (UsedOf(c) - {c[k]}) + (if v == 0 then {} else {v})
  {
    var c' := c[k := v];
    assert forall i :: 0 <= i < |c| && c[i] != 0 ==> c[i] in UsedOf(c);
    forall x
      ensures x in UsedOf(c') <==> x in (UsedOf(c) - {c[k]}) + (if v == 0 then {} else {v})
    {
      if x in UsedOf(c') {
        var i :| 0 <= i < |c'| && c'[i] != 0 && c'[i] == x;
        if i != k {
          assert c[i] != c[k];
        }
      }
      if x in UsedOf(c) - {c[k]} {
        var i :| 0 <= i < |c| && c[i] != 0 && c[i] == x;
        assert i != k && c'[i] == x;
      }
      if v != 0 && x == v {
        assert c'[k] == x;
      }
    }
  }

  /** Writing a fresh value into the cursor cell keeps the invariant. */
  lemma PlaceKeepsInv(b: Board, v: int)
    requires Inv(b) && !b.isFull
    requires 1 <= v <= MaxValue && v !in b.used
    ensures Inv(Board(Place(b.rows, b.cur, v), (b.used + {v}) - {At(b.rows, b.cur)}, b.cur, false))
  {
    var c := Cells(b.rows);
    UpdateCells(c, Index(b.cur), v);
    assert (b.used + {v}) - {c[Index(b.cur)]} == (b.used - {c[Index(b.cur)]}) + {v};
  }

  /** Moving the cursor forward past a filled cell keeps the invariant. */
  lemma AdvanceKeepsInv(b: Board)
    requires Inv(b) && !b.isFull && b.cur != Last && At(b.rows, b.cur) != 0
    ensures Inv(b.(cur := NextPos(b.cur)))
  {
  }

  /** Filling the last cell with a valid board marks the board full. */
  lemma CompleteKeepsInv(b: Board)
    requires Inv(b) && b.cur == Last && At(b.rows, b.cur) != 0 && Valid(b.rows)
    ensures Inv(b.(isFull := true))
  {
  }

  /** What a failed NextMove leaves in the cursor cell: the largest value up to 19 above the
      old one that was unused (each was tried and rejected), or the old value when every
      value above it was already used. */
  predicate LastUnusedTried(b: Board, x: int)
    requires WellShaped(b.rows) && OnBoard(b.cur)
  {
    && (x == At(b.rows, b.cur) || (At(b.rows, b.cur) < x <= MaxValue && x !in b.used))
    && (forall u :: x < u <= MaxValue ==> u in b.used)
  }

  /** x is the old value or an unused value above it, and every value between x and hi
      was already used on b. */
  predicate TriedBelow(b: Board, x: int, hi: int)
    requires WellShaped(b.rows) && OnBoard(b.cur)
  {
    && (x == At(b.rows, b.cur) || (At(b.rows, b.cur) < x && x !in b.used))
    && (forall u :: x < u < hi ==> u in b.used)
  }

  lemma TriedSkip(b: Board, x: int, hi: int)
    requires WellShaped(b.rows) && OnBoard(b.cur)
    requires TriedBelow(b, x, hi) && hi in b.used
    ensures TriedBelow(b, x, hi + 1)
  {
  }

  /** No value strictly between lo and hi that is unused on b makes a valid board when
      written into the cursor cell. */
  predicate NoFitBetween(b: Board, lo: int, hi: int)
    requires WellShaped(b.rows) && OnBoard(b.cur)
  {
    forall u :: lo < u < hi && u !in b.used ==> !Valid(Place(b.rows, b.cur, u))
  }

  lemma NoFitExtend(b: Board, lo: int, hi: int)
    requires WellShaped(b.rows) && OnBoard(b.cur)
    requires NoFitBetween(b, lo, hi)
    requires hi in b.used || !Valid(Place(b.rows, b.cur, hi))
    ensures NoFitBetween(b, lo, hi + 1)
  {
  }

  // ---------------------------------------------------------------------------
  // The three operations of the search

  /** NextMove: try the values above the current one, in ascending order, skipping used
      ones, and keep the first that leaves the board valid, advancing the cursor (or
      marking the board full at the last cell). When none fits, the cursor stays and the
      cell keeps the last value tried. */
  method NextMove(b: Board) returns (moved: bool, r: Board)
    requires Inv(b) && !b.isFull
    ensures Inv(r)
    ensures r.rows == Place(b.rows, b.cur, At(r.rows, b.cur))
    ensures moved ==>
      && At(b.rows, b.cur) < At(r.rows, b.cur) <= MaxValue
      && At(r.rows, b.cur) !in b.used
      && Valid(r.rows)
    ensures moved ==> NoFitBetween(b, At(b.rows, b.cur), At(r.rows, b.cur))
    ensures moved && b.cur == Last ==> r.isFull && r.cur == Last
    ensures moved && b.cur != Last ==> !r.isFull && r.cur == NextPos(b.cur)
    ensures !moved ==> !r.isFull && r.cur == b.cur
    ensures !moved ==> NoFitBetween(b, At(b.rows, b.cur), MaxValue + 1)
    ensures !moved ==> LastUnusedTried(b, At(r.rows, b.cur))
  {
    var s := b;
    ghost var start := At(b.rows, b.cur);
    var i := s.rows[s.cur.row][s.cur.col] + 1;
    CellsDetermineRows(Place(b.rows, b.cur, start), b.rows);
    while i < 20
      invariant start < i <= 20
      invariant Inv(s) && s.cur == b.cur && !s.isFull
      invariant s.rows == Place(b.rows, b.cur, At(s.rows, b.cur))
      invariant start <= At(s.rows, b.cur) < i
      invariant forall u :: u > At(s.rows, b.cur) ==> (u in s.used <==> u in b.used)
      invariant NoFitBetween(b, start, i)
      invariant TriedBelow(b, At(s.rows, b.cur), i)
    {
      if i !in s.used {
        PlaceTwice(b.rows, b.cur, At(s.rows, b.cur), i);
        s := Write(s, i);
        var ok := IsValid(s.rows);
        if !ok {
          NoFitExtend(b, start, i);
        }
        if ok {
          if s.cur == Last {
            CompleteKeepsInv(s);
            return true, s.(isFull := true);
          } else {
            AdvanceKeepsInv(s);
            return true, s.(cur := NextPos(s.cur));
          }
        }
      } else {
        NoFitExtend(b, start, i);
        TriedSkip(b, At(s.rows, b.cur), i);
      }
      i := i + 1;
    }
    return false, s;
  }

  /** Backtrack: clear the current cell, unmark its value, clear IsFull and step back;
      the Go code panics at the first cell. */
  function Backtrack(b: Board): (r: Board)
    requires WellShaped(b.rows) && OnBoard(b.cur) && b.cur != First
    ensures WellShaped(r.rows)
    ensures Cells(r.rows) == Cells(b.rows)[Index(b.cur) := 0]
    ensures r.used == b.used - {At(b.rows, b.cur)}
    ensures !r.isFull && OnBoard(r.cur) && Index(r.cur) == Index(b.cur) - 1
  {
    Board(Place(b.rows, b.cur, 0), b.used - {At(b.rows, b.cur)}, PreviousPos(b.cur), false)
  }

  /** Backtracking keeps the invariant. */
  lemma BacktrackKeepsInv(b: Board)
    requires Inv(b) && b.cur != First
    ensures Inv(Backtrack(b))
  {
    UpdateCells(Cells(b.rows), Index(b.cur), 0);
  }

  /** Retracting a placement restores the cells and the used set exactly as they were
      before the value was placed, with the cursor one step back. */
  lemma BacktrackUndoesPlace(b: Board, v: int)
    requires Inv(b) && !b.isFull && b.cur != First && At(b.rows, b.cur) == 0
    requires 1 <= v <= MaxValue && v !in b.used
    ensures var placed := Board(Place(b.rows, b.cur, v), (b.used + {v}) - {0}, b.cur, false);
      && Backtrack(placed).rows == b.rows
      && Backtrack(placed).used == b.used
      && Backtrack(placed).cur == PreviousPos(b.cur)
  {
    var placed := Board(Place(b.rows, b.cur, v), (b.used + {v}) - {0}, b.cur, false);
    PlaceTwice(b.rows, b.cur, v, 0);
    CellsDetermineRows(Place(b.rows, b.cur, 0), b.rows);
    assert 0 !in b.used;
    assert At(placed.rows, b.cur) == v;
  }

  /** The step Solve takes on a dead end: NextMove fails at an empty cursor cell, leaving
      some value there, and Backtrack follows. The cells and the used set are restored
      exactly and the cursor is one place back. */
  lemma FailedMoveThenBacktrack(b: Board, r: Board)
    requires Inv(b) && !b.isFull && b.cur != First && At(b.rows, b.cur) == 0
    requires Inv(r) && r.cur == b.cur
    requires r.rows == Place(b.rows, b.cur, At(r.rows, b.cur))
    ensures Backtrack(r).rows == b.rows
    ensures Backtrack(r).used == b.used
    ensures Backtrack(r).cur == PreviousPos(b.cur) && !Backtrack(r).isFull
  {
    var k := Index(b.cur);
    var x := At(r.rows, b.cur);
    PlaceTwice(b.rows, b.cur, x, 0);
    CellsDetermineRows(Place(b.rows, b.cur, 0), b.rows);
    UpdateCells(Cells(r.rows), k, 0);
    assert Cells(r.rows)[k := 0] == Cells(b.rows);
  }

  /** Backtracking right after NextMove advanced the cursor brings the cursor back without
      touching any cell: the cell it leaves was still empty. */
  lemma BacktrackAfterAdvance(b: Board)
    requires Inv(b) && !b.isFull && b.cur != Last && At(b.rows, b.cur) != 0
    ensures NextPos(b.cur) != First
    ensures Backtrack(b.(cur := NextPos(b.cur))) == b
  {
    var a := b.(cur := NextPos(b.cur));
    PreviousOfNext(b.cur);
    assert At(b.rows, a.cur) == Cells(b.rows)[Index(a.cur)] == 0;
    CellsDetermineRows(Place(b.rows, a.cur, 0), b.rows);
    assert 0 !in b.used;
  }

  // ---------------------------------------------------------------------------
  // What a finished search has found

  /** When IsFull holds the board is a magic hexagon: the cells hold 1..19 once each,
      so they total 190; each direction's five diagonals partition the cells and are
      each at most 38, so each is exactly 38, although IsValid only checks that bound. */
  lemma {:induction false} FullBoardIsMagic(b: Board)
    requires Inv(b) && b.isFull
    ensures IsMagic(b.rows)
  {
    var rows := b.rows;
    var c := Cells(rows);
    assert forall i :: 0 <= i < CellCount ==> c[i] != 0;
    SumOfPermutation(c, CellCount);
    ValidIffTotals(rows);
    forall r | 0 <= r < 5
      ensures Sum(rows[r]) == Target
    {
      assert rows[r][RowLens[r] - 1] == c[Index(Pos(r, RowLens[r] - 1))];
    }
    FirstDirectionCoversBoard(rows);
    SecondDirectionCoversBoard(rows);
    DirectionExact(rows, 0);
    DirectionExact(rows, 1);
  }

  /** Five diagonals of one direction, each at most the target, that together hold the
      whole 190 of a full board, each hold exactly the target. */
  lemma DirectionExact(rows: seq<seq<int>>, dir: int)
    requires WellShaped(rows) && 0 <= dir < 2
    requires forall d :: 0 <= d < 10 ==> DiagSum(rows, d) <= Target
    requires DirectionTotal(rows, dir) == 5 * Target
    ensures forall d :: 5 * dir <= d < 5 * dir + 5 ==> DiagSum(rows, d) == Target
  {
    assert DiagSum(rows, 5 * dir) <= Target && DiagSum(rows, 5 * dir + 1) <= Target;
    assert DiagSum(rows, 5 * dir + 2) <= Target && DiagSum(rows, 5 * dir + 3) <= Target;
    assert DiagSum(rows, 5 * dir + 4) <= Target;
    forall d | 5 * dir <= d < 5 * dir + 5
      ensures DiagSum(rows, d) == Target
    {
      assert d - 5 * dir in {0, 1, 2, 3, 4};
    }
  }

  /** Solve: call NextMove until the board is full, backtracking whenever it fails.
      The loop of the Go code is unbounded; here it runs at most fuel steps. */
  method Solve(b: Board, fuel: nat) returns (o: Outcome)
    requires Inv(b)
    ensures Inv(o.board)
    ensures o.Solved? ==> o.board.isFull && IsMagic(o.board.rows)
    ensures o.Exhausted? ==> o.board.cur == First && !o.board.isFull
  {
    var s := b;
    var f := fuel;
    while !s.isFull
      invariant Inv(s)
      decreases f
    {
      if f == 0 {
        return OutOfFuel(s);
      }
      f := f - 1;
      var moved;
      moved, s := NextMove(s);
      if !moved {
        if s.cur == First {
          return Exhausted(s);
        }
        BacktrackKeepsInv(s);
        s := Backtrack(s);
      }
    }
    FullBoardIsMagic(s);
    return Solved(s);
  }
}
