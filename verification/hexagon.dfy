/** The fixed geometry of the magic hexagon (main.go): five rows of lengths 3,4,5,4,3,
    the row-major visiting order of the 19 positions, and the table of the ten diagonals. */
module Hexagon {
  import opened Sums

  /** The magic constant every line must reach (TARGET_NUM). */
  const Target: int := 38
  /** Largest value a cell may hold; cells hold 1..MaxValue, 0 meaning empty. */
  const MaxValue: int := 19
  /** Number of cells on the board. */
  const CellCount: int := 19

  /** Row lengths (rowLen). */
  const RowLens: seq<int> := [3, 4, 5, 4, 3]
  /** Row-major index of the first cell of each row. */
  const RowStarts: seq<int> := [0, 3, 7, 12, 16]

  datatype Pos = Pos(row: int, col: int)

  const First: Pos := Pos(0, 0)
  const Last: Pos := Pos(4, 2)

  predicate OnBoard(p: Pos)
  {
    0 <= p.row < 5 && 0 <= p.col < RowLens[p.row]
  }

  /** Position of p in the row-major visiting order. */
  function Index(p: Pos): (i: int)
    requires OnBoard(p)
    ensures 0 <= i < CellCount
  {
    RowStarts[p.row] + p.col
  }

  /** The position visited i-th. */
  function PosAt(i: int): (p: Pos)
    requires 0 <= i < CellCount
    ensures OnBoard(p) && Index(p) == i
  {
    if i < 3 then Pos(0, i)
    else if i < 7 then Pos(1, i - 3)
    else if i < 12 then Pos(2, i - 7)
    else if i < 16 then Pos(3, i - 12)
    else Pos(4, i - 16)
  }

  /** The visiting order is a bijection between on-board positions and 0..18. */
  lemma IndexBijection(p: Pos)
    requires OnBoard(p)
    ensures PosAt(Index(p)) == p
  {
  }

  lemma IndexInjective(p: Pos, q: Pos)
    requires OnBoard(p) && OnBoard(q)
    ensures Index(p) == Index(q) <==> p == q
  {
    IndexBijection(p);
    IndexBijection(q);
  }

  /** nextPos: the following position in row-major order; panics at the last position. */
  function NextPos(p: Pos): (q: Pos)
    requires OnBoard(p) && p != Last
    ensures OnBoard(q) && Index(q) == Index(p) + 1
  {
    if p.col == RowLens[p.row] - 1 then Pos(p.row + 1, 0) else Pos(p.row, p.col + 1)
  }

  /** previousPos: the preceding position in row-major order; panics at the first position. */
  function PreviousPos(p: Pos): (q: Pos)
    requires OnBoard(p) && p != First
    ensures OnBoard(q) && Index(q) == Index(p) - 1
  {
    if p.col == 0 then Pos(p.row - 1, RowLens[p.row - 1] - 1) else Pos(p.row, p.col - 1)
  }

  /** Stepping forward then back returns to the start. */
  lemma PreviousOfNext(p: Pos)
    requires OnBoard(p) && p != Last
    ensures NextPos(p) != First && PreviousPos(NextPos(p)) == p
  {
    IndexInjective(PreviousPos(NextPos(p)), p);
  }

  /** Stepping back then forward returns to the start. */
  lemma NextOfPrevious(p: Pos)
    requires OnBoard(p) && p != First
    ensures PreviousPos(p) != Last && NextPos(PreviousPos(p)) == p
  {
    IndexInjective(NextPos(PreviousPos(p)), p);
  }

  /** DIAGS: the first five run top right to bottom left, the last five top left to bottom right. */
  const Diags: seq<seq<Pos>> := [
    [Pos(0, 0), Pos(1, 0), Pos(2, 0)],
    [Pos(0, 1), Pos(1, 1), Pos(2, 1), Pos(3, 0)],
    [Pos(0, 2), Pos(1, 2), Pos(2, 2), Pos(3, 1), Pos(4, 0)],
    [Pos(1, 3), Pos(2, 3), Pos(3, 2), Pos(4, 1)],
    [Pos(2, 4), Pos(3, 3), Pos(4, 2)],

    [Pos(2, 0), Pos(3, 0), Pos(4, 0)],
    [Pos(1, 0), Pos(2, 1), Pos(3, 1), Pos(4, 1)],
    [Pos(0, 0), Pos(1, 1), Pos(2, 2), Pos(3, 2), Pos(4, 2)],
    [Pos(0, 1), Pos(1, 2), Pos(2, 3), Pos(3, 3)],
    [Pos(0, 2), Pos(1, 3), Pos(2, 4)]
  ]

  /** The number (0..4) of the diagonal through p in direction dir (0: the first five
      entries of Diags, 1: the last five), computed from p's coordinates alone. */
  function DiagNumber(dir: int, p: Pos): int
  {
    if dir == 0 then
      (if p.row <= 2 then p.col else p.col + p.row - 2)
    else
      (if p.row <= 2 then p.col + 2 - p.row else p.col)
  }

  predicate LineOnBoard(line: seq<Pos>)
  {
    forall j :: 0 <= j < |line| ==> OnBoard(line[j])
  }

  /** Every diagonal lies on the board, and the diagonals of each direction have the
      lengths 3,4,5,4,3 of the rows. */
  lemma DiagsShape()
    ensures |Diags| == 10
    ensures forall d :: 0 <= d < 10 ==> LineOnBoard(Diags[d]) && |Diags[d]| == RowLens[d % 5]
  {
  }

  /** Each direction partitions the board: every on-board position lies on the diagonal
      DiagNumber names, and no entry of a diagonal has any other number in that direction,
      so each cell lies on exactly one diagonal per direction. */
  lemma DiagsPartition()
    ensures forall p, dir :: OnBoard(p) && 0 <= dir < 2 ==>
      0 <= DiagNumber(dir, p) < 5 && p in Diags[5 * dir + DiagNumber(dir, p)]
    ensures forall d, j :: 0 <= d < 10 && 0 <= j < |Diags[d]| ==>
      DiagNumber(d / 5, Diags[d][j]) == d % 5
  {
    forall p, dir | OnBoard(p) && 0 <= dir < 2
      ensures 0 <= DiagNumber(dir, p) < 5 && p in Diags[5 * dir + DiagNumber(dir, p)]
    {
      var i := Index(p);
      IndexBijection(p);
      assert p == PosAt(i);
    }
  }

  // ---------------------------------------------------------------------------
  // Board contents: the five rows of main.go's Board.rows

  /** Rows have the hexagon's lengths. */
  predicate WellShaped(rows: seq<seq<int>>)
  {
    |rows| == 5 && forall r :: 0 <= r < 5 ==> |rows[r]| == RowLens[r]
  }

  function At(rows: seq<seq<int>>, p: Pos): int
    requires WellShaped(rows) && OnBoard(p)
  {
    rows[p.row][p.col]
  }

  /** The 19 cells in visiting order. */
  function Cells(rows: seq<seq<int>>): (c: seq<int>)
    requires WellShaped(rows)
    ensures |c| == CellCount
    ensures forall p :: OnBoard(p) ==> c[Index(p)] == At(rows, p)
  {
    var c := seq(CellCount, i requires 0 <= i < CellCount => At(rows, PosAt(i)));
    assert forall p :: OnBoard(p) ==> c[Index(p)] == At(rows, p) by {
      forall p | OnBoard(p)
        ensures c[Index(p)] == At(rows, p)
      {
        IndexBijection(p);
      }
    }
    c
  }

  /** The cells in visiting order are the rows laid end to end. */
  lemma CellsAreRows(rows: seq<seq<int>>)
    requires WellShaped(rows)
    ensures Cells(rows) == rows[0] + rows[1] + rows[2] + rows[3] + rows[4]
  {
    var c := Cells(rows);
    var f := rows[0] + rows[1] + rows[2] + rows[3] + rows[4];
    forall i | 0 <= i < CellCount
      ensures c[i] == f[i]
    {
      var p := PosAt(i);
      assert c[i] == At(rows, p);
    }
  }

  /** Writing v at p: the rows with that one cell replaced. */
  function Place(rows: seq<seq<int>>, p: Pos, v: int): (r: seq<seq<int>>)
    requires WellShaped(rows) && OnBoard(p)
    ensures WellShaped(r)
    ensures Cells(r) == Cells(rows)[Index(p) := v]
  {
    var r := rows[p.row := rows[p.row][p.col := v]];
    assert Cells(r) == Cells(rows)[Index(p) := v] by {
      forall i | 0 <= i < CellCount
        ensures Cells(r)[i] == Cells(rows)[Index(p) := v][i]
      {
        var q := PosAt(i);
        IndexInjective(p, q);
      }
    }
    r
  }

  /** Rows are determined by their cells. */
  lemma CellsDetermineRows(a: seq<seq<int>>, b: seq<seq<int>>)
    requires WellShaped(a) && WellShaped(b)
    requires Cells(a) == Cells(b)
    ensures a == b
  {
    CellsAreRows(a);
    CellsAreRows(b);
    forall r | 0 <= r < 5
      ensures a[r] == b[r]
    {
      forall c | 0 <= c < RowLens[r]
        ensures a[r][c] == b[r][c]
      {
        assert Cells(a)[Index(Pos(r, c))] == Cells(b)[Index(Pos(r, c))];
      }
    }
  }

  /** The values of a line's cells, in the line's order. */
  function LineValues(rows: seq<seq<int>>, line: seq<Pos>): (vs: seq<int>)
    requires WellShaped(rows) && LineOnBoard(line)
    ensures |vs| == |line|
    ensures forall j :: 0 <= j < |line| ==> vs[j] == At(rows, line[j])
  {
    seq(|line|, j requires 0 <= j < |line| => At(rows, line[j]))
  }

  // ---------------------------------------------------------------------------
  // Each direction of diagonals covers the whole board once, so its line sums
  // add up to the sum of all cells.

  lemma Sum3(a: int, b: int, c: int)
    ensures Sum([a, b, c]) == a + b + c
  {
    SumSnoc([], a);
    assert [] + [a] == [a];
    SumSnoc([a], b);
    assert [a] + [b] == [a, b];
    SumSnoc([a, b], c);
    assert [a, b] + [c] == [a, b, c];
  }

  lemma Sum4(a: int, b: int, c: int, d: int)
    ensures Sum([a, b, c, d]) == a + b + c + d
  {
    assert [a, b, c, d][..3] == [a, b, c];
    Sum3(a, b, c);
  }

  lemma Sum5(a: int, b: int, c: int, d: int, e: int)
    ensures Sum([a, b, c, d, e]) == a + b + c + d + e
  {
    assert [a, b, c, d, e][..4] == [a, b, c, d];
    Sum4(a, b, c, d);
  }

  /** A line of length 3, 4 or 5 sums to its listed cells. */
  lemma LineSumExpanded(rows: seq<seq<int>>, d: int)
    requires WellShaped(rows) && 0 <= d < 10
    ensures LineOnBoard(Diags[d])
    ensures var l := Diags[d]; var vs := LineValues(rows, l);
      Sum(vs) == (if |l| == 3 then At(rows, l[0]) + At(rows, l[1]) + At(rows, l[2])
                  else if |l| == 4 then At(rows, l[0]) + At(rows, l[1]) + At(rows, l[2]) + At(rows, l[3])
                  else At(rows, l[0]) + At(rows, l[1]) + At(rows, l[2]) + At(rows, l[3]) + At(rows, l[4]))
  {
    DiagsShape();
    var l := Diags[d];
    var vs := LineValues(rows, l);
    if |l| == 3 {
      assert vs == [vs[0], vs[1], vs[2]];
      Sum3(vs[0], vs[1], vs[2]);
    } else if |l| == 4 {
      assert vs == [vs[0], vs[1], vs[2], vs[3]];
      Sum4(vs[0], vs[1], vs[2], vs[3]);
    } else {
      assert vs == [vs[0], vs[1], vs[2], vs[3], vs[4]];
      Sum5(vs[0], vs[1], vs[2], vs[3], vs[4]);
    }
  }

  /** Sum of the line through Diags[d]. */
  function DiagSum(rows: seq<seq<int>>, d: int): int
    requires WellShaped(rows) && 0 <= d < 10
  {
    DiagsShape();
    Sum(LineValues(rows, Diags[d]))
  }

  /** The five diagonals of direction dir together. */
  function DirectionTotal(rows: seq<seq<int>>, dir: int): int
    requires WellShaped(rows) && 0 <= dir < 2
  {
    DiagSum(rows, 5 * dir) + DiagSum(rows, 5 * dir + 1) + DiagSum(rows, 5 * dir + 2)
    + DiagSum(rows, 5 * dir + 3) + DiagSum(rows, 5 * dir + 4)
  }

  /** The sum of all cells, expanded cell by cell. */
  lemma CellsSumExpanded(rows: seq<seq<int>>)
    requires WellShaped(rows)
    ensures Sum(Cells(rows)) ==
      rows[0][0] + rows[0][1] + rows[0][2]
      + rows[1][0] + rows[1][1] + rows[1][2] + rows[1][3]
      + rows[2][0] + rows[2][1] + rows[2][2] + rows[2][3] + rows[2][4]
      + rows[3][0] + rows[3][1] + rows[3][2] + rows[3][3]
      + rows[4][0] + rows[4][1] + rows[4][2]
  {
    CellsAreRows(rows);
    SumAppend(rows[0] + rows[1] + rows[2] + rows[3], rows[4]);
    SumAppend(rows[0] + rows[1] + rows[2], rows[3]);
    SumAppend(rows[0] + rows[1], rows[2]);
    SumAppend(rows[0], rows[1]);
    assert rows[0] == [rows[0][0], rows[0][1], rows[0][2]];
    Sum3(rows[0][0], rows[0][1], rows[0][2]);
    assert rows[1] == [rows[1][0], rows[1][1], rows[1][2], rows[1][3]];
    Sum4(rows[1][0], rows[1][1], rows[1][2], rows[1][3]);
    assert rows[2] == [rows[2][0], rows[2][1], rows[2][2], rows[2][3], rows[2][4]];
    Sum5(rows[2][0], rows[2][1], rows[2][2], rows[2][3], rows[2][4]);
    assert rows[3] == [rows[3][0], rows[3][1], rows[3][2], rows[3][3]];
    Sum4(rows[3][0], rows[3][1], rows[3][2], rows[3][3]);
    assert rows[4] == [rows[4][0], rows[4][1], rows[4][2]];
    Sum3(rows[4][0], rows[4][1], rows[4][2]);
  }

  /** The top-right-to-bottom-left diagonals add up to the whole board. */
  lemma FirstDirectionCoversBoard(rows: seq<seq<int>>)
    requires WellShaped(rows)
    ensures DirectionTotal(rows, 0) == Sum(Cells(rows))
  {
    CellsSumExpanded(rows);
    LineSumExpanded(rows, 0);
    LineSumExpanded(rows, 1);
    LineSumExpanded(rows, 2);
    LineSumExpanded(rows, 3);
    LineSumExpanded(rows, 4);
  }

  /** The top-left-to-bottom-right diagonals add up to the whole board. */
  lemma SecondDirectionCoversBoard(rows: seq<seq<int>>)
    requires WellShaped(rows)
    ensures DirectionTotal(rows, 1) == Sum(Cells(rows))
  {
    CellsSumExpanded(rows);
    LineSumExpanded(rows, 5);
    LineSumExpanded(rows, 6);
    LineSumExpanded(rows, 7);
    LineSumExpanded(rows, 8);
    LineSumExpanded(rows, 9);
  }
}
