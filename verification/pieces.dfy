/** The move-generation helpers of puzzle/board.go: a board of game pieces, prefix
    slices of a row, the used-value set, and the candidate filter GetValidMoves. */
module Pieces {
  import opened Sums
  import opened Hexagon

  const MinPieceValue: int := 1
  const MaxPieceValue: int := 19
  const TargetRowSum: int := 38

  /** A piece; an empty slot is an unfilled piece of value 0. */
  datatype GamePiece = GamePiece(filled: bool, value: int)

  datatype BoardPosition = BoardPosition(row: int, column: int)

  /** The five rows of Board.Rows. */
  type PieceRows = seq<seq<GamePiece>>

  /** InitBoard: five rows of lengths 3,4,5,4,3 of empty pieces. */
  function InitBoard(): (b: PieceRows)
    ensures |b| == 5
    ensures forall r :: 0 <= r < 5 ==> |b[r]| == RowLens[r]
    ensures forall r, c :: 0 <= r < 5 && 0 <= c < |b[r]| ==> b[r][c] == GamePiece(false, 0)
  {
    seq(5, i => seq(if i == 0 || i == 4 then 3 else if i == 1 || i == 3 then 4 else 5,
                    _ => GamePiece(false, 0)))
  }

  predicate InRange(board: PieceRows, pos: BoardPosition)
  {
    0 <= pos.row < |board| && 0 <= pos.column < |board[pos.row]|
  }

  /** getRow: row n of the board, every piece of which carries a board value. */
  function GetRow(board: PieceRows, n: int): (r: seq<GamePiece>)
    requires 0 <= n < |board|
    ensures |r| == |board[n]|
    ensures forall k :: 0 <= k < |r| ==> r[k].value in BoardValues(board)
  {
    board[n]
  }

  /** getPosition: the piece at pos, a member of its row carrying a board value. */
  function GetPosition(board: PieceRows, pos: BoardPosition): (p: GamePiece)
    requires InRange(board, pos)
    ensures p in board[pos.row]
    ensures p.value in BoardValues(board)
  {
    GetRow(board, pos.row)[pos.column]
  }

  /** SetPosition: the piece at pos becomes a filled piece carrying the move's value. */
  function SetPosition(board: PieceRows, pos: BoardPosition, move: GamePiece): (r: PieceRows)
    requires InRange(board, pos)
    ensures |r| == |board| && forall i :: 0 <= i < |r| ==> |r[i]| == |board[i]|
    ensures r[pos.row][pos.column] == GamePiece(true, move.value)
    ensures forall i, j :: 0 <= i < |r| && 0 <= j < |r[i]| && (i != pos.row || j != pos.column) ==>
      r[i][j] == board[i][j]
  {
    board[pos.row := board[pos.row][pos.column := GamePiece(true, move.value)]]
  }

  /** Reading back a position after SetPosition sees the move there and the old piece elsewhere. */
  lemma GetAfterSet(board: PieceRows, pos: BoardPosition, move: GamePiece, q: BoardPosition)
    requires InRange(board, pos) && InRange(board, q)
    ensures InRange(SetPosition(board, pos, move), q)
    ensures GetPosition(SetPosition(board, pos, move), q) ==
      if q == pos then GamePiece(true, move.value) else GetPosition(board, q)
  {
  }

  // ---------------------------------------------------------------------------
  // removeEmptyPieces

  /** The filled pieces, in their original order. */
  function FilledOnly(ps: seq<GamePiece>): seq<GamePiece>
  {
    if |ps| == 0 then []
    else FilledOnly(ps[..|ps| - 1]) + (if ps[|ps| - 1].filled then [ps[|ps| - 1]] else [])
  }

  lemma {:induction false} FilledOnlyMembers(ps: seq<GamePiece>)
    ensures forall k :: 0 <= k < |FilledOnly(ps)| ==> FilledOnly(ps)[k].filled
    ensures forall x :: x in FilledOnly(ps) <==> x in ps && x.filled
    ensures |FilledOnly(ps)| <= |ps|
  {
    if |ps| > 0 {
      var init := ps[..|ps| - 1];
      FilledOnlyMembers(init);
      assert ps == init + [ps[|ps| - 1]];
      forall x
        ensures x in ps <==> x in init || x == ps[|ps| - 1]
      {
        if x in ps {
          var k :| 0 <= k < |ps| && ps[k] == x;
          if k < |ps| - 1 {
            assert init[k] == x;
          }
        }
      }
    }
  }

  /** Filtering distributes over concatenation, so relative order is kept. */
  lemma {:induction false} FilledOnlyAppend(a: seq<GamePiece>, b: seq<GamePiece>)
    ensures FilledOnly(a + b) == FilledOnly(a) + FilledOnly(b)
    decreases |b|
  {
    if |b| == 0 {
      assert a + b == a;
    } else {
      var b' := b[..|b| - 1];
      assert (a + b)[..|a + b| - 1] == a + b';
      FilledOnlyAppend(a, b');
    }
  }

  /** Removing empty pieces twice is the same as once. */
  lemma {:induction false} FilledOnlyIdempotent(ps: seq<GamePiece>)
    ensures FilledOnly(FilledOnly(ps)) == FilledOnly(ps)
  {
    if |ps| > 0 {
      var init := ps[..|ps| - 1];
      var last := ps[|ps| - 1];
      var tail := if last.filled then [last] else [];
      FilledOnlyIdempotent(init);
      FilledOnlyAppend(FilledOnly(init), tail);
      if last.filled {
        assert FilledOnly([last]) == FilledOnly([last][..0]) + [last];
        assert [last][..0] == [];
      } else {
        assert FilledOnly(tail) == [];
      }
    }
  }

  /** removeEmptyPieces: appends each filled piece, in order. */
  method RemoveEmptyPieces(pieces: seq<GamePiece>) returns (valid: seq<GamePiece>)
    ensures valid == FilledOnly(pieces)
    ensures forall k :: 0 <= k < |valid| ==> valid[k].filled
    ensures forall x :: x in valid <==> x in pieces && x.filled
  {
    valid := [];
    for i := 0 to |pieces|
      invariant valid == FilledOnly(pieces[..i])
    {
      assert pieces[..i + 1][..i] == pieces[..i];
      if pieces[i].filled {
        valid := valid + [pieces[i]];
      }
    }
    assert pieces[..|pieces|] == pieces;
    FilledOnlyMembers(pieces);
  }

  // ---------------------------------------------------------------------------
  // Prefix of a row and its sum

  /** getPrevHorizontalRowPieces: the row of pos up to and including pos. A column of -1
      gives the empty prefix, and a column past the row panics in Go. */
  function GetPrevHorizontalRowPieces(board: PieceRows, pos: BoardPosition): (r: seq<GamePiece>)
    requires 0 <= pos.row < |board| && -1 <= pos.column < |board[pos.row]|
    ensures |r| == pos.column + 1
    ensures forall k :: 0 <= k < |r| ==> r[k] == GetPosition(board, BoardPosition(pos.row, k))
  {
    GetRow(board, pos.row)[0..pos.column + 1]
  }

  /** The values of a list of pieces. */
  function Values(ps: seq<GamePiece>): (vs: seq<int>)
    ensures |vs| == |ps|
    ensures forall k :: 0 <= k < |ps| ==> vs[k] == ps[k].value
  {
    seq(|ps|, k requires 0 <= k < |ps| => ps[k].value)
  }

  /** rowSum: adds up the pieces' values. */
  method RowSum(pieces: seq<GamePiece>) returns (total: int)
    ensures total == Sum(Values(pieces))
  {
    total := 0;
    for i := 0 to |pieces|
      invariant total == Sum(Values(pieces)[..i])
    {
      SumPrefixStep(Values(pieces), i);
      total := total + pieces[i].value;
    }
    assert Values(pieces)[..|pieces|] == Values(pieces);
  }

  /** Empty pieces carry value 0. */
  predicate EmptyIsZero(ps: seq<GamePiece>)
  {
    forall k :: 0 <= k < |ps| && !ps[k].filled ==> ps[k].value == 0
  }

  /** When empty pieces carry 0, summing a row is the same as summing its filled pieces. */
  lemma {:induction false} RowSumIgnoresEmpty(ps: seq<GamePiece>)
    requires EmptyIsZero(ps)
    ensures Sum(Values(ps)) == Sum(Values(FilledOnly(ps)))
  {
    if |ps| > 0 {
      var init := ps[..|ps| - 1];
      var last := ps[|ps| - 1];
      RowSumIgnoresEmpty(init);
      assert Values(ps) == Values(init) + [last.value];
      SumSnoc(Values(init), last.value);
      if last.filled {
        assert Values(FilledOnly(ps)) == Values(FilledOnly(init)) + [last.value];
        SumSnoc(Values(FilledOnly(init)), last.value);
      } else {
        assert FilledOnly(ps) == FilledOnly(init);
      }
    }
  }

  /** The sum of the row prefix ending at pos. */
  function RowPrefixSum(board: PieceRows, pos: BoardPosition): int
    requires 0 <= pos.row < |board| && -1 <= pos.column < |board[pos.row]|
  {
    Sum(Values(GetPrevHorizontalRowPieces(board, pos)))
  }

  // ---------------------------------------------------------------------------
  // Candidates

  /** getPiecesLte: filled pieces 1, 2, ..., n in ascending order (none when n < 1). */
  method GetPiecesLte(n: int) returns (pieces: seq<GamePiece>)
    ensures |pieces| == if n < MinPieceValue then 0 else n
    ensures forall k :: 0 <= k < |pieces| ==> pieces[k] == GamePiece(true, k + MinPieceValue)
  {
    pieces := [];
    var i := MinPieceValue;
    while i <= n
      invariant MinPieceValue <= i && (n >= MinPieceValue ==> i <= n + 1)
      invariant n < MinPieceValue ==> i == MinPieceValue
      invariant |pieces| == i - MinPieceValue
      invariant forall k :: 0 <= k < |pieces| ==> pieces[k] == GamePiece(true, k + MinPieceValue)
    {
      pieces := pieces + [GamePiece(true, i)];
      i := i + 1;
    }
  }

  /** max: the largest of a non-empty list (Go indexes nums[0] and panics on an empty list). */
  method Max(nums: seq<int>) returns (n: int)
    requires |nums| > 0
    ensures n in nums
    ensures forall k :: 0 <= k < |nums| ==> nums[k] <= n
  {
    n := nums[0];
    for i := 1 to |nums|
      invariant n in nums[..i]
      invariant forall k :: 0 <= k < i ==> nums[k] <= n
    {
      if nums[i] > n {
        n := nums[i];
      }
    }
  }

  /** Every value on the board, 0 included when some slot is empty. */
  function BoardValues(board: PieceRows): set<int>
  {
    set r, c | 0 <= r < |board| && 0 <= c < |board[r]| :: board[r][c].value
  }

  /** getUsedPieces: the set of values present on the board. */
  method GetUsedPieces(board: PieceRows) returns (seen: set<int>)
    ensures forall v :: v in seen <==>
      exists r, c :: 0 <= r < |board| && 0 <= c < |board[r]| && board[r][c].value == v
  {
    seen := {};
    for r := 0 to |board|
      invariant forall v :: v in seen <==>
        exists r', c :: 0 <= r' < r && 0 <= c < |board[r']| && board[r'][c].value == v
    {
      for c := 0 to |board[r]|
        invariant forall v :: v in seen <==>
          (exists r', c' :: 0 <= r' < r && 0 <= c' < |board[r']| && board[r'][c'].value == v)
          || (exists c' :: 0 <= c' < c && board[r][c'].value == v)
      {
        seen := seen + {board[r][c].value};
      }
    }
  }

  /** The set getUsedPieces builds is the set of board values. */
  lemma UsedPiecesAreBoardValues(board: PieceRows, seen: set<int>)
    requires forall v :: v in seen <==>
      exists r, c :: 0 <= r < |board| && 0 <= c < |board[r]| && board[r][c].value == v
    ensures seen == BoardValues(board)
  {
    forall v
      ensures v in seen <==> v in BoardValues(board)
    {
      if v in seen {
        var r, c :| 0 <= r < |board| && 0 <= c < |board[r]| && board[r][c].value == v;
        assert board[r][c].value in BoardValues(board);
      }
    }
  }

  /** An empty board has only the value 0 on it. */
  lemma InitBoardValues()
    ensures BoardValues(InitBoard()) == {0}
  {
    var b: PieceRows := InitBoard();
    assert b[0][0].value == 0;
  }

  // ---------------------------------------------------------------------------
  // GetValidMoves

  /** v may be offered: a piece value of at least 1, at most hi, not on the board. */
  predicate Admissible(v: int, used: set<int>, hi: int)
  {
    MinPieceValue <= v <= hi && v !in used
  }

  /** moves lists exactly the admissible values, as filled pieces, strictly ascending. */
  ghost predicate IsMoveList(moves: seq<GamePiece>, used: set<int>, hi: int)
  {
    && (forall k :: 0 <= k < |moves| ==> moves[k].filled && Admissible(moves[k].value, used, hi))
    && Ascending(moves)
    && (forall v :: Admissible(v, used, hi) ==> GamePiece(true, v) in moves)
  }

  /** The largest of three sums. */
  function Highest(a: int, b: int, c: int): (m: int)
    ensures m >= a && m >= b && m >= c
    ensures m == a || m == b || m == c
  {
    if a >= b && a >= c then a else if b >= c then b else c
  }

  /** The cap GetValidMoves puts on a candidate: the target less the highest of the row
      prefix sum and the two diagonal prefix sums. */
  function MoveBound(board: PieceRows, pos: BoardPosition, leftDiagSum: int, rightDiagSum: int): int
    requires 0 <= pos.row < |board| && -1 <= pos.column < |board[pos.row]|
  {
    TargetRowSum - Highest(RowPrefixSum(board, pos), rightDiagSum, leftDiagSum)
  }

  /** Keeps the candidates whose value is not in used, in order. */
  method FilterUnused(possible: seq<GamePiece>, used: set<int>, hi: int) returns (moves: seq<GamePiece>)
    requires forall k :: 0 <= k < |possible| ==> possible[k] == GamePiece(true, k + MinPieceValue)
    requires |possible| == if hi < MinPieceValue then 0 else hi
    ensures IsMoveList(moves, used, hi)
  {
    moves := [];
    for k := 0 to |possible|
      invariant forall j :: 0 <= j < |moves| ==> moves[j].filled && Admissible(moves[j].value, used, hi)
      invariant forall j :: 0 <= j < |moves| ==> moves[j].value <= k
      invariant forall j, j' :: 0 <= j < j' < |moves| ==> moves[j].value < moves[j'].value
      invariant forall v :: Admissible(v, used, hi) && v <= k ==> GamePiece(true, v) in moves
    {
      if possible[k].value !in used {
        moves := moves + [possible[k]];
      }
    }
  }

  /** GetValidMoves: the unused values 1..(38 - highest prefix sum), ascending. The two
      diagonal prefix sums are parameters (see README). */
  method GetValidMoves(board: PieceRows, pos: BoardPosition, leftDiagSum: int, rightDiagSum: int)
    returns (moves: seq<GamePiece>)
    requires 0 <= pos.row < |board| && -1 <= pos.column < |board[pos.row]|
    ensures IsMoveList(moves, BoardValues(board), MoveBound(board, pos, leftDiagSum, rightDiagSum))
  {
    var usedPieces := GetUsedPieces(board);
    UsedPiecesAreBoardValues(board, usedPieces);
    var horizontalRowPieces := GetPrevHorizontalRowPieces(board, pos);
    var horizontalRowSum := RowSum(horizontalRowPieces);
    var sums := [horizontalRowSum, rightDiagSum, leftDiagSum];
    var highestRowSum := Max(sums);
    assert sums[0] == horizontalRowSum && sums[1] == rightDiagSum && sums[2] == leftDiagSum;
    assert highestRowSum == Highest(horizontalRowSum, rightDiagSum, leftDiagSum);
    var possibleMoves := GetPiecesLte(TargetRowSum - highestRowSum);
    moves := FilterUnused(possibleMoves, usedPieces, TargetRowSum - highestRowSum);
  }

  /** The bound of GetValidMoves capped at MaxPieceValue. */
  function ClampedBound(board: PieceRows, pos: BoardPosition, leftDiagSum: int, rightDiagSum: int): (hi: int)
    requires 0 <= pos.row < |board| && -1 <= pos.column < |board[pos.row]|
    ensures hi <= MaxPieceValue && hi <= MoveBound(board, pos, leftDiagSum, rightDiagSum)
    ensures hi == MaxPieceValue || hi == MoveBound(board, pos, leftDiagSum, rightDiagSum)
  {
    var b := MoveBound(board, pos, leftDiagSum, rightDiagSum);
    if b < MaxPieceValue then b else MaxPieceValue
  }

  /** GetValidMoves with its bound also capped at MaxPieceValue. */
  method GetValidMovesClamped(board: PieceRows, pos: BoardPosition, leftDiagSum: int, rightDiagSum: int)
    returns (moves: seq<GamePiece>)
    requires 0 <= pos.row < |board| && -1 <= pos.column < |board[pos.row]|
    ensures IsMoveList(moves, BoardValues(board), ClampedBound(board, pos, leftDiagSum, rightDiagSum))
    ensures forall k :: 0 <= k < |moves| ==> MinPieceValue <= moves[k].value <= MaxPieceValue
  {
    var usedPieces := GetUsedPieces(board);
    UsedPiecesAreBoardValues(board, usedPieces);
    var horizontalRowPieces := GetPrevHorizontalRowPieces(board, pos);
    var horizontalRowSum := RowSum(horizontalRowPieces);
    var sums := [horizontalRowSum, rightDiagSum, leftDiagSum];
    var highestRowSum := Max(sums);
    assert sums[0] == horizontalRowSum && sums[1] == rightDiagSum && sums[2] == leftDiagSum;
    assert highestRowSum == Highest(horizontalRowSum, rightDiagSum, leftDiagSum);
    var bound := TargetRowSum - highestRowSum;
    if bound > MaxPieceValue {
      bound := MaxPieceValue;
    }
    var possibleMoves := GetPiecesLte(bound);
    moves := FilterUnused(possibleMoves, usedPieces, bound);
  }

  // ---------------------------------------------------------------------------
  // Properties of move lists

  predicate Ascending(a: seq<GamePiece>)
  {
    forall k, k' :: 0 <= k < k' < |a| ==> a[k].value < a[k'].value
  }

  /** In a strictly ascending list, the head is the only piece of least value. */
  lemma AscendingHead(a: seq<GamePiece>)
    requires Ascending(a) && |a| > 0
    ensures Ascending(a[1..])
    ensures forall x :: x in a[1..] ==> a[0].value < x.value
    ensures forall x :: x in a <==> x == a[0] || x in a[1..]
    ensures a[0] !in a[1..]
  {
    assert a == [a[0]] + a[1..];
  }

  /** Two strictly ascending lists of filled pieces with the same members are equal. */
  lemma {:induction false} AscendingSameMembersEqual(a: seq<GamePiece>, b: seq<GamePiece>)
    requires Ascending(a) && Ascending(b)
    requires forall x :: x in a <==> x in b
    ensures a == b
    decreases |a| + |b|
  {
    if |b| > 0 {
      assert b[0] in a;
    }
    if |a| > 0 {
      assert a[0] in b;
      AscendingHead(a);
      AscendingHead(b);
      assert a[0] == b[0];
      AscendingSameMembersEqual(a[1..], b[1..]);
      assert a == [a[0]] + a[1..] && b == [b[0]] + b[1..];
    }
  }

  /** The move list is determined by the used values and the bound: the candidate order
      is fully deterministic. */
  lemma MoveListUnique(a: seq<GamePiece>, b: seq<GamePiece>, used: set<int>, hi: int)
    requires IsMoveList(a, used, hi) && IsMoveList(b, used, hi)
    ensures a == b
  {
    forall x
      ensures x in a <==> x in b
    {
      if x in a {
        var k :| 0 <= k < |a| && a[k] == x;
        assert Admissible(x.value, used, hi);
        assert x == GamePiece(true, x.value);
      }
      if x in b {
        var k :| 0 <= k < |b| && b[k] == x;
        assert Admissible(x.value, used, hi);
        assert x == GamePiece(true, x.value);
      }
    }
    AscendingSameMembersEqual(a, b);
  }

  /** As written, GetValidMoves on an empty board at the first cell of the second row, where
      both diagonal helpers return no pieces and so both diagonal sums are 0, offers 20, a
      value no piece can have: the bound 38 - 0 is never capped at MaxPieceValue. */
  lemma EmptyBoardOffersTwenty(moves: seq<GamePiece>)
    requires IsMoveList(moves, BoardValues(InitBoard()),
      MoveBound(InitBoard(), BoardPosition(1, 0), 0, 0))
    ensures GamePiece(true, MaxPieceValue + 1) in moves
  {
    InitBoardValues();
    var h := GetPrevHorizontalRowPieces(InitBoard(), BoardPosition(1, 0));
    assert Values(h) == [0];
    assert Sum([0]) == 0 by {
      assert [0][..0] == [];
    }
    assert Admissible(MaxPieceValue + 1, BoardValues(InitBoard()), MoveBound(InitBoard(), BoardPosition(1, 0), 0, 0));
  }

  /** With the cap, the same position on the empty board is offered exactly 1..19 in order. */
  lemma EmptyBoardClampedOffersAllPieces(moves: seq<GamePiece>)
    requires IsMoveList(moves, BoardValues(InitBoard()), ClampedBound(InitBoard(), BoardPosition(1, 0), 0, 0))
    ensures moves == seq(MaxPieceValue, k => GamePiece(true, k + 1))
  {
    InitBoardValues();
    var h := GetPrevHorizontalRowPieces(InitBoard(), BoardPosition(1, 0));
    assert Values(h) == [0];
    assert Sum([0]) == 0 by {
      assert [0][..0] == [];
    }
    assert ClampedBound(InitBoard(), BoardPosition(1, 0), 0, 0) == MaxPieceValue;
    var all := seq(MaxPieceValue, k => GamePiece(true, k + 1));
    forall v | Admissible(v, BoardValues(InitBoard()), MaxPieceValue)
      ensures GamePiece(true, v) in all
    {
      assert all[v - 1] == GamePiece(true, v);
    }
    MoveListUnique(moves, all, BoardValues(InitBoard()), MaxPieceValue);
  }
}
