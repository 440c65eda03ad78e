/** The constraint checker of main.go (IsValid): a running-sum test over the five rows
    and the ten diagonals, with early exit as soon as a line overshoots the target. */
module Validity {
  import opened Sums
  import opened Hexagon

  /** The running sum of the line never exceeds the target. */
  predicate WithinTarget(s: seq<int>)
  {
    forall k :: 0 < k <= |s| ==> Sum(s[..k]) <= Target
  }

  /** A row passes when its running sum stays within the target and, once its last cell
      is set (non-zero), its total is exactly the target. */
  predicate RowOk(row: seq<int>)
  {
    WithinTarget(row) && (|row| > 0 && row[|row| - 1] > 0 ==> Sum(row) == Target)
  }

  /** A diagonal passes when its running sum stays within the target; no exactness is asked. */
  predicate DiagOk(rows: seq<seq<int>>, d: int)
    requires WellShaped(rows) && 0 <= d < 10
  {
    DiagsShape();
    WithinTarget(LineValues(rows, Diags[d]))
  }

  /** What IsValid accepts. */
  predicate Valid(rows: seq<seq<int>>)
    requires WellShaped(rows)
  {
    (forall r :: 0 <= r < 5 ==> RowOk(rows[r]))
    && (forall d :: 0 <= d < 10 ==> DiagOk(rows, d))
  }

  /** One row's pass of IsValid: accumulate left to right, failing on overshoot, and on
      the last cell, when it is set, failing unless the total is exactly the target. */
  method CheckRow(row: seq<int>) returns (ok: bool)
    ensures ok == RowOk(row)
  {
    var sum := 0;
    var i := 0;
    while i < |row|
      invariant 0 <= i <= |row|
      invariant sum == Sum(row[..i])
      invariant forall k :: 0 < k <= i ==> Sum(row[..k]) <= Target
      invariant i == |row| && i > 0 ==> (row[|row| - 1] > 0 ==> sum == Target)
    {
      SumPrefixStep(row, i);
      sum := sum + row[i];
      if sum > Target {
        assert !WithinTarget(row);
        return false;
      }
      if i == |row| - 1 && row[i] > 0 && sum != Target {
        assert row[..i + 1] == row;
        return false;
      }
      i := i + 1;
    }
    assert row[..i] == row;
    return true;
  }

  /** One diagonal's pass of IsValid: accumulate along DIAGS[d], failing on overshoot. */
  method CheckDiag(rows: seq<seq<int>>, d: int) returns (ok: bool)
    requires WellShaped(rows) && 0 <= d < 10
    ensures ok == DiagOk(rows, d)
  {
    DiagsShape();
    var positions := Diags[d];
    ghost var vs := LineValues(rows, positions);
    var sum := 0;
    var j := 0;
    while j < |positions|
      invariant 0 <= j <= |positions|
      invariant sum == Sum(vs[..j])
      invariant forall k :: 0 < k <= j ==> Sum(vs[..k]) <= Target
    {
      SumPrefixStep(vs, j);
      var pos := positions[j];
      sum := sum + rows[pos.row][pos.col];
      if sum > Target {
        assert !WithinTarget(vs);
        return false;
      }
      j := j + 1;
    }
    assert vs[..j] == vs;
    return true;
  }

  /** IsValid: scans every row, then every diagonal, stopping at the first failing line. */
  method IsValid(rows: seq<seq<int>>) returns (ok: bool)
    requires WellShaped(rows)
    ensures ok == Valid(rows)
  {
    var r := 0;
    while r < 5
      invariant 0 <= r <= 5
      invariant forall r' :: 0 <= r' < r ==> RowOk(rows[r'])
    {
      ok := CheckRow(rows[r]);
      if !ok {
        return false;
      }
      r := r + 1;
    }
    var d := 0;
    while d < 10
      invariant 0 <= d <= 10
      invariant forall d' :: 0 <= d' < d ==> DiagOk(rows, d')
    {
      ok := CheckDiag(rows, d);
      if !ok {
        return false;
      }
      d := d + 1;
    }
    return true;
  }

  /** No cell holds a negative value. */
  predicate NonNegative(rows: seq<seq<int>>)
    requires WellShaped(rows)
  {
    forall i :: 0 <= i < CellCount ==> Cells(rows)[i] >= 0
  }

  /** For non-negative values the running-sum test is a test of the total. */
  lemma WithinTargetIffTotal(s: seq<int>)
    requires forall i :: 0 <= i < |s| ==> s[i] >= 0
    ensures WithinTarget(s) <==> Sum(s) <= Target
  {
    if WithinTarget(s) && |s| > 0 {
      assert s[..|s|] == s;
    }
    if Sum(s) <= Target {
      forall k | 0 < k <= |s|
        ensures Sum(s[..k]) <= Target
      {
        PrefixSumBounded(s, k);
      }
    }
  }

  /** Every row and diagonal of a non-negative board, in terms of totals. */
  predicate TotalsWithinTarget(rows: seq<seq<int>>)
    requires WellShaped(rows)
  {
    (forall r :: 0 <= r < 5 ==>
      Sum(rows[r]) <= Target && (rows[r][RowLens[r] - 1] > 0 ==> Sum(rows[r]) == Target))
    && (forall d :: 0 <= d < 10 ==> DiagSum(rows, d) <= Target)
  }

  /** On non-negative cells the early-exit running-sum checks are the same as: every row
      total is at most the target, a row whose last cell is set totals exactly the target,
      and every diagonal total is at most the target. */
  lemma ValidIffTotals(rows: seq<seq<int>>)
    requires WellShaped(rows) && NonNegative(rows)
    ensures Valid(rows) <==> TotalsWithinTarget(rows)
  {
    forall r | 0 <= r < 5
      ensures RowOk(rows[r]) <==>
        Sum(rows[r]) <= Target && (rows[r][RowLens[r] - 1] > 0 ==> Sum(rows[r]) == Target)
    {
      forall c | 0 <= c < |rows[r]|
        ensures rows[r][c] >= 0
      {
        assert Cells(rows)[Index(Pos(r, c))] == rows[r][c];
      }
      WithinTargetIffTotal(rows[r]);
    }
    DiagsShape();
    forall d | 0 <= d < 10
      ensures DiagOk(rows, d) <==> DiagSum(rows, d) <= Target
    {
      var vs := LineValues(rows, Diags[d]);
      forall j | 0 <= j < |vs|
        ensures vs[j] >= 0
      {
        assert vs[j] == Cells(rows)[Index(Diags[d][j])];
      }
      WithinTargetIffTotal(vs);
    }
  }
}
