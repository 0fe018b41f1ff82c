/** Finite-set counting used to state how many cells, keys and entries the
    scenes build. */
module Counting {

  /** The grid cells (i, j) with lo <= i < lo + rows and lo <= j < lo + cols. */
  function Rect(lo: int, rows: nat, cols: nat): set<(int, int)>
  {
    set i, j | lo <= i < lo + rows && lo <= j < lo + cols :: (i, j)
  }

  /** Row i of such a grid: the cells (i, j) with lo <= j < lo + cols. */
  function RowCells(i: int, lo: int, cols: nat): set<(int, int)>
  {
    set j | lo <= j < lo + cols :: (i, j)
  }

  lemma {:induction false} RowCellsSize(i: int, lo: int, cols: nat)
    ensures |RowCells(i, lo, cols)| == cols
  {
    if cols > 0 {
      RowCellsSize(i, lo, cols - 1);
      assert RowCells(i, lo, cols) == RowCells(i, lo, cols - 1) + {(i, lo + cols - 1)};
    } else {
      assert RowCells(i, lo, cols) == {};
    }
  }

  /** Membership in a grid is the pair of range conditions. */
  lemma RectMember(lo: int, rows: nat, cols: nat, i: int, j: int)
    ensures (i, j) in Rect(lo, rows, cols) <==> lo <= i < lo + rows && lo <= j < lo + cols
  {
  }

  /** Extending a row by one cell adds exactly that cell. */
  lemma RowCellsExtend(i: int, lo: int, cols: nat)
    ensures RowCells(i, lo, cols + 1) == RowCells(i, lo, cols) + {(i, lo + cols)}
  {
  }

  lemma RectSplit(lo: int, rows: nat, cols: nat)
    requires rows > 0
    ensures Rect(lo, rows, cols) == Rect(lo, rows - 1, cols) + RowCells(lo + rows - 1, lo, cols)
    ensures Rect(lo, rows - 1, cols) !! RowCells(lo + rows - 1, lo, cols)
  {
  }

  lemma MulStep(a: nat, b: nat)
    ensures a * b + b == (a + 1) * b
  {
  }

  lemma RectEmpty(lo: int, cols: nat)
    ensures Rect(lo, 0, cols) == {}
  {
  }

  /** A rows-by-cols grid has rows * cols cells. */
  lemma {:induction false} RectSize(lo: int, rows: nat, cols: nat)
    ensures |Rect(lo, rows, cols)| == rows * cols
  {
    if rows > 0 {
      RectSplit(lo, rows, cols);
      var above, last := Rect(lo, rows - 1, cols), RowCells(lo + rows - 1, lo, cols);
      RectSize(lo, rows - 1, cols);
      RowCellsSize(lo + rows - 1, lo, cols);
      assert |above + last| == |above| + |last|;
      MulStep(rows - 1, cols);
    } else {
      RectEmpty(lo, cols);
    }
  }

  /** No element occurs twice. */
  ghost predicate Distinct<T>(s: seq<T>)
  {
    forall a, b :: 0 <= a < b < |s| ==> s[a] != s[b]
  }

  /** A sequence without repetitions has as many elements as its set. */
  lemma {:induction false} DistinctSize<T>(s: seq<T>)
    requires Distinct(s)
    ensures |set x | x in s| == |s|
  {
    if s != [] {
      var t := s[..|s| - 1];
      var last := s[|s| - 1];
      assert Distinct(t);
      DistinctSize(t);
      assert (set x | x in s) == (set x | x in t) + {last};
      assert last !in (set x | x in t);
    }
  }
}
