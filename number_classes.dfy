/** numberClasses/numberClasses.py: the part of the number-sets scene that
    computes. Euclid's `gcd`, the 6-by-6 grid of fractions i/j classified
    as integer, reduced or not reduced, Cantor's zig-zag enumeration of
    that grid, and the filter that keeps fractions of the interval [1, 2]. */
module NumberClasses {
  import opened Geometry
  import opened Counting
  import opened Basics

  // ---------------------------------------------------------------------
  // gcd (lines 318-321)
  // ---------------------------------------------------------------------

  /** d divides n: n is a whole multiple of d. */
  ghost predicate Divides(d: int, n: int)
  {
    exists k: int :: k * d == n
  }

  /** g is a greatest common divisor of a and b: it divides both, and every
      common divisor of a and b divides g. */
  ghost predicate IsGcd(g: int, a: int, b: int)
  {
    Divides(g, a) && Divides(g, b) && forall d :: Divides(d, a) && Divides(d, b) ==> Divides(d, g)
  }

  /** Euclid's algorithm as a recursive definition: the reference the loop
      is proved against. It is positive unless both inputs are 0. */
  function Gcd(a: nat, b: nat): (g: nat)
    ensures a > 0 || b > 0 ==> g > 0
    decreases b
  {
    if b == 0 then a else Gcd(b, a % b)
  }

  /** `gcd(a, b)`: `while b: a, b = b, a % b`, then return `a`. The loop ends
      because b strictly decreases (a % b < b); the result is Euclid's gcd,
      and gcd(a, 0) = a. */
  method ComputeGcd(a: nat, b: nat) returns (g: nat)
    ensures g == Gcd(a, b)
    ensures IsGcd(g, a, b)
    ensures b == 0 ==> g == a
  {
    var x, y := a, b;
    while y != 0
      invariant Gcd(x, y) == Gcd(a, b)
      decreases y
    {
      x, y := y, x % y;
    }
    g := x;
    GcdDivides(a, b);
  }

  /** Multiples of d are closed under x + c * y. */
  lemma DividesCombination(d: int, x: int, y: int, c: int)
    requires Divides(d, x) && Divides(d, y)
    ensures Divides(d, x + c * y)
  {
    var kx :| kx * d == x;
    var ky :| ky * d == y;
    assert (kx + c * ky) * d == x + c * y;
  }

  /** Euclid's step keeps the common divisors: d divides a and b exactly
      when it divides b and a % b. */
  lemma EuclidStep(a: nat, b: nat, d: int)
    requires b > 0
    ensures Divides(d, a) && Divides(d, b) <==> Divides(d, b) && Divides(d, a % b)
  {
    var q, r := a / b, a % b;
    assert a == r + q * b;
    if Divides(d, a) && Divides(d, b) {
      DividesCombination(d, a, b, -q);
      assert a + (-q) * b == r;
    }
    if Divides(d, b) && Divides(d, r) {
      DividesCombination(d, r, b, q);
    }
  }

  /** `Gcd` computes a greatest common divisor (in the divisibility order). */
  lemma {:induction false} GcdDivides(a: nat, b: nat)
    ensures IsGcd(Gcd(a, b), a, b)
    decreases b
  {
    var g := Gcd(a, b);
    if b == 0 {
      assert 1 * a == a && 0 * a == 0;
    } else {
      GcdDivides(b, a % b);
      EuclidStep(a, b, g);
      forall d | Divides(d, a) && Divides(d, b)
        ensures Divides(d, g)
      {
        EuclidStep(a, b, d);
      }
    }
  }

  /** A positive divisor of a positive number is at most that number. */
  lemma DivisorBound(d: int, n: int)
    requires d > 0 && n > 0 && Divides(d, n)
    ensures d <= n
  {
    var k :| k * d == n;
    assert k >= 1;
    assert (k - 1) * d >= 0;
  }

  /** The greatest common divisor is the greatest of the common divisors. */
  lemma GcdIsGreatest(a: nat, b: nat, d: int)
    requires a > 0 || b > 0
    requires d > 0 && Divides(d, a) && Divides(d, b)
    ensures 0 < d <= Gcd(a, b)
  {
    GcdDivides(a, b);
    DivisorBound(d, Gcd(a, b));
  }

  // ---------------------------------------------------------------------
  // The grid of fractions (lines 177-222)
  // ---------------------------------------------------------------------

  /** `grid_origin = LEFT * 4 + UP * 1`, `cell_size = 0.8`, `rows, cols = 6, 6`. */
  const GridOrigin: Point := Point(-4.0, 1.0)
  const CellSize: real := 0.8
  const Rows: nat := 6
  const Cols: nat := 6

  /** Horizontal grid line i: from the origin's column to `cols` cells right,
      i cells down. */
  function HorizontalLine(origin: Point, cellSize: real, cols: nat, i: nat): Line
  {
    Line(Point(origin.x, origin.y - (i as real) * cellSize),
         Point(origin.x + (cols as real) * cellSize, origin.y - (i as real) * cellSize), Gray)
  }

  /** Vertical grid line j: j cells right, from the origin's row to `rows` cells down. */
  function VerticalLine(origin: Point, cellSize: real, rows: nat, j: nat): Line
  {
    Line(Point(origin.x + (j as real) * cellSize, origin.y),
         Point(origin.x + (j as real) * cellSize, origin.y - (rows as real) * cellSize), Gray)
  }

  /** Lines 184-202: rows + 1 horizontal lines, then cols + 1 vertical ones. */
  method GridLines(origin: Point, cellSize: real, rows: nat, cols: nat) returns (gridLines: seq<Line>)
    ensures |gridLines| == (rows + 1) + (cols + 1)
    ensures forall i :: 0 <= i <= rows ==> gridLines[i] == HorizontalLine(origin, cellSize, cols, i)
    ensures forall j :: 0 <= j <= cols ==> gridLines[rows + 1 + j] == VerticalLine(origin, cellSize, rows, j)
  {
    gridLines := [];
    for i := 0 to rows + 1
      invariant |gridLines| == i
      invariant forall k :: 0 <= k < i ==> gridLines[k] == HorizontalLine(origin, cellSize, cols, k)
    {
      var line := Line(origin.Plus(Right.Scaled(0.0)).Plus(Down.Scaled((i as real) * cellSize)),
                       origin.Plus(Right.Scaled((cols as real) * cellSize)).Plus(Down.Scaled((i as real) * cellSize)), Gray);
      gridLines := gridLines + [line];
    }
    for j := 0 to cols + 1
      invariant |gridLines| == rows + 1 + j
      invariant forall k :: 0 <= k <= rows ==> gridLines[k] == HorizontalLine(origin, cellSize, cols, k)
      invariant forall k :: 0 <= k < j ==> gridLines[rows + 1 + k] == VerticalLine(origin, cellSize, rows, k)
    {
      var line := Line(origin.Plus(Right.Scaled((j as real) * cellSize)).Plus(Down.Scaled(0.0)),
                       origin.Plus(Right.Scaled((j as real) * cellSize)).Plus(Down.Scaled((rows as real) * cellSize)), Gray);
      gridLines := gridLines + [line];
    }
  }

  /** The centre of cell (i, j): `grid_origin + RIGHT * (j - 0.5) * cell_size
      + DOWN * (i - 0.5) * cell_size`. */
  function CellCenter(origin: Point, cellSize: real, i: int, j: int): Point
  {
    Point(origin.x + (j as real - 0.5) * cellSize, origin.y - (i as real - 0.5) * cellSize)
  }

  /** Each fraction is drawn strictly inside its own cell: between horizontal
      lines i - 1 and i, and between vertical lines j - 1 and j. */
  lemma CenterInsideCell(origin: Point, cellSize: real, rows: nat, cols: nat, i: nat, j: nat)
    requires cellSize > 0.0 && 1 <= i <= rows && 1 <= j <= cols
    ensures HorizontalLine(origin, cellSize, cols, i).start.y < CellCenter(origin, cellSize, i, j).y
              < HorizontalLine(origin, cellSize, cols, i - 1).start.y
    ensures VerticalLine(origin, cellSize, rows, j - 1).start.x < CellCenter(origin, cellSize, i, j).x
              < VerticalLine(origin, cellSize, rows, j).start.x
  {
  }

  /** Different cells have different centres. */
  lemma CentersDistinct(origin: Point, cellSize: real, i: int, j: int, i': int, j': int)
    requires cellSize > 0.0 && (i, j) != (i', j')
    ensures CellCenter(origin, cellSize, i, j) != CellCenter(origin, cellSize, i', j')
  {
    if i != i' {
      assert (i as real - 0.5) * cellSize != (i' as real - 0.5) * cellSize;
    } else {
      assert (j as real - 0.5) * cellSize != (j' as real - 0.5) * cellSize;
    }
  }

  /** The fraction i/j in lowest terms: no common divisor above 1. */
  ghost predicate LowestTerms(i: int, j: int)
  {
    forall d :: d > 1 ==> !(Divides(d, i) && Divides(d, j))
  }

  /** The colour a cell's text gets (lines 213-218): the diagonal test comes
      first, then `gcd(i, j) == 1`. */
  function CellColor(i: nat, j: nat): Color
  {
    if i == j then Yellow else if Gcd(i, j) == 1 then White else Gray
  }

  /** What the three colours mean: yellow exactly on the diagonal (the
      integers i/i), white exactly off the diagonal in lowest terms, gray
      exactly off the diagonal when i/j can be reduced. */
  lemma CellColorMeaning(i: nat, j: nat)
    ensures CellColor(i, j) == Yellow <==> i == j
    ensures CellColor(i, j) == White <==> i != j && LowestTerms(i, j)
    ensures CellColor(i, j) == Gray <==> i != j && !LowestTerms(i, j)
  {
    var g := Gcd(i, j);
    GcdDivides(i, j);
    if g == 1 {
      forall d | d > 1
        ensures !(Divides(d, i) && Divides(d, j))
      {
        if Divides(d, i) && Divides(d, j) {
          GcdIsGreatest(i, j, d);
        }
      }
    } else if g == 0 {
      assert 0 * 2 == i && 0 * 2 == j;
      assert Divides(2, i) && Divides(2, j);
    } else {
      assert Divides(g, i) && Divides(g, j);
    }
  }

  /** The text `f"{i}/{j}"` and its colour. */
  datatype FractionLabel = FractionLabel(numerator: nat, denominator: nat, color: Color)

  /** An entry of `fraction_positions`: the cell centre and the text drawn there. */
  datatype Cell = Cell(pos: Point, text: FractionLabel)

  /** Key p holds the fraction p.0/p.1 at its cell centre, coloured by its class. */
  ghost predicate PlacedFraction(origin: Point, cellSize: real, p: (int, int), cell: Cell)
  {
    p.0 >= 1 && p.1 >= 1 &&
    cell == Cell(CellCenter(origin, cellSize, p.0, p.1), FractionLabel(p.0, p.1, CellColor(p.0, p.1)))
  }

  /** Lines 205-222: `fraction_positions[(i, j)]` for numerators i and
      denominators j from 1 up, filled row by row. */
  method FractionPositions(origin: Point, cellSize: real, rows: nat, cols: nat)
    returns (fractionPositions: map<(int, int), Cell>)
    ensures fractionPositions.Keys == Rect(1, rows, cols)
    ensures forall p :: p in fractionPositions ==> PlacedFraction(origin, cellSize, p, fractionPositions[p])
  {
    fractionPositions := map[];
    for i := 1 to rows + 1
      invariant fractionPositions.Keys == Rect(1, i - 1, cols)
      invariant forall p :: p in fractionPositions ==> PlacedFraction(origin, cellSize, p, fractionPositions[p])
    {
      for j := 1 to cols + 1
        invariant fractionPositions.Keys == Rect(1, i - 1, cols) + RowCells(i, 1, j - 1)
        invariant forall p :: p in fractionPositions ==> PlacedFraction(origin, cellSize, p, fractionPositions[p])
      {
        var pos := origin.Plus(Right.Scaled((j as real - 0.5) * cellSize)).Plus(Down.Scaled((i as real - 0.5) * cellSize));
        assert pos == CellCenter(origin, cellSize, i, j);
        var fracText;
        if i == j {
          fracText := FractionLabel(i, j, Yellow);
        } else {
          var g := ComputeGcd(i, j);
          if g == 1 {
            fracText := FractionLabel(i, j, White);
          } else {
            fracText := FractionLabel(i, j, Gray);
          }
        }
        RowCellsExtend(i, 1, j - 1);
        fractionPositions := fractionPositions[(i, j) := Cell(pos, fracText)];
      }
      RectSplit(1, i, cols);
    }
  }

  // ---------------------------------------------------------------------
  // The zig-zag enumeration (lines 253-303)
  // ---------------------------------------------------------------------

  /** `path_order = path_order[:20]`. */
  const PathLimit: nat := 20

  /** Cell p lies in the rows-by-cols grid (numerators and denominators from 1). */
  predicate InGrid(p: (int, int), rows: nat, cols: nat)
  {
    1 <= p.0 <= rows && 1 <= p.1 <= cols
  }

  /** The cells (i, d - i) for i = 1, 2, ..., n - 1 whose denominator d - i
      lies in 1..cols, in increasing i: what the inner loop appends to
      `diagonal` when its range ends at n. */
  function Ascending(d: int, cols: nat, n: int): seq<(int, int)>
    decreases n
  {
    if n <= 1 then []
    else Ascending(d, cols, n - 1) + (if 1 <= d - (n - 1) <= cols then [(n - 1, d - (n - 1))] else [])
  }

  /** `list.reverse()`. */
  function Reverse<T>(s: seq<T>): seq<T>
  {
    seq(|s|, k requires 0 <= k < |s| => s[|s| - 1 - k])
  }

  /** Diagonal d as it is appended to the path: the cells with i + j = d,
      i running over `range(1, min(d, rows + 1))`, reversed when d is even. */
  function DiagonalRun(d: int, rows: nat, cols: nat): seq<(int, int)>
  {
    var ascending := Ascending(d, cols, Min(d, rows + 1));
    if d % 2 == 0 then Reverse(ascending) else ascending
  }

  /** The diagonals 2, 3, ..., e one after the other. */
  function ZigZag(rows: nat, cols: nat, e: int): seq<(int, int)>
    decreases e
  {
    if e < 2 then [] else ZigZag(rows, cols, e - 1) + DiagonalRun(e, rows, cols)
  }

  /** The whole traversal before truncation: diagonals 2 .. rows + cols. */
  function FullOrder(rows: nat, cols: nat): seq<(int, int)>
  {
    ZigZag(rows, cols, rows + cols)
  }

  /** Python's slice `s[:n]`, which stops early on a shorter list. */
  function Truncate<T>(s: seq<T>, n: nat): seq<T>
  {
    if |s| <= n then s else s[..n]
  }

  /** The boustrophedon order: by diagonal sum first; within a diagonal,
      numerators increase on odd sums and decrease on even ones. */
  predicate Before(p: (int, int), q: (int, int))
  {
    var d := p.0 + p.1;
    d < q.0 + q.1 || (d == q.0 + q.1 && if d % 2 == 0 then p.0 > q.0 else p.0 < q.0)
  }

  lemma {:induction false} AscendingFacts(d: int, cols: nat, n: int)
    ensures forall k :: 0 <= k < |Ascending(d, cols, n)| ==>
      var p := Ascending(d, cols, n)[k]; 1 <= p.0 < n && 1 <= p.1 <= cols && p.0 + p.1 == d
    ensures forall a, b :: 0 <= a < b < |Ascending(d, cols, n)| ==> Ascending(d, cols, n)[a].0 < Ascending(d, cols, n)[b].0
    ensures forall i, j :: 1 <= i < n && 1 <= j <= cols && i + j == d ==> (i, j) in Ascending(d, cols, n)
    decreases n
  {
    if n > 1 {
      AscendingFacts(d, cols, n - 1);
    }
  }

  lemma ReverseFacts<T>(s: seq<T>)
    ensures |Reverse(s)| == |s|
    ensures forall k :: 0 <= k < |s| ==> Reverse(s)[k] == s[|s| - 1 - k]
    ensures forall x :: x in Reverse(s) <==> x in s
  {
    forall x | x in s
      ensures x in Reverse(s)
    {
      var k :| 0 <= k < |s| && s[k] == x;
      assert Reverse(s)[|s| - 1 - k] == x;
    }
  }

  /** Diagonal d holds exactly the grid cells with i + j = d, ordered by
      increasing numerator when d is odd and decreasing when d is even. */
  lemma DiagonalRunFacts(d: int, rows: nat, cols: nat)
    ensures forall k :: 0 <= k < |DiagonalRun(d, rows, cols)| ==>
      var p := DiagonalRun(d, rows, cols)[k]; InGrid(p, rows, cols) && p.0 + p.1 == d
    ensures forall a, b :: 0 <= a < b < |DiagonalRun(d, rows, cols)| ==>
      if d % 2 == 0 then DiagonalRun(d, rows, cols)[a].0 > DiagonalRun(d, rows, cols)[b].0
      else DiagonalRun(d, rows, cols)[a].0 < DiagonalRun(d, rows, cols)[b].0
    ensures forall i, j :: InGrid((i, j), rows, cols) && i + j == d ==> (i, j) in DiagonalRun(d, rows, cols)
  {
    var ascending := Ascending(d, cols, Min(d, rows + 1));
    AscendingFacts(d, cols, Min(d, rows + 1));
    ReverseFacts(ascending);
  }

  /** Diagonals 2..e list grid cells only, each with sum at most e, in
      strictly increasing boustrophedon order. */
  lemma {:induction false} ZigZagSorted(rows: nat, cols: nat, e: int)
    ensures forall k :: 0 <= k < |ZigZag(rows, cols, e)| ==>
      InGrid(ZigZag(rows, cols, e)[k], rows, cols) && ZigZag(rows, cols, e)[k].0 + ZigZag(rows, cols, e)[k].1 <= e
    ensures forall a, b :: 0 <= a < b < |ZigZag(rows, cols, e)| ==> Before(ZigZag(rows, cols, e)[a], ZigZag(rows, cols, e)[b])
    decreases e
  {
    if e >= 2 {
      var prev, run := ZigZag(rows, cols, e - 1), DiagonalRun(e, rows, cols);
      ZigZagSorted(rows, cols, e - 1);
      DiagonalRunFacts(e, rows, cols);
      var z := prev + run;
      assert z == ZigZag(rows, cols, e);
      forall a, b | 0 <= a < b < |z|
        ensures Before(z[a], z[b])
      {
        if b < |prev| {
          assert Before(prev[a], prev[b]);
        } else if a < |prev| {
          assert z[a].0 + z[a].1 <= e - 1 && z[b].0 + z[b].1 == e;
        } else {
          assert z[a] == run[a - |prev|] && z[b] == run[b - |prev|];
        }
      }
    }
  }

  /** Diagonals 2..e reach every grid cell whose sum is at most e. */
  lemma {:induction false} ZigZagCovers(rows: nat, cols: nat, e: int)
    ensures forall i, j :: InGrid((i, j), rows, cols) && i + j <= e ==> (i, j) in ZigZag(rows, cols, e)
    decreases e
  {
    if e >= 2 {
      var prev, run := ZigZag(rows, cols, e - 1), DiagonalRun(e, rows, cols);
      ZigZagCovers(rows, cols, e - 1);
      DiagonalRunFacts(e, rows, cols);
      assert ZigZag(rows, cols, e) == prev + run;
      forall i, j | InGrid((i, j), rows, cols) && i + j <= e
        ensures (i, j) in prev + run
      {
        if i + j < e {
          assert (i, j) in prev;
        } else {
          assert (i, j) in run;
        }
      }
    }
  }

  /** The full traversal has no repetitions and stays inside the grid. */
  lemma FullOrderDistinct(rows: nat, cols: nat)
    ensures Distinct(FullOrder(rows, cols))
    ensures forall k :: 0 <= k < |FullOrder(rows, cols)| ==> InGrid(FullOrder(rows, cols)[k], rows, cols)
  {
    var f := FullOrder(rows, cols);
    ZigZagSorted(rows, cols, rows + cols);
    forall a, b | 0 <= a < b < |f|
      ensures f[a] != f[b]
    {
      assert Before(f[a], f[b]);
    }
  }

  /** Every cell of the grid occurs in the full traversal. */
  lemma GridInFullOrder(rows: nat, cols: nat)
    ensures forall p :: p in Rect(1, rows, cols) ==> p in FullOrder(rows, cols)
  {
    ZigZagCovers(rows, cols, rows + cols);
    forall p | p in Rect(1, rows, cols)
      ensures p in FullOrder(rows, cols)
    {
      RectMember(1, rows, cols, p.0, p.1);
    }
  }

  /** Every entry of the full traversal is a cell of the grid. */
  lemma FullOrderInGrid(rows: nat, cols: nat)
    ensures forall p :: p in FullOrder(rows, cols) ==> p in Rect(1, rows, cols)
  {
    var f := FullOrder(rows, cols);
    FullOrderDistinct(rows, cols);
    forall p | p in f
      ensures p in Rect(1, rows, cols)
    {
      var k :| 0 <= k < |f| && f[k] == p;
      assert InGrid(f[k], rows, cols);
      RectMember(1, rows, cols, p.0, p.1);
    }
  }

  /** The full traversal visits exactly the grid's cells. */
  lemma FullOrderCells(rows: nat, cols: nat)
    ensures (set p | p in FullOrder(rows, cols)) == Rect(1, rows, cols)
  {
    GridInFullOrder(rows, cols);
    FullOrderInGrid(rows, cols);
  }

  /** Before truncation, `path_order` lists every cell of the grid exactly
      once: its entries are distinct, they are exactly the grid's cells, and
      there are rows * cols of them. */
  lemma FullOrderFacts(rows: nat, cols: nat)
    ensures Distinct(FullOrder(rows, cols))
    ensures (set p | p in FullOrder(rows, cols)) == Rect(1, rows, cols)
    ensures |FullOrder(rows, cols)| == rows * cols
    ensures forall k :: 0 <= k < |FullOrder(rows, cols)| ==> InGrid(FullOrder(rows, cols)[k], rows, cols)
  {
    FullOrderDistinct(rows, cols);
    FullOrderCells(rows, cols);
    DistinctSize(FullOrder(rows, cols));
    RectSize(1, rows, cols);
  }

  /** Later diagonals only extend the walk: diagonals 2..e1 are a prefix of
      diagonals 2..e2. */
  lemma {:induction false} ZigZagPrefix(rows: nat, cols: nat, e1: int, e2: int)
    requires e1 <= e2
    ensures |ZigZag(rows, cols, e1)| <= |ZigZag(rows, cols, e2)|
    ensures ZigZag(rows, cols, e2)[..|ZigZag(rows, cols, e1)|] == ZigZag(rows, cols, e1)
    decreases e2 - e1
  {
    if e1 < e2 {
      ZigZagPrefix(rows, cols, e1, e2 - 1);
      if e2 >= 2 {
        var prev := ZigZag(rows, cols, e2 - 1);
        assert ZigZag(rows, cols, e2) == prev + DiagonalRun(e2, rows, cols);
        assert ZigZag(rows, cols, e2)[..|prev|] == prev;
      }
    }
  }

  /** The walk on the 6-by-6 grid starts 1/1, 1/2, 2/1, 3/1, 2/2, 1/3: down
      the odd diagonal 3, back up the even diagonal 4. */
  lemma ZigZagStart()
    ensures |ZigZag(Rows, Cols, 4)| == 6
    ensures ZigZag(Rows, Cols, 4) == [(1, 1), (1, 2), (2, 1), (3, 1), (2, 2), (1, 3)]
  {
    assert DiagonalRun(2, Rows, Cols) == [(1, 1)];
    assert DiagonalRun(3, Rows, Cols) == [(1, 2), (2, 1)];
    assert Ascending(4, Cols, 4) == [(1, 3), (2, 2), (3, 1)];
  }

  /** Cutting a list at n keeps any prefix no longer than n. */
  lemma TruncatePrefix<T>(s: seq<T>, n: nat, m: nat)
    requires m <= n && m <= |s|
    ensures m <= |Truncate(s, n)| && Truncate(s, n)[..m] == s[..m]
  {
  }

  /** The full 6-by-6 traversal begins with the first three diagonals. */
  lemma FullOrderStart()
    ensures 6 <= |FullOrder(Rows, Cols)|
    ensures FullOrder(Rows, Cols)[..6] == [(1, 1), (1, 2), (2, 1), (3, 1), (2, 2), (1, 3)]
  {
    ZigZagStart();
    ZigZagPrefix(Rows, Cols, 4, Rows + Cols);
  }

  /** The 20 cells the scene walks begin with the first three diagonals. */
  lemma PathStart()
    ensures 6 <= |Truncate(FullOrder(Rows, Cols), PathLimit)|
    ensures Truncate(FullOrder(Rows, Cols), PathLimit)[..6] == [(1, 1), (1, 2), (2, 1), (3, 1), (2, 2), (1, 3)]
  {
    FullOrderStart();
    TruncatePrefix(FullOrder(Rows, Cols), PathLimit, 6);
  }

  /** Lines 255-272: the diagonals for d = 2 .. rows + cols, each built in
      increasing i, reversed when d is even, appended to `path_order`, which
      is then cut to its first 20 entries. The result is exactly the first
      min(rows * cols, 20) cells of the full traversal. */
  method ZigZagOrder(rows: nat, cols: nat) returns (pathOrder: seq<(int, int)>)
    ensures pathOrder == Truncate(FullOrder(rows, cols), PathLimit)
    ensures |pathOrder| == Min(rows * cols, PathLimit)
    ensures pathOrder == FullOrder(rows, cols)[..Min(rows * cols, PathLimit)]
  {
    pathOrder := [];
    var d := 2;
    while d <= rows + cols
      invariant 2 <= d && (d <= rows + cols + 1 || d == 2)
      invariant pathOrder == ZigZag(rows, cols, d - 1)
    {
      var diagonal := [];
      for i := 1 to Min(d, rows + 1)
        invariant diagonal == Ascending(d, cols, i)
      {
        var j := d - i;
        if 1 <= j <= cols {
          diagonal := diagonal + [(i, j)];
        }
      }
      if d % 2 == 0 {
        diagonal := Reverse(diagonal);
      }
      pathOrder := pathOrder + diagonal;
      d := d + 1;
    }
    if rows + cols == 0 {
      assert ZigZag(rows, cols, 1) == [] == ZigZag(rows, cols, 0);
    }
    assert pathOrder == FullOrder(rows, cols);
    FullOrderFacts(rows, cols);
    pathOrder := Truncate(pathOrder, PathLimit);
  }

  /** The text `f"{natural_counter} ↔ {num}/{den}"` and where it is centred. */
  datatype Enumerated = Enumerated(counter: nat, fraction: (int, int), center: Point)

  /** Where label n goes: `RIGHT * 3 + UP * (2 - n * 0.3)`. */
  function EnumPosition(n: nat): Point
  {
    Point(3.0, 2.0 - (n as real) * 0.3)
  }

  /** Lines 278-303: walking `path_order`, entry k gets the number k + 1
      (`natural_counter` starts at 1 and goes up by one per entry), a label
      in the enumeration column, and, from the second entry on, a green line
      from the previous cell's centre to its own. */
  method Enumerate(pathOrder: seq<(int, int)>, fractionPositions: map<(int, int), Cell>)
    returns (enumerationText: seq<Enumerated>, pathLines: seq<Line>, naturalCounter: nat)
    requires forall k :: 0 <= k < |pathOrder| ==> pathOrder[k] in fractionPositions
    ensures naturalCounter == |pathOrder| + 1
    ensures |enumerationText| == |pathOrder|
    ensures forall k :: 0 <= k < |pathOrder| ==>
      enumerationText[k] == Enumerated(k + 1, pathOrder[k], EnumPosition(k + 1))
    ensures |pathLines| == if pathOrder == [] then 0 else |pathOrder| - 1
    ensures forall k {:trigger pathLines[k]} :: 0 <= k < |pathLines| ==>
      pathLines[k] == Line(fractionPositions[pathOrder[k]].pos, fractionPositions[pathOrder[k + 1]].pos, Green)
  {
    enumerationText, pathLines := [], [];
    naturalCounter := 1;
    var prevPos: Option<Point> := None;
    for i := 0 to |pathOrder|
      invariant naturalCounter == i + 1
      invariant |enumerationText| == i
      invariant forall k :: 0 <= k < i ==> enumerationText[k] == Enumerated(k + 1, pathOrder[k], EnumPosition(k + 1))
      invariant prevPos == if i == 0 then None else Some(fractionPositions[pathOrder[i - 1]].pos)
      invariant |pathLines| == if i == 0 then 0 else i - 1
      invariant forall k {:trigger pathLines[k]} :: 0 <= k < |pathLines| ==>
        pathLines[k] == Line(fractionPositions[pathOrder[k]].pos, fractionPositions[pathOrder[k + 1]].pos, Green)
    {
      var (num, den) := pathOrder[i];
      var pos := fractionPositions[(num, den)].pos;
      var enumPos := Right.Scaled(3.0).Plus(Up.Scaled(2.0 - (naturalCounter as real) * 0.3));
      enumerationText := enumerationText + [Enumerated(naturalCounter, (num, den), enumPos)];
      if prevPos.Some? {
        pathLines := pathLines + [Line(prevPos.value, pos, Green)];
      }
      prevPos := Some(pos);
      naturalCounter := naturalCounter + 1;
    }
  }

  /** The enumeration column never puts two labels at the same height, and
      the path lines join up: each starts where the previous one ended. */
  lemma EnumerationLayout(pathOrder: seq<(int, int)>, fractionPositions: map<(int, int), Cell>,
                          enumerationText: seq<Enumerated>, pathLines: seq<Line>)
    requires forall k :: 0 <= k < |pathOrder| ==> pathOrder[k] in fractionPositions
    requires |enumerationText| == |pathOrder|
    requires forall k :: 0 <= k < |pathOrder| ==>
      enumerationText[k] == Enumerated(k + 1, pathOrder[k], EnumPosition(k + 1))
    requires |pathLines| == if pathOrder == [] then 0 else |pathOrder| - 1
    requires forall k {:trigger pathLines[k]} :: 0 <= k < |pathLines| ==>
      pathLines[k] == Line(fractionPositions[pathOrder[k]].pos, fractionPositions[pathOrder[k + 1]].pos, Green)
    ensures forall a, b :: 0 <= a < b < |enumerationText| ==> enumerationText[a].center.y > enumerationText[b].center.y
    ensures forall k :: 0 < k < |pathLines| ==> pathLines[k].start == pathLines[k - 1].end
  {
    forall a, b | 0 <= a < b < |enumerationText|
      ensures enumerationText[a].center.y > enumerationText[b].center.y
    {
      assert (a + 1) as real * 0.3 < (b + 1) as real * 0.3;
    }
    forall k | 0 < k < |pathLines|
      ensures pathLines[k].start == pathLines[k - 1].end
    {
      assert pathLines[k - 1].end == fractionPositions[pathOrder[k]].pos;
      assert pathLines[k].start == fractionPositions[pathOrder[k]].pos;
    }
  }

  // ---------------------------------------------------------------------
  // The interval filter (lines 149-161)
  // ---------------------------------------------------------------------

  /** A fraction to place on the number line: its value and its text. */
  datatype FractionDatum = FractionDatum(value: real, text: string)

  /** `fractions_data_2`. */
  const FractionsData2: seq<FractionDatum> :=
    [FractionDatum(3.0 / 2.0, "3/2"), FractionDatum(5.0 / 4.0, "5/4"), FractionDatum(9.0 / 8.0, "9/8")]

  /** `1 <= frac_val <= 2`. */
  predicate InInterval(v: real)
  {
    1.0 <= v <= 2.0
  }

  /** The data that pass the test, in their original order. */
  function KeepInInterval(data: seq<FractionDatum>): seq<FractionDatum>
  {
    if data == [] then []
    else KeepInInterval(data[..|data| - 1]) + (if InInterval(data[|data| - 1].value) then [data[|data| - 1]] else [])
  }

  /** Lines 155-161: a dot and a label for each datum in [1, 2], in order;
      the data outside the interval get nothing. */
  method FilterInterval(data: seq<FractionDatum>) returns (kept: seq<FractionDatum>)
    ensures kept == KeepInInterval(data)
  {
    kept := [];
    for k := 0 to |data|
      invariant kept == KeepInInterval(data[..k])
    {
      assert data[..k + 1][..k] == data[..k];
      if 1.0 <= data[k].value <= 2.0 {
        kept := kept + [data[k]];
      }
    }
    assert data[..|data|] == data;
  }

  /** The filter keeps exactly the data whose value lies in [1, 2] and never
      adds anything. */
  lemma {:induction false} KeepInIntervalMeaning(data: seq<FractionDatum>)
    ensures forall x :: x in KeepInInterval(data) <==> x in data && InInterval(x.value)
    ensures |KeepInInterval(data)| <= |data|
  {
    if data != [] {
      var init, last := data[..|data| - 1], data[|data| - 1];
      KeepInIntervalMeaning(init);
      assert data == init + [last];
      forall x
        ensures x in KeepInInterval(data) <==> x in data && InInterval(x.value)
      {
        assert x in data <==> x in init || x == last;
      }
    }
  }

  /** When every value is in range, the filter keeps everything, in order. */
  lemma {:induction false} KeepAllInRange(data: seq<FractionDatum>)
    requires forall k :: 0 <= k < |data| ==> InInterval(data[k].value)
    ensures KeepInInterval(data) == data
  {
    if data != [] {
      var init := data[..|data| - 1];
      KeepAllInRange(init);
      assert data == init + [data[|data| - 1]];
    }
  }

  /** All three of 3/2, 5/4 and 9/8 lie in [1, 2], so all three are shown. */
  lemma SecondIntervalKeepsAll()
    ensures KeepInInterval(FractionsData2) == FractionsData2
  {
    KeepAllInRange(FractionsData2);
  }

  // ---------------------------------------------------------------------
  // The bijection scene with its constants (lines 174-251)
  // ---------------------------------------------------------------------

  /** Lines 174-303 for any grid size: rows + cols + 2 grid lines; one
      fraction per cell, at its centre; a path of the first min(rows * cols, 20)
      cells of the zig-zag, all different, numbered from 1 in order and
      joined by lines. */
  method CantorBijection(origin: Point, cellSize: real, rows: nat, cols: nat)
    returns (gridLines: seq<Line>, fractionPositions: map<(int, int), Cell>, pathOrder: seq<(int, int)>,
             enumerationText: seq<Enumerated>, pathLines: seq<Line>)
    ensures |gridLines| == rows + cols + 2
    ensures fractionPositions.Keys == Rect(1, rows, cols) && |fractionPositions| == rows * cols
    ensures forall p :: p in fractionPositions ==> PlacedFraction(origin, cellSize, p, fractionPositions[p])
    ensures pathOrder == Truncate(FullOrder(rows, cols), PathLimit) && Distinct(pathOrder)
    ensures |pathOrder| == Min(rows * cols, PathLimit)
    ensures forall k :: 0 <= k < |pathOrder| ==> pathOrder[k] in fractionPositions
    ensures |enumerationText| == |pathOrder| && forall k :: 0 <= k < |pathOrder| ==> enumerationText[k].counter == k + 1
    ensures |pathLines| == if pathOrder == [] then 0 else |pathOrder| - 1
  {
    gridLines := GridLines(origin, cellSize, rows, cols);
    fractionPositions := FractionPositions(origin, cellSize, rows, cols);
    RectSize(1, rows, cols);
    pathOrder := ZigZagOrder(rows, cols);
    FullOrderFacts(rows, cols);
    var full := FullOrder(rows, cols);
    forall k | 0 <= k < |pathOrder|
      ensures pathOrder[k] in fractionPositions
    {
      assert pathOrder[k] == full[k];
      RectMember(1, rows, cols, pathOrder[k].0, pathOrder[k].1);
    }
    assert Distinct(pathOrder) by {
      forall a, b | 0 <= a < b < |pathOrder|
        ensures pathOrder[a] != pathOrder[b]
      {
        assert pathOrder[a] == full[a] && pathOrder[b] == full[b];
      }
    }
    var naturalCounter;
    enumerationText, pathLines, naturalCounter := Enumerate(pathOrder, fractionPositions);
  }

  /** The scene's own 6-by-6 grid: 14 grid lines, 36 fractions, and a path
      of 20 different cells numbered 1 to 20 and joined by 19 lines. */
  method ShowCantorBijection()
    returns (gridLines: seq<Line>, fractionPositions: map<(int, int), Cell>, pathOrder: seq<(int, int)>,
             enumerationText: seq<Enumerated>, pathLines: seq<Line>)
    ensures |gridLines| == 14 && |fractionPositions| == 36
    ensures |pathOrder| == 20 && Distinct(pathOrder)
    ensures |enumerationText| == 20 && forall k :: 0 <= k < 20 ==> enumerationText[k].counter == k + 1
    ensures |pathLines| == 19
    ensures pathOrder[..6] == [(1, 1), (1, 2), (2, 1), (3, 1), (2, 2), (1, 3)]
  {
    gridLines, fractionPositions, pathOrder, enumerationText, pathLines := CantorBijection(GridOrigin, CellSize, Rows, Cols);
    PathStart();
  }
}
