/** Diagonal/cantor_diagonal.py: Cantor's diagonal argument on a table of
    binary sequences. Row i lists the first digits of the i-th sequence;
    the scene reads the diagonal, flips every bit and marks where the new
    sequence differs from each row. */
module CantorDiagonal {
  import opened Geometry
  import opened Decimal
  import opened Counting
  import opened Basics

  /** `num_rows` and `num_cols`. */
  const NumRows: nat := 10
  const NumCols: nat := 10

  /** Text on screen: its characters and the point it is centred on. */
  datatype Label = Label(text: string, center: Point)

  /** A square of side 0.3 centred on `center`, stroked and filled in `color`. */
  datatype Square = Square(center: Point, color: Color)

  /** `random.choice([0, 1])`, given which of the two entries the draw picked. */
  function Choice(pickedSecond: bool): int
  {
    [0, 1][if pickedSecond then 1 else 0]
  }

  /** A rows-by-cols table whose entries are all 0 or 1. */
  ghost predicate IsBinaryMatrix(m: seq<seq<int>>, rows: nat, cols: nat)
  {
    && |m| == rows
    && (forall i :: 0 <= i < rows ==> |m[i]| == cols)
    && (forall i, j :: 0 <= i < rows && 0 <= j < cols ==> m[i][j] == 0 || m[i][j] == 1)
  }

  /** Every digit is 0 or 1. */
  ghost predicate AllBinary(digits: seq<int>)
  {
    forall k :: 0 <= k < |digits| ==> digits[k] == 0 || digits[k] == 1
  }

  /** A table with `rows` rows of `cols` entries each. */
  ghost predicate HasShape(m: seq<seq<int>>, rows: nat, cols: nat)
  {
    |m| == rows && forall i :: 0 <= i < rows ==> |m[i]| == cols
  }

  /** The table of lines 13-16. `picks(i, j)` is the outcome of the j-th
      `random.choice` made while building row i; the seeded generator
      itself is not modelled. */
  method BinaryStrings(rows: nat, cols: nat, picks: (nat, nat) -> bool) returns (binaryStrings: seq<seq<int>>)
    ensures IsBinaryMatrix(binaryStrings, rows, cols)
    ensures forall i, j :: 0 <= i < rows && 0 <= j < cols ==> binaryStrings[i][j] == Choice(picks(i, j))
  {
    binaryStrings := [];
    for i := 0 to rows
      invariant |binaryStrings| == i
      invariant forall k :: 0 <= k < i ==> |binaryStrings[k]| == cols
      invariant forall k, j :: 0 <= k < i && 0 <= j < cols ==> binaryStrings[k][j] == Choice(picks(k, j))
    {
      var row := seq(cols, j requires 0 <= j < cols => Choice(picks(i, j)));
      binaryStrings := binaryStrings + [row];
    }
  }

  /** The natural-number column: label i reads i + 1 and sits at
      LEFT * 4 + UP * (2 - 0.5 i). */
  method NaturalNumbers(rows: nat) returns (natNumbers: seq<Label>)
    ensures |natNumbers| == rows
    ensures forall i :: 0 <= i < rows ==>
      natNumbers[i].text == NatToString(i + 1) && natNumbers[i].center == Point(-4.0, 2.0 - 0.5 * (i as real))
  {
    natNumbers := [];
    for i := 0 to rows
      invariant |natNumbers| == i
      invariant forall k :: 0 <= k < i ==>
        natNumbers[k].text == NatToString(k + 1) && natNumbers[k].center == Point(-4.0, 2.0 - 0.5 * (k as real))
    {
      var numText := Label(NatToString(i + 1), Left.Scaled(4.0).Plus(Up.Scaled(2.0 - (i as real) * 0.5)));
      natNumbers := natNumbers + [numText];
    }
  }

  /** Entry (p.0, p.1) of the table drawn as `str(digit)` centred at
      LEFT * 2.5 + RIGHT * 0.4 j + UP * (2 - 0.5 i). */
  ghost predicate PlacedDigit(m: seq<seq<int>>, p: (int, int), digit: Label)
  {
    && 0 <= p.0 < |m| && 0 <= p.1 < |m[p.0]|
    && digit.text == IntToString(m[p.0][p.1])
    && digit.center == Point(-2.5 + 0.4 * (p.1 as real), 2.0 - 0.5 * (p.0 as real))
  }

  /** `digit_objects`: one text object per table entry, keyed by (row, column). */
  method DigitObjects(binaryStrings: seq<seq<int>>, rows: nat, cols: nat) returns (digitObjects: map<(int, int), Label>)
    requires HasShape(binaryStrings, rows, cols)
    ensures digitObjects.Keys == Rect(0, rows, cols)
    ensures forall p :: p in digitObjects ==> PlacedDigit(binaryStrings, p, digitObjects[p])
  {
    digitObjects := map[];
    for i := 0 to rows
      invariant digitObjects.Keys == Rect(0, i, cols)
      invariant forall p :: p in digitObjects ==> PlacedDigit(binaryStrings, p, digitObjects[p])
    {
      for j := 0 to cols
        invariant digitObjects.Keys == Rect(0, i, cols) + RowCells(i, 0, j)
        invariant forall p :: p in digitObjects ==> PlacedDigit(binaryStrings, p, digitObjects[p])
      {
        var center := Left.Scaled(2.5).Plus(Right.Scaled((j as real) * 0.4)).Plus(Up.Scaled(2.0 - (i as real) * 0.5));
        assert center == Point(-2.5 + 0.4 * (j as real), 2.0 - 0.5 * (i as real));
        var digit := Label(IntToString(binaryStrings[i][j]), center);
        assert PlacedDigit(binaryStrings, (i, j), digit);
        RowCellsExtend(i, 0, j);
        digitObjects := digitObjects[(i, j) := digit];
      }
      RectSplit(0, i + 1, cols);
    }
  }

  /** The diagonal of the table's leading n-by-n square. */
  function Diagonal(m: seq<seq<int>>, n: nat): (d: seq<int>)
    requires |m| >= n && forall i :: 0 <= i < n ==> |m[i]| > i
  {
    seq(n, i requires 0 <= i < n => m[i][i])
  }

  /** The diagonal of a binary table is binary. */
  lemma DiagonalBinary(m: seq<seq<int>>, rows: nat, cols: nat)
    requires IsBinaryMatrix(m, rows, cols)
    ensures AllBinary(Diagonal(m, Min(rows, cols)))
  {
  }

  /** Lines 59-69: a red square around every diagonal entry (i, i) for
      i < min(rows, cols), and the diagonal's digits in order. */
  method DiagonalDigits(binaryStrings: seq<seq<int>>, digitObjects: map<(int, int), Label>, rows: nat, cols: nat)
    returns (diagonalSquares: seq<Square>, diagonalDigits: seq<int>)
    requires HasShape(binaryStrings, rows, cols)
    requires forall i :: 0 <= i < Min(rows, cols) ==> (i, i) in digitObjects
    ensures |diagonalSquares| == Min(rows, cols)
    ensures diagonalDigits == Diagonal(binaryStrings, Min(rows, cols))
    ensures forall i :: 0 <= i < Min(rows, cols) ==> diagonalSquares[i] == Square(digitObjects[(i, i)].center, Red)
  {
    diagonalSquares, diagonalDigits := [], [];
    var n := Min(rows, cols);
    for i := 0 to n
      invariant |diagonalSquares| == i && |diagonalDigits| == i
      invariant forall k :: 0 <= k < i ==> diagonalSquares[k] == Square(digitObjects[(k, k)].center, Red)
      invariant forall k :: 0 <= k < i ==> diagonalDigits[k] == binaryStrings[k][k]
    {
      var square := Square(digitObjects[(i, i)].center, Red);
      diagonalSquares := diagonalSquares + [square];
      diagonalDigits := diagonalDigits + [binaryStrings[i][i]];
    }
  }

  /** The first n digits joined as `str` would print them, without separators. */
  function DigitsText(digits: seq<int>, n: nat): string
    requires n <= |digits|
  {
    if n == 0 then "" else DigitsText(digits, n - 1) + IntToString(digits[n - 1])
  }

  /** The character a binary digit prints as. */
  function BitChar(d: int): char
  {
    if d == 0 then '0' else '1'
  }

  /** Lines 76-79 and 91-94: the text starts as `prefix`, gets `str(digit)`
      appended for every digit in order, then "...". */
  method DisplayText(prefix: string, digits: seq<int>) returns (text: string)
    ensures text == prefix + DigitsText(digits, |digits|) + "..."
  {
    text := prefix;
    for k := 0 to |digits|
      invariant text == prefix + DigitsText(digits, k)
    {
      var piece := IntToString(digits[k]);
      DisplayStep(prefix, digits, k, text, piece);
      text := text + piece;
    }
    text := text + "...";
  }

  lemma DisplayStep(prefix: string, digits: seq<int>, k: nat, text: string, piece: string)
    requires k < |digits| && text == prefix + DigitsText(digits, k) && piece == IntToString(digits[k])
    ensures text + piece == prefix + DigitsText(digits, k + 1)
  {
    ConcatAssoc(prefix, DigitsText(digits, k), piece);
  }

  /** For binary digits, the joined text has one character per digit, in order. */
  lemma {:induction false} BinaryDigitsText(digits: seq<int>, n: nat)
    requires n <= |digits|
    requires AllBinary(digits)
    ensures |DigitsText(digits, n)| == n
    ensures forall k :: 0 <= k < n ==> DigitsText(digits, n)[k] == BitChar(digits[k])
  {
    if n > 0 {
      BinaryDigitsText(digits, n - 1);
      var last := digits[n - 1];
      assert IntToString(last) == [BitChar(last)];
    }
  }

  /** Where the parts of `prefix + body + "..."` land. */
  lemma DisplayLayout(prefix: string, body: string, text: string)
    requires text == prefix + body + "..."
    ensures |text| == |prefix| + |body| + 3
    ensures text[..|prefix|] == prefix && text[|prefix| + |body|..] == "..."
    ensures forall k :: 0 <= k < |body| ==> text[|prefix| + k] == body[k]
  {
  }

  /** So a display of binary digits reads: the prefix, one character per
      digit in index order, and "...". */
  lemma BinaryDisplay(prefix: string, digits: seq<int>, text: string)
    requires AllBinary(digits)
    requires text == prefix + DigitsText(digits, |digits|) + "..."
    ensures |text| == |prefix| + |digits| + 3
    ensures text[..|prefix|] == prefix && text[|prefix| + |digits|..] == "..."
    ensures forall k :: 0 <= k < |digits| ==> text[|prefix| + k] == BitChar(digits[k])
  {
    BinaryDigitsText(digits, |digits|);
    DisplayLayout(prefix, DigitsText(digits, |digits|), text);
  }

  /** Flipping every bit, `1 - digit`. */
  function Flip(digits: seq<int>): seq<int>
  {
    seq(|digits|, i requires 0 <= i < |digits| => 1 - digits[i])
  }

  /** Lines 87-89: `new_digits` gets `1 - digit` for each diagonal digit, in order. */
  method FlipDigits(diagonalDigits: seq<int>) returns (newDigits: seq<int>)
    ensures newDigits == Flip(diagonalDigits)
  {
    newDigits := [];
    for k := 0 to |diagonalDigits|
      invariant newDigits == Flip(diagonalDigits[..k])
    {
      newDigits := newDigits + [1 - diagonalDigits[k]];
    }
    assert diagonalDigits[..|diagonalDigits|] == diagonalDigits;
  }

  /** Flipping changes every digit, keeps binary digits binary, and
      flipping twice gives back the original digits. */
  lemma FlipProperties(digits: seq<int>)
    ensures |Flip(digits)| == |digits|
    ensures forall i :: 0 <= i < |digits| ==> Flip(digits)[i] != digits[i]
    ensures AllBinary(digits) ==> AllBinary(Flip(digits))
    ensures Flip(Flip(digits)) == digits
  {
  }

  /** Cantor's diagonal argument: the flipped diagonal differs from row i at
      column i, so it equals none of the table's first n rows (cut to n
      digits); on a square table it equals no row at all. */
  lemma DiagonalArgument(m: seq<seq<int>>, n: nat)
    requires |m| >= n && forall i :: 0 <= i < n ==> |m[i]| >= n
    ensures forall i :: 0 <= i < n ==> Flip(Diagonal(m, n))[i] != m[i][i]
    ensures forall i :: 0 <= i < n ==> Flip(Diagonal(m, n)) != m[i][..n]
    ensures HasShape(m, n, n) ==> forall i :: 0 <= i < n ==> Flip(Diagonal(m, n)) != m[i]
  {
    var d := Flip(Diagonal(m, n));
    forall i | 0 <= i < n
      ensures d != m[i][..n]
    {
      assert d[i] != m[i][..n][i];
    }
  }

  /** The squares the scene draws where the new digit differs from the
      diagonal entry, in index order, over the first n indices. */
  function DifferenceSquares(newDigits: seq<int>, m: seq<seq<int>>, digitObjects: map<(int, int), Label>, n: nat): seq<Square>
    requires |newDigits| >= n && |m| >= n && forall i :: 0 <= i < n ==> |m[i]| > i && (i, i) in digitObjects
  {
    if n == 0 then []
    else
      var i := n - 1;
      DifferenceSquares(newDigits, m, digitObjects, i) +
      (if newDigits[i] != m[i][i] then [Square(digitObjects[(i, i)].center, Blue)] else [])
  }

  /** Lines 101-108: a blue square on diagonal entry (i, i) whenever
      `new_digits[i] != binary_strings[i][i]`. */
  method MarkDifferences(newDigits: seq<int>, binaryStrings: seq<seq<int>>, digitObjects: map<(int, int), Label>, rows: nat, cols: nat)
    returns (differenceSquares: seq<Square>)
    requires HasShape(binaryStrings, rows, cols) && |newDigits| >= Min(rows, cols)
    requires forall i :: 0 <= i < Min(rows, cols) ==> (i, i) in digitObjects
    ensures differenceSquares == DifferenceSquares(newDigits, binaryStrings, digitObjects, Min(rows, cols))
  {
    differenceSquares := [];
    for i := 0 to Min(rows, cols)
      invariant differenceSquares == DifferenceSquares(newDigits, binaryStrings, digitObjects, i)
    {
      if newDigits[i] != binaryStrings[i][i] {
        var square := Square(digitObjects[(i, i)].center, Blue);
        differenceSquares := differenceSquares + [square];
      }
    }
  }

  /** When every new digit differs from its diagonal entry, a square is
      drawn on every diagonal entry: exactly n squares, in order. */
  lemma {:induction false} AllDiagonalMarked(newDigits: seq<int>, m: seq<seq<int>>, digitObjects: map<(int, int), Label>, n: nat)
    requires |newDigits| >= n && |m| >= n && forall i :: 0 <= i < n ==> |m[i]| > i && (i, i) in digitObjects
    requires forall i :: 0 <= i < n ==> newDigits[i] != m[i][i]
    ensures |DifferenceSquares(newDigits, m, digitObjects, n)| == n
    ensures forall i :: 0 <= i < n ==> DifferenceSquares(newDigits, m, digitObjects, n)[i] == Square(digitObjects[(i, i)].center, Blue)
  {
    if n > 0 {
      AllDiagonalMarked(newDigits, m, digitObjects, n - 1);
    }
  }

  /** What one comparison step shows: a yellow box shifted right of the new
      number's centre by `boxShift`, and a yellow square on a diagonal entry. */
  datatype Comparison = Comparison(boxShift: real, highlight: Square)

  /** Lines 115-144: for i < min(len(new_digits), num_rows) the scene shows a
      yellow box under the i-th new digit and a yellow square on diagonal
      entry (i, i), then fades both out. The calls that would add them to
      `yellow_highlights` and `diagonal_highlights` are commented out, so
      both groups stay empty. */
  method CompareDigits(newDigits: seq<int>, rows: nat, digitObjects: map<(int, int), Label>)
    returns (shown: seq<Comparison>, yellowHighlights: seq<real>, diagonalHighlights: seq<Square>)
    requires forall i :: 0 <= i < Min(|newDigits|, rows) ==> (i, i) in digitObjects
    ensures yellowHighlights == [] && diagonalHighlights == []
    ensures |shown| == Min(|newDigits|, rows)
    ensures forall i :: 0 <= i < |shown| ==>
      shown[i].boxShift == 0.21 * (i as real) + 0.13 && shown[i].highlight == Square(digitObjects[(i, i)].center, Yellow)
  {
    shown, yellowHighlights, diagonalHighlights := [], [], [];
    for i := 0 to Min(|newDigits|, rows)
      invariant |shown| == i && yellowHighlights == [] && diagonalHighlights == []
      invariant forall k :: 0 <= k < i ==>
        shown[k].boxShift == 0.21 * (k as real) + 0.13 && shown[k].highlight == Square(digitObjects[(k, k)].center, Yellow)
    {
      var yellowBox := (i as real) * 0.21 + 0.13;
      var diagonalHighlight := Square(digitObjects[(i, i)].center, Yellow);
      shown := shown + [Comparison(yellowBox, diagonalHighlight)];
    }
  }

  /** Every digit of table row i is drawn at the height of the label i + 1. */
  lemma RowsAligned(m: seq<seq<int>>, rows: nat, cols: nat, natNumbers: seq<Label>, digitObjects: map<(int, int), Label>)
    requires |natNumbers| == rows
    requires forall i :: 0 <= i < rows ==> natNumbers[i].center == Point(-4.0, 2.0 - 0.5 * (i as real))
    requires digitObjects.Keys == Rect(0, rows, cols)
    requires forall p :: p in digitObjects ==> PlacedDigit(m, p, digitObjects[p])
    ensures forall i, j :: 0 <= i < rows && 0 <= j < cols ==>
      (i, j) in digitObjects && digitObjects[(i, j)].center.y == natNumbers[i].center.y
  {
    forall i, j | 0 <= i < rows && 0 <= j < cols
      ensures (i, j) in digitObjects && digitObjects[(i, j)].center.y == natNumbers[i].center.y
    {
      RectMember(0, rows, cols, i, j);
      assert PlacedDigit(m, (i, j), digitObjects[(i, j)]);
    }
  }

  /** Everything the scene builds. */
  datatype DiagonalScene = DiagonalScene(
    binaryStrings: seq<seq<int>>,
    natNumbers: seq<Label>,
    digitObjects: map<(int, int), Label>,
    diagonalSquares: seq<Square>,
    diagonalDigits: seq<int>,
    diagonalText: string,
    newDigits: seq<int>,
    newText: string,
    differenceSquares: seq<Square>,
    comparisons: seq<Comparison>,
    yellowHighlights: seq<real>,
    diagonalHighlights: seq<Square>)

  /** Lines 13-56: the table of binary digits, the natural-number column
      and the grid of digit texts. There are NumRows * NumCols digit texts,
      and row i's digits are drawn at the height of the label i + 1. */
  method DrawTable(picks: (nat, nat) -> bool)
    returns (binaryStrings: seq<seq<int>>, natNumbers: seq<Label>, digitObjects: map<(int, int), Label>)
    ensures IsBinaryMatrix(binaryStrings, NumRows, NumCols)
    ensures forall i, j :: 0 <= i < NumRows && 0 <= j < NumCols ==> binaryStrings[i][j] == Choice(picks(i, j))
    ensures |natNumbers| == NumRows
    ensures forall i :: 0 <= i < NumRows ==> natNumbers[i].text == NatToString(i + 1)
    ensures digitObjects.Keys == Rect(0, NumRows, NumCols) && |digitObjects| == NumRows * NumCols
    ensures forall p :: p in digitObjects ==> PlacedDigit(binaryStrings, p, digitObjects[p])
    ensures forall i, j :: 0 <= i < NumRows && 0 <= j < NumCols ==>
      (i, j) in digitObjects && digitObjects[(i, j)].center.y == natNumbers[i].center.y
  {
    binaryStrings := BinaryStrings(NumRows, NumCols, picks);
    natNumbers := NaturalNumbers(NumRows);
    digitObjects := DigitObjects(binaryStrings, NumRows, NumCols);
    RectSize(0, NumRows, NumCols);
    RowsAligned(binaryStrings, NumRows, NumCols, natNumbers, digitObjects);
  }

  /** Lines 58-98: squares on the diagonal, the diagonal number and the new
      number with every bit flipped, each displayed after its prefix. */
  method ShowNumbers(binaryStrings: seq<seq<int>>, digitObjects: map<(int, int), Label>)
    returns (diagonalSquares: seq<Square>, diagonalDigits: seq<int>, diagonalText: string, newDigits: seq<int>, newText: string)
    requires IsBinaryMatrix(binaryStrings, NumRows, NumCols)
    requires forall i :: 0 <= i < NumRows ==> (i, i) in digitObjects
    ensures |diagonalSquares| == NumRows
    ensures forall i :: 0 <= i < NumRows ==> diagonalSquares[i] == Square(digitObjects[(i, i)].center, Red)
    ensures diagonalDigits == Diagonal(binaryStrings, NumRows) && newDigits == Flip(diagonalDigits)
    ensures |diagonalText| == |"Diagonal: "| + NumRows + 3 && |newText| == |"New number: "| + NumRows + 3
    ensures diagonalText[..|"Diagonal: "|] == "Diagonal: " && diagonalText[|"Diagonal: "| + NumRows..] == "..."
    ensures newText[..|"New number: "|] == "New number: " && newText[|"New number: "| + NumRows..] == "..."
    ensures forall k :: 0 <= k < NumRows ==>
      diagonalText[|"Diagonal: "| + k] == BitChar(diagonalDigits[k]) &&
      newText[|"New number: "| + k] == BitChar(newDigits[k])
  {
    diagonalSquares, diagonalDigits := DiagonalDigits(binaryStrings, digitObjects, NumRows, NumCols);
    DiagonalBinary(binaryStrings, NumRows, NumCols);
    FlipProperties(diagonalDigits);
    diagonalText := DisplayText("Diagonal: ", diagonalDigits);
    BinaryDisplay("Diagonal: ", diagonalDigits, diagonalText);
    newDigits := FlipDigits(diagonalDigits);
    newText := DisplayText("New number: ", newDigits);
    BinaryDisplay("New number: ", newDigits, newText);
  }

  /** The whole scene. The new number differs from row i at column i for
      every i, so it is none of the rows; every red diagonal square gets a
      blue difference square; the two displays read their prefix, the ten digits
      in order and "..."; both highlight groups stay empty. */
  method Construct(picks: (nat, nat) -> bool) returns (s: DiagonalScene)
    ensures IsBinaryMatrix(s.binaryStrings, NumRows, NumCols)
    ensures s.digitObjects.Keys == Rect(0, NumRows, NumCols)
    ensures |s.newDigits| == NumRows && |s.diagonalSquares| == NumRows
    ensures forall i :: 0 <= i < NumRows ==> s.newDigits[i] != s.binaryStrings[i][i]
    ensures forall i :: 0 <= i < NumRows ==> s.newDigits != s.binaryStrings[i]
    ensures s.diagonalDigits == Diagonal(s.binaryStrings, NumRows) && s.newDigits == Flip(s.diagonalDigits)
    ensures |s.differenceSquares| == NumRows
    ensures forall i :: 0 <= i < NumRows ==>
      s.differenceSquares[i] == Square(s.diagonalSquares[i].center, Blue) && s.diagonalSquares[i].color == Red
    ensures |s.diagonalText| == |"Diagonal: "| + NumRows + 3 && |s.newText| == |"New number: "| + NumRows + 3
    ensures s.diagonalText[..|"Diagonal: "|] == "Diagonal: " && s.diagonalText[|"Diagonal: "| + NumRows..] == "..."
    ensures s.newText[..|"New number: "|] == "New number: " && s.newText[|"New number: "| + NumRows..] == "..."
    ensures forall k :: 0 <= k < NumRows ==>
      s.diagonalText[|"Diagonal: "| + k] == BitChar(s.diagonalDigits[k]) &&
      s.newText[|"New number: "| + k] == BitChar(s.newDigits[k])
    ensures s.yellowHighlights == [] && s.diagonalHighlights == [] && |s.comparisons| == NumRows
  {
    var binaryStrings, natNumbers, digitObjects := DrawTable(picks);
    var diagonalSquares, diagonalDigits, diagonalText, newDigits, newText := ShowNumbers(binaryStrings, digitObjects);
    var differenceSquares := MarkDifferences(newDigits, binaryStrings, digitObjects, NumRows, NumCols);
    var comparisons, yellowHighlights, diagonalHighlights := CompareDigits(newDigits, NumRows, digitObjects);
    DiagonalArgument(binaryStrings, NumRows);
    AllDiagonalMarked(newDigits, binaryStrings, digitObjects, NumRows);
    s := DiagonalScene(binaryStrings, natNumbers, digitObjects, diagonalSquares, diagonalDigits, diagonalText,
                       newDigits, newText, differenceSquares, comparisons, yellowHighlights, diagonalHighlights);
  }
}
