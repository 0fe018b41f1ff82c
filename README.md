# Manim-Code: the computing core of four scenes

The repository is a set of Manim animation scripts. Most of each script
creates shapes and plays animations on the external renderer. Four of
them draw their pictures from exact, discrete mathematics, and this
project models that part of each and proves what the pictures rely on:

- `numberClasses/numberClasses.py` (module `NumberClasses`):
  - Euclid's `gcd` loop;
  - the 6-by-6 grid of fractions i/j, each coloured as an integer, a
    reduced fraction or a non-reduced one;
  - Cantor's zig-zag walk over that grid, cut to 20 cells and numbered
    1 to 20;
  - the filter that keeps the fractions lying in [1, 2].
- `Diagonal/cantor_diagonal.py` (module `CantorDiagonal`):
  - a 10-by-10 table of random bits, its diagonal and the flipped
    diagonal;
  - the two display strings;
  - the squares that mark where the new number differs from each row.
- `numberClasses/TreeTest.py` (module `BinaryTree`):
  - the binary tree of bit strings up to depth 5, held as level
    dictionaries of positions;
  - the 63 nodes and the 62 edges, whose list is sliced level by level;
  - the three hand-written root-to-leaf paths and the numbers they
    point at.
- `Zeno/zeno.py` and `Zeno/zeno_old.py` (modules `Zeno` and `ZenoOld`):
  - the runner of the dichotomy moving halfway to the finish line at
    each step;
  - the coloured segments, the dots and the fraction terms 1/2^(i+1)
    drawn at each step.

Supporting modules:

- `Geometry`: points with exact real coordinates (the program rounds
  them to floats), colours and lines.
  Every point these scenes build has z = 0.
- `Dichotomy`: powers of two, the closed form 1 - 1/2^k, and the series
  sum. Both Zeno scenes share it.
- `Counting`: cardinalities of grids and of sequences without
  repetitions.
- `Decimal`: Python's `str` on integers.
- `Basics`: an option type (Python's `None` or a value) and `min`.

## How the model is shaped

The modelled computations work in local variables, through loops that
append to lists and fill dictionaries. In `Diagonal/cantor_diagonal.py`,
`numberClasses/TreeTest.py` and both Zeno scripts they all sit in one
`construct` method. In `numberClasses/numberClasses.py` they are spread
over `show_number_line` (line 82), `show_cantor_bijection` (line 174)
and `show_zigzag_path` (line 253), and the last receives the grid's
positions, origin, cell size and shape as parameters.

- Each such loop is a Dafny `method` with a `while` or `for` loop.
- The method is proved against a specification function or predicate.
- The properties the scene depends on are lemmas about that function.
- Within the modelled computations no object's fields are updated, so
  the model has no classes. (`numberClasses/numberClasses.py:72` stores
  `self.circles_group`, but that belongs to the drawing-only first part
  of the scene.)
- Coordinates and Zeno positions are modelled as exact `real` values.
  The program computes them in Python floats, which round decimal
  offsets: -2.5 + 1.5 + 0.8 + 0.5 is 0.30000000000000004 there and 0.3
  here. Dyadic values such as 1 - 1/2^k and the halving offsets are
  exact in both.

Some inputs of the source become parameters:

- The random bits of the diagonal table become a parameter
  `picks(i, j)`: the outcome of the j-th `random.choice` made while
  building row i.
- Positions on a Manim number line stay in number-line coordinates. The
  renderer's affine `number_to_point` would map them to the screen.
- Python dictionaries keep insertion order, and the tree scene slices
  its edge list by that order. So a tree level is a sequence of
  (key, position) entries, and `Lookup` returns the first match. Python
  returns the value written last for a key. The two agree because no key
  repeats within a tree level (`BinaryTree.KeysDistinct`).

Deliberate restructurings, each with the same result as the source:

- `TreeTest.py` builds the positions of levels 1 and 2 by hand (lines
  24-35) and those of levels 3 to 5 with three loops (lines 38-53). It
  then draws levels 1 to 5 with five loops (lines 66-118). The loops of
  each group differ in the level they fill, its offset, its fill colour
  and the level-2 parent rule. They also differ in how they name the keys
  they walk. The position loops walk the previous level's keys: a literal
  list at line 39, `.keys()` at lines 45 and 51. The drawing loops walk
  the keys of the level being drawn: a literal list at lines 66 and 76,
  `.keys()` at lines 87, 98 and 109. The model runs each group as one
  loop over the levels. It proves that the hand-written levels equal the
  loop's result (`HandLevel1Matches`, `HandLevel2Matches`) and that each
  literal list is the key order of the level it stands for
  (`HandLevel2Keys`, `LevelKeys`).
- Line 77 computes the level-2 parent as `seq[0]` and the later levels
  use `seq[:-1]`. The model keeps both rules (`ParentKey`) and proves
  that both find the parent.

## Model

| member | source | states |
|---|---|---|
| NumberClasses.Gcd | numberClasses/numberClasses.py:318-321 | Euclid's recursion; the result is positive unless both inputs are 0 |
| NumberClasses.ComputeGcd | numberClasses/numberClasses.py:318-321 | the `while b` loop terminates (b decreases) and returns a greatest common divisor of a and b, in the divisibility order; gcd(a, 0) = a |
| NumberClasses.EuclidStep | numberClasses/numberClasses.py:319-320 | the step a, b := b, a % b keeps exactly the common divisors |
| NumberClasses.GcdDivides | numberClasses/numberClasses.py:318-321 | Gcd(a, b) divides both inputs and every common divisor divides it |
| NumberClasses.GcdIsGreatest | numberClasses/numberClasses.py:318-321 | every positive common divisor is at most the gcd |
| NumberClasses.GridLines | numberClasses/numberClasses.py:184-202 | rows + 1 horizontal lines, one per row boundary, then cols + 1 vertical lines, with their end points |
| NumberClasses.CenterInsideCell | numberClasses/numberClasses.py:210 | the centre of cell (i, j) lies strictly between grid lines i - 1 and i and between grid lines j - 1 and j |
| NumberClasses.CentersDistinct | numberClasses/numberClasses.py:208-210 | different cells get different centres |
| NumberClasses.CellColorMeaning | numberClasses/numberClasses.py:213-218 | yellow exactly when i = j; white exactly when i != j and i/j is in lowest terms; gray exactly when i != j and i/j can be reduced |
| NumberClasses.FractionPositions | numberClasses/numberClasses.py:205-222 | the keys are exactly the cells (i, j) with 1 <= i <= rows and 1 <= j <= cols; each maps to its cell centre and the text i/j in its class colour |
| Counting.RectSize | numberClasses/numberClasses.py:208-209 | the rows-by-cols grid has rows * cols cells (36 keys for the 6-by-6 grid) |
| NumberClasses.ReverseFacts | numberClasses/numberClasses.py:267 | `reverse` keeps the length and the elements, and puts element k at position n - 1 - k |
| NumberClasses.AscendingFacts | numberClasses/numberClasses.py:260-263 | the inner loop collects exactly the grid cells with i + j = d and i < n, with i increasing |
| NumberClasses.DiagonalRunFacts | numberClasses/numberClasses.py:258-269 | diagonal d holds exactly the grid cells with i + j = d; i increases when d is odd and decreases when d is even |
| NumberClasses.ZigZagSorted | numberClasses/numberClasses.py:258-269 | diagonals 2..e give grid cells only, with sums at most e, in strictly increasing boustrophedon order |
| NumberClasses.ZigZagCovers | numberClasses/numberClasses.py:258-269 | diagonals 2..e reach every grid cell whose sum is at most e |
| NumberClasses.ZigZagPrefix | numberClasses/numberClasses.py:258-269 | later diagonals only extend the walk; earlier walks are prefixes of later ones |
| NumberClasses.FullOrderFacts | numberClasses/numberClasses.py:255-269 | before truncation `path_order` has no repetitions, its cells are exactly the grid's, and it has rows * cols entries |
| NumberClasses.ZigZagStart | numberClasses/numberClasses.py:258-269 | on the 6-by-6 grid the walk begins 1/1, 1/2, 2/1, 3/1, 2/2, 1/3 |
| NumberClasses.PathStart | numberClasses/numberClasses.py:255-272 | the 20 cells the scene walks begin with those six |
| NumberClasses.ZigZagOrder | numberClasses/numberClasses.py:255-272 | `path_order` is exactly the first min(rows * cols, 20) cells of the full walk |
| NumberClasses.Enumerate | numberClasses/numberClasses.py:278-303 | entry k gets the number k + 1 and a label at `RIGHT * 3 + UP * (2 - 0.3 (k + 1))`; each later entry gets a green line from the previous cell's centre to its own; the counter ends at length + 1 |
| NumberClasses.EnumerationLayout | numberClasses/numberClasses.py:291-302 | the labels go strictly downward; each path line starts where the previous one ended |
| NumberClasses.FilterInterval | numberClasses/numberClasses.py:155-161 | the data shown are the data with 1 <= value <= 2, in their original order |
| NumberClasses.KeepInIntervalMeaning | numberClasses/numberClasses.py:155-161 | a datum is kept exactly when it is in the input and its value lies in [1, 2]; nothing is added |
| NumberClasses.KeepAllInRange | numberClasses/numberClasses.py:155-161 | when every value is in range, everything is kept, in order |
| NumberClasses.SecondIntervalKeepsAll | numberClasses/numberClasses.py:149-161 | all of 3/2, 5/4 and 9/8 are shown |
| NumberClasses.CantorBijection | numberClasses/numberClasses.py:174-303 | for any grid size: rows + cols + 2 grid lines; rows * cols placed fractions; a path of min(rows * cols, 20) distinct grid cells, numbered 1, 2, ... in order and joined by one line fewer |
| NumberClasses.ShowCantorBijection | numberClasses/numberClasses.py:177-303 | with the scene's constants: 14 grid lines, 36 fractions, 20 distinct cells numbered 1 to 20 and 19 path lines, starting with the first three diagonals |
| CantorDiagonal.BinaryStrings | Diagonal/cantor_diagonal.py:13-16 | a rows-by-cols table whose entries are the drawn choices, all 0 or 1 |
| CantorDiagonal.NaturalNumbers | Diagonal/cantor_diagonal.py:23-26 | label i reads `str(i + 1)` and is centred at (-4, 2 - 0.5 i) |
| CantorDiagonal.DigitObjects | Diagonal/cantor_diagonal.py:32-38 | one digit text per cell (i, j) of the table, reading its digit, centred at (-2.5 + 0.4 j, 2 - 0.5 i) |
| CantorDiagonal.RowsAligned | Diagonal/cantor_diagonal.py:25-36 | every digit of row i sits at the height of natural-number label i + 1 |
| CantorDiagonal.DiagonalBinary | Diagonal/cantor_diagonal.py:62-69 | the diagonal of a binary table is binary |
| CantorDiagonal.DiagonalDigits | Diagonal/cantor_diagonal.py:59-69 | min(rows, cols) red squares, square i on entry (i, i); `diagonal_digits[i] = binary_strings[i][i]` |
| CantorDiagonal.DisplayText | Diagonal/cantor_diagonal.py:76-79 | the text is the prefix, then `str(digit)` for each digit in order, then "..." |
| CantorDiagonal.BinaryDigitsText | Diagonal/cantor_diagonal.py:77-78 | for binary digits the joined digits have one character per digit, character k showing digit k |
| CantorDiagonal.BinaryDisplay | Diagonal/cantor_diagonal.py:91-94 | a display of binary digits reads: the prefix, the digits one character each in index order, then "..." |
| CantorDiagonal.FlipDigits | Diagonal/cantor_diagonal.py:87-89 | `new_digits[i] = 1 - diagonal_digits[i]` for every i |
| CantorDiagonal.FlipProperties | Diagonal/cantor_diagonal.py:87-89 | flipping changes every digit, keeps binary digits binary, and flipping twice restores the digits |
| CantorDiagonal.DiagonalArgument | Diagonal/cantor_diagonal.py:87-108 | the flipped diagonal differs from row i at column i, so it equals no row of the table |
| CantorDiagonal.MarkDifferences | Diagonal/cantor_diagonal.py:101-108 | a blue square on entry (i, i) exactly when the new digit differs from it, in index order |
| CantorDiagonal.AllDiagonalMarked | Diagonal/cantor_diagonal.py:101-108 | when every new digit differs from its diagonal entry, there are exactly n blue squares, square i on entry (i, i) |
| CantorDiagonal.CompareDigits | Diagonal/cantor_diagonal.py:115-144 | min(len(new_digits), rows) comparisons, box i shifted by 0.21 i + 0.13, a yellow square i on entry (i, i); both highlight groups stay empty |
| CantorDiagonal.DrawTable | Diagonal/cantor_diagonal.py:13-56 | the binary table, the ten labels and rows * cols digit texts, row i level with label i + 1 |
| CantorDiagonal.ShowNumbers | Diagonal/cantor_diagonal.py:58-98 | the diagonal, its flip, and the two displays, each reading its prefix, the ten digits in order and "..." |
| CantorDiagonal.Construct | Diagonal/cantor_diagonal.py:7-144 | the new number differs from row i at column i for every i and equals no row; every red diagonal square gets a blue difference square at the same centre; the displays read "Diagonal: " and "New number: ", the ten digits in order and "..."; both highlight groups stay empty |
| BinaryTree.Children | numberClasses/TreeTest.py:38-53 | the next level has twice as many entries; entry m is the child of parent m / 2 for bit m % 2 |
| BinaryTree.HandLevel1Matches | numberClasses/TreeTest.py:24-27 | the hand-written level 1 is the root's children at offset 2.5 |
| BinaryTree.HandLevel2Matches | numberClasses/TreeTest.py:30-35 | the hand-written level 2 is level 1's children at offset 1.5 |
| BinaryTree.HandLevel2Keys | numberClasses/TreeTest.py:39 | the list the level-3 loop walks is level 2's key order |
| BinaryTree.ExtendLevel | numberClasses/TreeTest.py:38-53 | the dictionary filled from the previous level's keys is that level's children |
| BinaryTree.BuildLevels | numberClasses/TreeTest.py:21-53 | six levels, the root alone at level 0, each later level the children of the one below at its offset |
| BinaryTree.LevelPositions | numberClasses/TreeTest.py:19-53 | the levels form the tree rooted at `root_pos` |
| BinaryTree.ValueOfBits | numberClasses/TreeTest.py:39-53 | the k-bit numeral of n < 2^k is a bit string that reads back as n |
| BinaryTree.BitsOfValue | numberClasses/TreeTest.py:39-53 | a bit string is the numeral of its own value, which is below 2^length |
| BinaryTree.ChildrenIsLevel | numberClasses/TreeTest.py:38-53 | splitting the k-bit keys in key order gives the (k+1)-bit keys in key order |
| BinaryTree.TreeLevels | numberClasses/TreeTest.py:24-53 | entry n of level k is keyed by the k-bit numeral of n, for the 2^k entries |
| BinaryTree.LevelKeys | numberClasses/TreeTest.py:24-53 | the keys of level k are exactly the bit strings of length k |
| BinaryTree.KeysDistinct | numberClasses/TreeTest.py:24-53 | no key occurs twice in a level |
| BinaryTree.LookupInLevel | numberClasses/TreeTest.py:83 | in a tree level, looking up any entry's key finds that entry's position |
| BinaryTree.LookupMissing | numberClasses/TreeTest.py:83 | a key absent from the level finds nothing (Python's KeyError) |
| BinaryTree.ParentLink | numberClasses/TreeTest.py:40-53 | a child's last key bit is its bit; it sits 0.7 above its parent, shifted left by the offset for bit 0 and right for bit 1 |
| BinaryTree.ParentFound | numberClasses/TreeTest.py:77-110 | the parent key of every new entry, `seq[0]` at level 2 and `seq[:-1]` after, finds the parent's position |
| BinaryTree.LevelReady | numberClasses/TreeTest.py:76-118 | every tree level has keys of its depth, no repeated key, and parent keys that find their parents |
| BinaryTree.AddLevel | numberClasses/TreeTest.py:66-118 | one level's loop adds that level's nodes to `nodes` and appends that level's edges, in order, to `edges` |
| BinaryTree.DrawStep | numberClasses/TreeTest.py:56-118 | adding a level keeps the nodes already drawn, draws every new entry with the level's fill, and adds one node per entry |
| BinaryTree.AllNodesDrawn | numberClasses/TreeTest.py:56-118 | after levels 0 to k every entry of those levels is drawn with its fill, and there are 2^(k+1) - 1 nodes |
| BinaryTree.NodesAndEdges | numberClasses/TreeTest.py:55-151 | 63 nodes and 62 edges; the slices `[:2]`, `[2:6]`, `[6:14]`, `[14:30]`, `[30:]` are exactly the edges of levels 1 to 5 |
| BinaryTree.PathStep | numberClasses/TreeTest.py:160-182 | each `path_sequence` entry extends the previous one by one bit; the branch for step i names entries i and i + 1 |
| BinaryTree.BranchKeysMatch | numberClasses/TreeTest.py:168-182 | the if/elif branch taken at step i selects `path_sequence[i]` and `path_sequence[i + 1]` |
| BinaryTree.KeyPosition | numberClasses/TreeTest.py:168-182 | a k-bit path key is the key of entry Value(key) of level k, and looking it up finds that entry's position |
| BinaryTree.StepRetraces | numberClasses/TreeTest.py:164-185 | the red line between a step's two entries retraces the yellow tree edge into the end entry |
| BinaryTree.PathEdge | numberClasses/TreeTest.py:164-185 | the positions the branch looks up exist, and the red edge drawn between them retraces the tree |
| BinaryTree.HighlightPath | numberClasses/TreeTest.py:159-197 | five red edges, each retracing the tree along the path, then a final edge from the path's last node to its number |
| BinaryTree.FractionBounds | numberClasses/TreeTest.py:279-286 | the binary fraction 0.s of a bit string lies in [0, 1) |
| BinaryTree.FractionExtends | numberClasses/TreeTest.py:246-286 | going one level down a path adds 0 or 1/2^(k+1), so every extension stays in [f, f + 1/2^k) |
| BinaryTree.ValueSnoc | numberClasses/TreeTest.py:160-182 | appending a bit doubles the value and adds the bit |
| BinaryTree.ZeroPathValue | numberClasses/TreeTest.py:160-193 | the all-zeros path is 0 at every depth |
| BinaryTree.OnePathValue | numberClasses/TreeTest.py:203-236 | the all-ones path after n bits is 1 - 1/2^n: the dichotomy runner's position, below 1 and increasing |
| BinaryTree.ThirdPathValue | numberClasses/TreeTest.py:246-286 | 0.0101... to 2m bits is (1 - 1/4^m) / 3, below 1/3 by exactly 1/(3 * 4^m); the next bit, a 0, keeps the value |
| BinaryTree.PathTargets | numberClasses/TreeTest.py:190-288 | the zeros path ends at its target 0; the ones path ends 1/32 short of 1; the alternating path ends at 10/32, below the edge's target 0.3333, which is 1/30000 below the dot at 1/3 |
| BinaryTree.ChildrenSpread | numberClasses/TreeTest.py:38-53 | siblings are 2 * offset apart, and neighbouring cousins lose 2 * offset of their parents' gap |
| BinaryTree.LayoutSpread | numberClasses/TreeTest.py:24-41 | levels 1 to 3 are drawn left to right in key order, at least 5, 2 and 0.4 apart |
| BinaryTree.SubtreesOverlap | numberClasses/TreeTest.py:44-47 | at level 4, "0111" is drawn at x = 0.3, to the right of "1000" at x = -0.3 |
| BinaryTree.Construct | numberClasses/TreeTest.py:5-291 | the tree levels with their keys, 63 nodes, 62 edges, three five-edge paths, targets 0, 1 and 0.3333, and the dot at 1/3 |
| Dichotomy.HalvingStep | Zeno/zeno.py:71 | one midpoint step moves the closed form 1 - (1 - start)/2^k on by one step |
| Dichotomy.ApproachContinues | Zeno/zeno_old.py:119-168 | continuing k steps from where m steps from 0 ended is the same as taking m + k steps from 0 |
| Dichotomy.NeverArrives | Zeno/zeno.py:69-128 | every position is in [0, 1), strictly below the target, and positions strictly increase |
| Dichotomy.SegmentLength | Zeno/zeno.py:71-111 | step i covers exactly 1/2^(i+1), the term written for it |
| Dichotomy.SeriesIsPosition | Zeno/zeno.py:99-116 | the written terms 1/2 + ... + 1/2^k add up to where the runner stands |
| Zeno.TempFractions | Zeno/zeno.py:55-61 | five terms, denominators 2^(j+1), "+" on all but the first |
| Zeno.HalvingLoop | Zeno/zeno.py:42-129 | after the loop `current_pos = 1 - 1/2^steps < 1`; segment i runs from 1 - 1/2^i to 1 - 1/2^(i+1) in `colors[i % 7]`, segments join end to end, dot i sits at segment i's end, term i has denominator 2^(i+1), matches its segment's length, and has "+" exactly when i > 0; the terms sum to the position |
| Zeno.Construct | Zeno/zeno.py:42-129 | seven steps end at 127/128; the five temporary terms agree with the first five live terms in sign and denominator |
| ZenoOld.FirstLoop | Zeno/zeno_old.py:42-116 | the first loop's segments, dots and shifted terms, as in the newer scene, with term i shifted to (i - 2, 1); `fraction_terms` stays empty |
| ZenoOld.ZoomLoop | Zeno/zeno_old.py:163-201 | the zoom loop keeps the earlier segments and dots and appends one halving step each time from `zoom_start_pos`, in `colors[(i + 3) % 7]` |
| ZenoOld.Construct | Zeno/zeno_old.py:54-201 | `zoom_start_pos = 31/32`; the zoom loop ends at 255/256 < 1; the eight segments are the first eight halving steps from 0, joined end to end, with the dots at their right ends |

## Left out

- Every `self.play`, `self.wait`, `Create`, `Write`, `Transform`, `FadeOut`, `next_to`, `to_edge`, `move_to` and `arrange` call. These belong to the external renderer and its layout engine.
- Stroke widths, radii, opacities, fonts, font sizes and run times. They only affect rendering.
- `number_to_point` and the number lines themselves. Positions stay in number-line coordinates.
- `random.seed(42)` and the pseudo-random generator of `Diagonal/cantor_diagonal.py`. The drawn bits are a parameter.
- `Diagonal/cantor_diagonal.py:157-158`. Line 158 uses an undefined name `naturals` and would stop the scene with a NameError there.
- The first part of the numberClasses scene (lines 1-148): number sets, circles and the first interval's labels. It is drawing only. Its labels at lines 111-113 do not match the values they are placed at, and nothing here claims they do.
- The row and column headers and the axis labels of the fraction grid (`numberClasses/numberClasses.py:224-241`). They are fixed text placement.
- The highlight circles of the zig-zag walk (`numberClasses/numberClasses.py:287-288`, 305). They are created and faded out again at once.
- The zoom of `Zeno/zeno_old.py` (lines 121-160): camera scaling by 6.67 and a translation. These are floating-point rendering parameters.
- The `1/(i+1)` wait timings, and the closing series text of `Zeno/zeno.py` (lines 131-152).
- The ellipsis text of `numberClasses/TreeTest.py` (lines 154-157), the node labels, and the final fade-out.
- `CantorDiagonal.DisplayText`: the display text is built over any integer digits with Python's `str`. The one-character-per-digit reading is proved only for binary digits, which is what the scene displays.
- `BinaryTree.SubtreesOverlap`: states the exact-real x-coordinates 0.3 and -0.3. The program's floats give 0.30000000000000004 and a similarly rounded value; the overlap it shows survives the rounding.
- `BinaryTree.PathTargets`: states exact-real values (10/32, 0.3333, 1/3 and their gaps). The program's floats round 0.3333 and 1/3; the order 10/32 < 0.3333 < 1/3 survives the rounding.
- `gcd` on negative inputs: the scene calls it only on 1..6. Python's `%` on negative numbers is not modelled.
- The other scripts of the repository (Archimedes, Riemann, Philoponus, Galileo, Cantor's theorem, alephs, the triangle, the introduction, my-project). They are floating-point numerics, per-frame updaters, or fixed text.
