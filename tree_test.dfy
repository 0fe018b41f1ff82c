/** numberClasses/TreeTest.py: the binary tree of finite bit strings, drawn
    five levels deep, and three root-to-leaf paths that point at 0, 1 and 1/3
    on a number line. Each level is one of the scene's dictionaries from bit
    string to position; Python dictionaries keep insertion order, so a level
    is the sequence of its entries in that order. */
module BinaryTree {
  import opened Geometry
  import opened Dichotomy
  import opened Basics

  /** One dictionary entry: a bit string and the position of its node. */
  type Entry = (string, Point)

  /** A level dictionary, entries in insertion order. */
  type Level = seq<Entry>

  /** `root_pos = DOWN * 3.5`. Positions in this module are written with
      their coordinates, so that `p + UP * a + LEFT * b` reads
      `Point(p.x - b, p.y + a)`. */
  const RootPos: Point := Point(0.0, -3.5)

  /** Every child sits `UP * 0.7` above its parent. */
  const Rise: real := 0.7

  /** The sideways shift of a child at levels 1 to 5. */
  const Offsets: seq<real> := [2.5, 1.5, 0.8, 0.5, 0.25]

  /** The deepest level drawn. */
  const Depth: nat := 5

  /** The circle fill of the root and of levels 1 to 5. */
  const LevelFill: seq<Color> := [Blue, Green, Red, Orange, Purple, Pink]

  // ---------------------------------------------------------------------
  // Level positions (lines 19-53)
  // ---------------------------------------------------------------------

  /** The child of `parent` for `bit`: key `parent + bit`, position
      `parent + UP * 0.7 + LEFT * offset` for bit 0 and `+ RIGHT * offset`
      otherwise. */
  function Child(parent: Entry, bit: char, offset: real): Entry
  {
    (parent.0 + [bit], Point(parent.1.x + (if bit == '0' then -offset else offset), parent.1.y + Rise))
  }

  /** The bit of an even position is 0 and of an odd one 1. */
  function BitOf(m: nat): char
  {
    if m % 2 == 0 then '0' else '1'
  }

  /** The level after `prev`: for each parent in order, its 0-child then its
      1-child, so entry m is the child of entry m / 2 for bit m % 2. */
  function Children(prev: Level, offset: real): (next: Level)
    ensures |next| == 2 * |prev|
    ensures forall m :: 0 <= m < |next| ==> next[m] == Child(prev[m / 2], BitOf(m), offset)
  {
    if prev == [] then []
    else
      var last := prev[|prev| - 1];
      Children(prev[..|prev| - 1], offset) + [Child(last, '0', offset), Child(last, '1', offset)]
  }

  /** The levels of the tree: the root alone, then each level the children
      of the one below with that level's offset. */
  ghost predicate IsTree(levels: seq<Level>)
  {
    |levels| == Depth + 1 && levels[0] == [("", RootPos)] && Grown(levels)
  }

  /** `level1_positions`, written out by hand from `root_pos`
      (lines 24-27). */
  function HandLevel1(root: Point): Level
  {
    [("0", Point(root.x - 2.5, root.y + 0.7)),
     ("1", Point(root.x + 2.5, root.y + 0.7))]
  }

  /** `level2_positions`, written out by hand from `level1_positions`
      (lines 30-35). */
  function HandLevel2(level1: Level): Level
    requires |level1| == 2
  {
    [("00", Point(level1[0].1.x - 1.5, level1[0].1.y + 0.7)),
     ("01", Point(level1[0].1.x + 1.5, level1[0].1.y + 0.7)),
     ("10", Point(level1[1].1.x - 1.5, level1[1].1.y + 0.7)),
     ("11", Point(level1[1].1.x + 1.5, level1[1].1.y + 0.7))]
  }

  /** The hand-written level 1 is the root's children at offset 2.5. */
  lemma HandLevel1Matches(root: Point)
    ensures HandLevel1(root) == Children([("", root)], Offsets[0])
  {
    var c1, h := Children([("", root)], Offsets[0]), HandLevel1(root);
    assert "" + ['0'] == "0" && "" + ['1'] == "1";
    assert |c1| == 2 && c1[0] == h[0] && c1[1] == h[1];
  }

  /** The hand-written level 2 is level 1's children at offset 1.5. */
  lemma HandLevel2Matches(level1: Level)
    requires |level1| == 2 && level1[0].0 == "0" && level1[1].0 == "1"
    ensures HandLevel2(level1) == Children(level1, Offsets[1])
  {
    var c2, h := Children(level1, Offsets[1]), HandLevel2(level1);
    assert "0" + ['0'] == "00" && "0" + ['1'] == "01" && "1" + ['0'] == "10" && "1" + ['1'] == "11";
    assert |c2| == 4 && c2[0] == h[0] && c2[1] == h[1] && c2[2] == h[2] && c2[3] == h[3];
  }

  /** The list `["00", "01", "10", "11"]` the level-3 loop walks (line 39)
      is the key order of the hand-written level 2. */
  lemma HandLevel2Keys(level1: Level)
    requires |level1| == 2 && level1[0].0 == "0" && level1[1].0 == "1"
    ensures [HandLevel2(level1)[0].0, HandLevel2(level1)[1].0, HandLevel2(level1)[2].0, HandLevel2(level1)[3].0]
            == ["00", "01", "10", "11"]
  {
    assert "0" + ['0'] == "00" && "0" + ['1'] == "01" && "1" + ['0'] == "10" && "1" + ['1'] == "11";
  }

  /** Lines 38-53: a level dictionary filled by walking the previous level's
      keys and adding each key's 0-child and 1-child. */
  method ExtendLevel(prev: Level, offset: real) returns (next: Level)
    ensures next == Children(prev, offset)
  {
    next := [];
    for n := 0 to |prev|
      invariant next == Children(prev[..n], offset)
    {
      assert prev[..n + 1][..n] == prev[..n];
      next := next + [Child(prev[n], '0', offset), Child(prev[n], '1', offset)];
    }
    assert prev[..|prev|] == prev;
  }

  /** Lines 21-53: the five level dictionaries grown from `root_pos`. The
      loops of lines 38-53 differ only in the level they fill and its
      offset, so they run here as one loop over levels 3 to 5. */
  method BuildLevels(root: Point) returns (levels: seq<Level>)
    ensures |levels| == Depth + 1 && levels[0] == [("", root)]
    ensures Grown(levels)
  {
    HandLevel1Matches(root);
    var level1 := HandLevel1(root);
    HandLevel2Matches(level1);
    var level2 := HandLevel2(level1);
    levels := [[("", root)]];
    AppendLevel(levels, level1);
    levels := levels + [level1];
    AppendLevel(levels, level2);
    levels := levels + [level2];
    for k := 3 to Depth + 1
      invariant |levels| == k && levels[0] == [("", root)]
      invariant Grown(levels)
    {
      var next := ExtendLevel(levels[k - 1], Offsets[k - 1]);
      AppendLevel(levels, next);
      levels := levels + [next];
    }
  }

  /** Each level after the first holds the children of the one before. */
  ghost predicate Grown(levels: seq<Level>)
  {
    |levels| <= Depth + 1 &&
    forall j :: 1 <= j < |levels| ==> levels[j] == Children(levels[j - 1], Offsets[j - 1])
  }

  lemma AppendLevel(levels: seq<Level>, next: Level)
    requires 1 <= |levels| <= Depth && Grown(levels)
    requires next == Children(levels[|levels| - 1], Offsets[|levels| - 1])
    ensures Grown(levels + [next])
  {
    var grown := levels + [next];
    forall j | 1 <= j < |grown|
      ensures grown[j] == Children(grown[j - 1], Offsets[j - 1])
    {
      if j < |levels| {
        assert grown[j] == levels[j] && grown[j - 1] == levels[j - 1];
      }
    }
  }

  /** Lines 19-53: the root position and the five level dictionaries. */
  method LevelPositions() returns (levels: seq<Level>)
    ensures IsTree(levels)
  {
    levels := BuildLevels(RootPos);
  }

  // ---------------------------------------------------------------------
  // Keys: the bit strings of each length
  // ---------------------------------------------------------------------

  /** Every character is '0' or '1'. */
  ghost predicate IsBitString(s: string)
  {
    forall i :: 0 <= i < |s| ==> s[i] == '0' || s[i] == '1'
  }

  /** The k-bit binary numeral of n, most significant bit first. */
  function Bits(n: nat, k: nat): (s: string)
    ensures |s| == k
  {
    if k == 0 then "" else Bits(n / 2, k - 1) + [if n % 2 == 1 then '1' else '0']
  }

  /** The number a bit string denotes in binary. */
  function Value(s: string): nat
  {
    if s == "" then 0 else 2 * Value(s[..|s| - 1]) + (if s[|s| - 1] == '1' then 1 else 0)
  }

  /** Reading back the numeral of n < 2^k gives n. */
  lemma {:induction false} ValueOfBits(n: nat, k: nat)
    requires n < Pow2(k)
    ensures IsBitString(Bits(n, k)) && Value(Bits(n, k)) == n
  {
    if k > 0 {
      ValueOfBits(n / 2, k - 1);
      var s := Bits(n, k);
      assert s[..|s| - 1] == Bits(n / 2, k - 1);
    }
  }

  /** Writing out the value of a bit string with as many bits gives it back. */
  lemma {:induction false} BitsOfValue(s: string)
    requires IsBitString(s)
    ensures Value(s) < Pow2(|s|) && Bits(Value(s), |s|) == s
  {
    if s != "" {
      var t := s[..|s| - 1];
      assert IsBitString(t);
      BitsOfValue(t);
      assert s == t + [s[|s| - 1]];
    }
  }

  /** Entry n of `level` is keyed by the k-bit numeral of n, for each of the
      2^k values of n. */
  ghost predicate IsLevel(level: Level, k: nat)
  {
    |level| == Pow2(k) && forall n :: 0 <= n < |level| ==> level[n].0 == Bits(n, k)
  }

  /** Splitting every key of level k in two gives level k + 1. */
  lemma ChildrenIsLevel(prev: Level, k: nat, offset: real)
    requires IsLevel(prev, k)
    ensures IsLevel(Children(prev, offset), k + 1)
  {
    var next := Children(prev, offset);
    forall m | 0 <= m < |next|
      ensures next[m].0 == Bits(m, k + 1)
    {
      var n := m / 2;
      assert m == 2 * n || m == 2 * n + 1;
    }
  }

  /** Level k of the tree holds the k-bit strings in increasing order. */
  lemma {:induction false} TreeLevels(levels: seq<Level>, k: nat)
    requires IsTree(levels) && k <= Depth
    ensures IsLevel(levels[k], k)
  {
    if k > 0 {
      TreeLevels(levels, k - 1);
      ChildrenIsLevel(levels[k - 1], k - 1, Offsets[k - 1]);
    }
  }

  /** `key in level_positions`. */
  ghost predicate HasKey(level: Level, s: string)
  {
    exists n :: 0 <= n < |level| && level[n].0 == s
  }

  /** The keys of level k are exactly the 2^k bit strings of length k. */
  lemma LevelKeys(level: Level, k: nat, s: string)
    requires IsLevel(level, k)
    ensures HasKey(level, s) <==> |s| == k && IsBitString(s)
  {
    if HasKey(level, s) {
      var n :| 0 <= n < |level| && level[n].0 == s;
      ValueOfBits(n, k);
    }
    if |s| == k && IsBitString(s) {
      BitsOfValue(s);
      assert level[Value(s)].0 == s;
    }
  }

  /** No key occurs twice in a level. */
  lemma KeysDistinct(level: Level, k: nat, n: nat, m: nat)
    requires IsLevel(level, k) && n < m < |level|
    ensures level[n].0 != level[m].0
  {
    ValueOfBits(n, k);
    ValueOfBits(m, k);
  }

  // ---------------------------------------------------------------------
  // Dictionary lookup
  // ---------------------------------------------------------------------

  /** `level_positions[key]`: the position stored under the first entry
      with that key, None where Python would raise KeyError. */
  function Lookup(level: Level, key: string): Option<Point>
  {
    if level == [] then None
    else if level[0].0 == key then Some(level[0].1)
    else Lookup(level[1..], key)
  }

  /** When no earlier entry shares entry n's key, looking the key up finds
      entry n's position. */
  lemma {:induction false} LookupFinds(level: Level, n: nat)
    requires n < |level|
    requires forall m :: 0 <= m < n ==> level[m].0 != level[n].0
    ensures Lookup(level, level[n].0) == Some(level[n].1)
  {
    if n > 0 {
      LookupFinds(level[1..], n - 1);
    }
  }

  /** A key that is absent from the level finds nothing. */
  lemma {:induction false} LookupMissing(level: Level, key: string)
    requires !HasKey(level, key)
    ensures Lookup(level, key) == None
  {
    if level != [] {
      forall n | 0 <= n < |level[1..]|
        ensures level[1..][n].0 != key
      {
        assert level[1..][n] == level[n + 1];
      }
      LookupMissing(level[1..], key);
    }
  }

  /** In a tree level every key finds its own entry's position. */
  lemma LookupInLevel(level: Level, k: nat, n: nat)
    requires IsLevel(level, k) && n < |level|
    ensures Lookup(level, level[n].0) == Some(level[n].1)
  {
    forall m | 0 <= m < n
      ensures level[m].0 != level[n].0
    {
      KeysDistinct(level, k, m, n);
    }
    LookupFinds(level, n);
  }

  /** Lines 88, 99 and 110: the key `seq[:-1]` of a child is its parent's
      key, and the child sits Rise above its parent, shifted left by the
      offset for bit 0 and right for bit 1. */
  lemma ParentLink(prev: Level, offset: real, m: nat)
    requires m < 2 * |prev|
    ensures var c := Children(prev, offset)[m];
      var p := prev[m / 2];
      |c.0| == |p.0| + 1 && c.0[..|c.0| - 1] == p.0 &&
      c.0[|c.0| - 1] == (if m % 2 == 0 then '0' else '1') &&
      c.1 == Point(p.1.x + (if m % 2 == 0 then -offset else offset), p.1.y + Rise)
  {
    var n := m / 2;
    assert m == 2 * n || m == 2 * n + 1;
    var c := Children(prev, offset)[m];
    assert c.0 == prev[n].0 + [c.0[|c.0| - 1]];
  }

  // ---------------------------------------------------------------------
  // Nodes and edges (lines 55-118)
  // ---------------------------------------------------------------------

  /** A drawn node: a small circle at `center` filled with `fill`. Its label
      is the node's bit string and is not modelled further. */
  datatype Node = Node(center: Point, fill: Color)

  /** The tree edges into one level, in that level's order: a yellow line
      from each child's parent to the child. */
  function LevelEdges(prev: Level, level: Level): (edges: seq<Line>)
    requires |level| == 2 * |prev|
    ensures |edges| == |level|
  {
    seq(|level|, m requires 0 <= m < |level| => Line(prev[m / 2].1, level[m].1, Yellow))
  }

  /** The parent key the source computes for a child key: `seq[:-1]`, or
      `seq[0]` in the level-2 loop (line 77). */
  function ParentKey(key: string, firstBitParent: bool): string
  {
    if firstBitParent then (if key == "" then "" else [key[0]])
    else if key == "" then "" else key[..|key| - 1]
  }

  /** Entry m of a level: its key has k bits, it differs from every earlier
      key, and its parent key finds the position of entry m / 2 of the
      level below. */
  lemma NewEntry(prev: Level, level: Level, k: nat, offset: real, firstBitParent: bool, m: nat)
    requires k >= 1 && IsLevel(prev, k - 1) && level == Children(prev, offset)
    requires firstBitParent ==> k == 2
    requires m < |level|
    ensures |level[m].0| == k
    ensures forall j :: 0 <= j < m ==> level[j].0 != level[m].0
    ensures Lookup(prev, ParentKey(level[m].0, firstBitParent)) == Some(prev[m / 2].1)
  {
    ChildrenIsLevel(prev, k - 1, offset);
    forall j | 0 <= j < m
      ensures level[j].0 != level[m].0
    {
      KeysDistinct(level, k, j, m);
    }
    ParentFound(prev, level, k, offset, firstBitParent, m);
  }

  /** The parent key of a new entry finds its parent's position. */
  lemma ParentFound(prev: Level, level: Level, k: nat, offset: real, firstBitParent: bool, m: nat)
    requires k >= 1 && IsLevel(prev, k - 1) && level == Children(prev, offset)
    requires firstBitParent ==> k == 2
    requires m < |level|
    ensures Lookup(prev, ParentKey(level[m].0, firstBitParent)) == Some(prev[m / 2].1)
  {
    ParentLink(prev, offset, m);
    var key := level[m].0;
    if firstBitParent {
      assert [key[0]] == key[..1];
    }
    assert ParentKey(key, firstBitParent) == prev[m / 2].0;
    LookupInLevel(prev, k - 1, m / 2);
  }

  /** The edges into a level, one entry longer. */
  lemma LevelEdgesStep(prev: Level, level: Level, m: nat)
    requires |level| == 2 * |prev| && m < |level|
    ensures LevelEdges(prev, level)[..m + 1] == LevelEdges(prev, level)[..m] + [Line(prev[m / 2].1, level[m].1, Yellow)]
  {
    var all := LevelEdges(prev, level);
    assert all[..m + 1] == all[..m] + [all[m]];
  }

  /** What a level loop needs of a level: every key has k bits, no key
      repeats, and every parent key finds the parent's position. */
  ghost predicate ReadyLevel(prev: Level, level: Level, k: nat, firstBitParent: bool)
  {
    && |level| == 2 * |prev|
    && (forall m :: 0 <= m < |level| ==> |level[m].0| == k)
    && (forall i, j :: 0 <= i < j < |level| ==> level[i].0 != level[j].0)
    && (forall m :: 0 <= m < |level| ==> Lookup(prev, ParentKey(level[m].0, firstBitParent)) == Some(prev[m / 2].1))
  }

  /** Every level of the tree is ready for its loop. */
  lemma LevelReady(prev: Level, level: Level, k: nat, offset: real, firstBitParent: bool)
    requires k >= 1 && IsLevel(prev, k - 1) && level == Children(prev, offset)
    requires firstBitParent ==> k == 2
    ensures ReadyLevel(prev, level, k, firstBitParent)
  {
    forall m | 0 <= m < |level|
      ensures |level[m].0| == k
      ensures forall j :: 0 <= j < m ==> level[j].0 != level[m].0
      ensures Lookup(prev, ParentKey(level[m].0, firstBitParent)) == Some(prev[m / 2].1)
    {
      NewEntry(prev, level, k, offset, firstBitParent, m);
    }
  }

  /** Level k of the tree holds 2^k entries. */
  ghost predicate Sized(levels: seq<Level>)
  {
    |levels| == Depth + 1 && forall k {:trigger levels[k]} :: 0 <= k <= Depth ==> |levels[k]| == Pow2(k)
  }

  /** The five level loops, as the source writes them (`seq[0]` at level 2). */
  ghost predicate Ready(levels: seq<Level>)
  {
    && Sized(levels)
    && levels[0] == [("", RootPos)]
    && ReadyUpTo(levels, Depth)
  }

  /** Levels 1 to k are each ready for their loop. */
  ghost predicate ReadyUpTo(levels: seq<Level>, k: nat)
    requires k < |levels|
  {
    k == 0 || (ReadyUpTo(levels, k - 1) && ReadyLevel(levels[k - 1], levels[k], k, k == 2))
  }

  lemma {:induction false} ReadyAt(levels: seq<Level>, j: nat, k: nat)
    requires k < |levels| && ReadyUpTo(levels, k) && 1 <= j <= k
    ensures ReadyLevel(levels[j - 1], levels[j], j, j == 2)
  {
    if j < k {
      ReadyAt(levels, j, k - 1);
    }
  }

  lemma TreeReady(levels: seq<Level>)
    requires IsTree(levels)
    ensures Ready(levels)
  {
    TreeSized(levels);
    TreeReadyUpTo(levels, Depth);
  }

  lemma TreeSized(levels: seq<Level>)
    requires IsTree(levels)
    ensures Sized(levels)
  {
    forall k | 0 <= k <= Depth
      ensures |levels[k]| == Pow2(k)
    {
      TreeLevels(levels, k);
    }
  }

  lemma {:induction false} TreeReadyUpTo(levels: seq<Level>, k: nat)
    requires IsTree(levels) && k <= Depth
    ensures ReadyUpTo(levels, k)
  {
    if k > 0 {
      TreeReadyUpTo(levels, k - 1);
      TreeLevels(levels, k - 1);
      LevelReady(levels[k - 1], levels[k], k, Offsets[k - 1], k == 2);
    }
  }

  /** The nodes one level loop adds: each key of the level mapped to a
      circle at its position with the level's fill. */
  function LevelNodes(level: Level, fill: Color): map<string, Node>
  {
    if level == [] then map[]
    else
      var last := level[|level| - 1];
      LevelNodes(level[..|level| - 1], fill)[last.0 := Node(last.1, fill)]
  }

  /** The level's nodes are keyed by exactly the level's keys. */
  lemma {:induction false} LevelNodesKey(level: Level, fill: Color, s: string)
    ensures s in LevelNodes(level, fill) <==> HasKey(level, s)
  {
    if level != [] {
      var init := level[..|level| - 1];
      LevelNodesKey(init, fill, s);
      if HasKey(init, s) {
        var n :| 0 <= n < |init| && init[n].0 == s;
        assert level[n].0 == s;
      }
      if HasKey(level, s) && s != level[|level| - 1].0 {
        var n :| 0 <= n < |level| && level[n].0 == s;
        assert init[n].0 == s;
      }
    }
  }

  /** With distinct keys, each key's node sits at its own entry's position. */
  lemma {:induction false} LevelNodesValue(level: Level, fill: Color, j: nat)
    requires forall a, b :: 0 <= a < b < |level| ==> level[a].0 != level[b].0
    requires j < |level|
    ensures level[j].0 in LevelNodes(level, fill) && LevelNodes(level, fill)[level[j].0] == Node(level[j].1, fill)
  {
    if j < |level| - 1 {
      var init := level[..|level| - 1];
      LevelNodesValue(init, fill, j);
    }
  }

  /** With distinct keys, a level adds one node per entry. */
  lemma {:induction false} LevelNodesSize(level: Level, fill: Color)
    requires forall a, b :: 0 <= a < b < |level| ==> level[a].0 != level[b].0
    ensures |LevelNodes(level, fill)| == |level|
  {
    if level != [] {
      var init := level[..|level| - 1];
      var last := level[|level| - 1];
      LevelNodesSize(init, fill);
      LevelNodesKey(init, fill, last.0);
      assert !HasKey(init, last.0);
    }
  }

  /** Every entry of the level has its node, at its position, with the fill. */
  ghost predicate Drawn(nodes: map<string, Node>, level: Level, fill: Color)
  {
    forall n :: 0 <= n < |level| ==> level[n].0 in nodes && nodes[level[n].0] == Node(level[n].1, fill)
  }

  /** Nodes a later level does not overwrite stay drawn. */
  lemma KeepDrawn(nodes: map<string, Node>, nodes': map<string, Node>, level: Level, fill: Color)
    requires Drawn(nodes, level, fill)
    requires forall s :: s in nodes ==> s in nodes' && nodes'[s] == nodes[s]
    ensures Drawn(nodes', level, fill)
  {
  }

  /** Levels 0 to k - 1 are drawn with their fills, and every key drawn
      is shorter than k. */
  ghost predicate DrawnUpTo(nodes: map<string, Node>, levels: seq<Level>, k: nat)
    requires k <= |levels| && k <= |LevelFill|
  {
    && (forall j :: 0 <= j < k ==> Drawn(nodes, levels[j], LevelFill[j]))
    && (forall s {:trigger s in nodes} :: s in nodes ==> |s| < k)
  }

  /** Drawing level k adds one node per entry and keeps what was drawn. */
  lemma DrawStep(nodes: map<string, Node>, nodes': map<string, Node>, levels: seq<Level>, k: nat, fill: Color)
    requires Sized(levels) && 1 <= k <= Depth && fill == LevelFill[k]
    requires ReadyLevel(levels[k - 1], levels[k], k, k == 2)
    requires DrawnUpTo(nodes, levels, k)
    requires nodes' == nodes + LevelNodes(levels[k], fill)
    ensures DrawnUpTo(nodes', levels, k + 1)
    ensures |nodes'| == |nodes| + |levels[k]|
  {
    AddDisjoint(nodes, levels[k - 1], levels[k], LevelFill[k], k, k == 2);
    forall j | 0 <= j < k
      ensures Drawn(nodes', levels[j], LevelFill[j])
    {
      KeepDrawn(nodes, nodes', levels[j], LevelFill[j]);
    }
  }

  /** Adding a level whose keys are all k bits long to nodes whose keys are
      all shorter keeps the old nodes, adds one node per entry, and leaves
      every key at most k bits long. */
  lemma AddDisjoint(nodes: map<string, Node>, prev: Level, level: Level, fill: Color, k: nat, firstBitParent: bool)
    requires forall s {:trigger s in nodes} :: s in nodes ==> |s| < k
    requires ReadyLevel(prev, level, k, firstBitParent)
    ensures |nodes + LevelNodes(level, fill)| == |nodes| + |level|
    ensures forall s :: s in nodes ==> (nodes + LevelNodes(level, fill))[s] == nodes[s]
    ensures Drawn(nodes + LevelNodes(level, fill), level, fill)
    ensures forall s {:trigger s in nodes + LevelNodes(level, fill)} :: s in nodes + LevelNodes(level, fill) ==> |s| <= k
  {
    var added := LevelNodes(level, fill);
    forall s | s in added
      ensures |s| == k && s !in nodes
    {
      LevelNodesKey(level, fill, s);
    }
    forall m | 0 <= m < |level|
      ensures level[m].0 in added && added[level[m].0] == Node(level[m].1, fill)
    {
      LevelNodesValue(level, fill, m);
    }
    LevelNodesSize(level, fill);
    assert nodes.Keys !! added.Keys;
    assert (nodes + added).Keys == nodes.Keys + added.Keys;
  }

  /** One level's loop (lines 66-73, 76-84, 87-95, 98-106, 109-118): for each
      key, add its node to `nodes` and append the edge from the position of
      its parent key to its own. The level-1 loop draws from `root_pos`
      directly, which is what looking up the empty key in the root level
      gives. */
  method AddLevel(prev: Level, level: Level, firstBitParent: bool, fill: Color,
                  nodes: map<string, Node>, edges: seq<Line>)
    returns (nodes': map<string, Node>, edges': seq<Line>)
    requires |level| == 2 * |prev|
    requires forall m :: 0 <= m < |level| ==> Lookup(prev, ParentKey(level[m].0, firstBitParent)) == Some(prev[m / 2].1)
    ensures nodes' == nodes + LevelNodes(level, fill)
    ensures edges' == edges + LevelEdges(prev, level)
  {
    nodes', edges' := nodes, edges;
    for m := 0 to |level|
      invariant nodes' == nodes + LevelNodes(level[..m], fill)
      invariant edges' == edges + LevelEdges(prev, level)[..m]
    {
      var key := level[m].0;
      var parentPos := Lookup(prev, ParentKey(key, firstBitParent));
      assert parentPos == Some(prev[m / 2].1);
      LevelNodesStep(nodes, level, fill, m);
      LevelEdgesStep(prev, level, m);
      ghost var edges1 := edges + LevelEdges(prev, level)[..m + 1];
      assert edges1 == edges' + [Line(prev[m / 2].1, level[m].1, Yellow)];
      nodes' := nodes'[key := Node(level[m].1, fill)];
      edges' := edges' + [Line(parentPos.value, level[m].1, Yellow)];
    }
    assert level[..|level|] == level;
    assert LevelEdges(prev, level)[..|level|] == LevelEdges(prev, level);
  }

  /** The nodes of a level, one entry longer. */
  lemma LevelNodesStep(nodes: map<string, Node>, level: Level, fill: Color, m: nat)
    requires m < |level|
    ensures nodes + LevelNodes(level[..m + 1], fill) == (nodes + LevelNodes(level[..m], fill))[level[m].0 := Node(level[m].1, fill)]
  {
    assert level[..m + 1][..m] == level[..m];
  }

  /** The edges of level k of a tree. */
  ghost function LevelEdgesAt(levels: seq<Level>, k: nat): (edges: seq<Line>)
    requires Sized(levels) && 1 <= k <= Depth
    ensures |edges| == Pow2(k)
  {
    LevelEdges(levels[k - 1], levels[k])
  }

  /** The edges of levels 1 to k, in the order the loops append them. */
  ghost function AllEdges(levels: seq<Level>, k: nat): seq<Line>
    requires Sized(levels) && k <= Depth
  {
    if k == 0 then [] else AllEdges(levels, k - 1) + LevelEdgesAt(levels, k)
  }

  lemma AllEdgesByLevel(levels: seq<Level>)
    requires Sized(levels)
    ensures AllEdges(levels, Depth) == LevelEdgesAt(levels, 1) + LevelEdgesAt(levels, 2) + LevelEdgesAt(levels, 3)
                                       + LevelEdgesAt(levels, 4) + LevelEdgesAt(levels, 5)
  {
    assert AllEdges(levels, 1) == LevelEdgesAt(levels, 1);
    assert AllEdges(levels, 3) == AllEdges(levels, 1) + LevelEdgesAt(levels, 2) + LevelEdgesAt(levels, 3);
  }

  /** The nodes of levels 0 to k: the root, then each level's nodes in turn. */
  ghost function AllNodes(levels: seq<Level>, k: nat): map<string, Node>
    requires Sized(levels) && k <= Depth
  {
    if k == 0 then map["" := Node(RootPos, Blue)]
    else AllNodes(levels, k - 1) + LevelNodes(levels[k], LevelFill[k])
  }

  /** After levels 0 to k every entry of those levels has its node, and
      there are 2^(k+1) - 1 of them. */
  lemma {:induction false} AllNodesDrawn(levels: seq<Level>, k: nat)
    requires Ready(levels) && k <= Depth
    ensures DrawnUpTo(AllNodes(levels, k), levels, k + 1)
    ensures |AllNodes(levels, k)| == Pow2(k + 1) - 1
  {
    if k == 0 {
      RootDrawn(levels);
    } else {
      AllNodesDrawn(levels, k - 1);
      ReadyAt(levels, k, Depth);
      DrawStep(AllNodes(levels, k - 1), AllNodes(levels, k), levels, k, LevelFill[k]);
    }
  }

  /** The root alone is drawn blue. */
  lemma RootDrawn(levels: seq<Level>)
    requires Ready(levels)
    ensures DrawnUpTo(AllNodes(levels, 0), levels, 1)
    ensures |AllNodes(levels, 0)| == 1
  {
    assert Drawn(AllNodes(levels, 0), levels[0], LevelFill[0]);
  }

  /** Lines 55-118: the root node, then every level's nodes and edges. The
      five level loops differ only in the level, its fill and the level-2
      parent rule, so they run here as one loop over the levels. The edge
      list holds the 2, 4, 8, 16 and 32 edges of levels 1 to 5 in that
      order, so the slices `[:2]`, `[2:6]`, `[6:14]`, `[14:30]` and `[30:]`
      played at lines 125-151 are exactly one level each. */
  method NodesAndEdges(levels: seq<Level>) returns (nodes: map<string, Node>, edges: seq<Line>)
    requires Ready(levels)
    ensures |nodes| == 63 && |edges| == 62
    ensures edges[..2] == LevelEdgesAt(levels, 1)
    ensures edges[2..6] == LevelEdgesAt(levels, 2)
    ensures edges[6..14] == LevelEdgesAt(levels, 3)
    ensures edges[14..30] == LevelEdgesAt(levels, 4)
    ensures edges[30..] == LevelEdgesAt(levels, 5)
    ensures DrawnUpTo(nodes, levels, Depth + 1)
  {
    nodes, edges := map["" := Node(RootPos, Blue)], [];
    for k := 1 to Depth + 1
      invariant nodes == AllNodes(levels, k - 1)
      invariant edges == AllEdges(levels, k - 1)
    {
      ReadyAt(levels, k, Depth);
      nodes, edges := AddLevel(levels[k - 1], levels[k], k == 2, LevelFill[k], nodes, edges);
    }
    AllNodesDrawn(levels, Depth);
    AllEdgesByLevel(levels);
    FiveParts(LevelEdgesAt(levels, 1), LevelEdgesAt(levels, 2), LevelEdgesAt(levels, 3),
              LevelEdgesAt(levels, 4), LevelEdgesAt(levels, 5));
  }

  /** Five lists joined end to end are recovered by slicing at the running
      lengths. */
  lemma FiveParts<T>(a: seq<T>, b: seq<T>, c: seq<T>, d: seq<T>, e: seq<T>)
    ensures (a + b + c + d + e)[..|a|] == a
    ensures (a + b + c + d + e)[|a|..|a| + |b|] == b
    ensures (a + b + c + d + e)[|a| + |b|..|a| + |b| + |c|] == c
    ensures (a + b + c + d + e)[|a| + |b| + |c|..|a| + |b| + |c| + |d|] == d
    ensures (a + b + c + d + e)[|a| + |b| + |c| + |d|..] == e
  {
  }

  // ---------------------------------------------------------------------
  // The three highlighted paths (lines 159-288)
  // ---------------------------------------------------------------------

  /** The three paths the scene draws, by the number they lead to. */
  datatype PathChoice = ToZero | ToOne | ToThird

  /** The `path_sequence` lists (lines 160, 203 and 246). */
  function PathSequence(p: PathChoice): seq<string>
  {
    match p
    case ToZero => ["", "0", "00", "000", "0000", "00000"]
    case ToOne => ["", "1", "11", "111", "1111", "11111"]
    case ToThird => ["", "0", "01", "010", "0101", "01010"]
  }

  /** The keys each `if`/`elif` branch of the path loops looks up for step i
      (lines 168-182, 211-225 and 254-268): the start key (the root itself
      at step 0) and the end key. */
  function BranchKeys(p: PathChoice, i: nat): (string, string)
    requires i < Depth
  {
    match p
    case ToZero =>
      if i == 0 then ("", "0") else if i == 1 then ("0", "00") else if i == 2 then ("00", "000")
      else if i == 3 then ("000", "0000") else ("0000", "00000")
    case ToOne =>
      if i == 0 then ("", "1") else if i == 1 then ("1", "11") else if i == 2 then ("11", "111")
      else if i == 3 then ("111", "1111") else ("1111", "11111")
    case ToThird =>
      if i == 0 then ("", "0") else if i == 1 then ("0", "01") else if i == 2 then ("01", "010")
      else if i == 3 then ("010", "0101") else ("0101", "01010")
  }

  /** Each hand-written branch picks exactly `path_sequence[i]` and
      `path_sequence[i + 1]`, and each entry of a path extends the previous
      one by one bit, so the child's value halves to the parent's. */
  lemma PathStep(p: PathChoice, i: nat)
    requires i < Depth
    ensures var s, t := PathSequence(p)[i], PathSequence(p)[i + 1];
      BranchKeys(p, i) == (s, t) &&
      |s| == i && |t| == i + 1 && t[..i] == s && IsBitString(t) && IsBitString(s) &&
      Value(t) / 2 == Value(s)
  {
    var s, t := PathSequence(p)[i], PathSequence(p)[i + 1];
    BranchKeysMatch(p, i);
    PathBits(p, i);
    PathBits(p, i + 1);
    assert t[..i] == s && t == s + [t[i]];
    ValueSnoc(s, t[i]);
  }

  lemma BranchKeysMatch(p: PathChoice, i: nat)
    requires i < Depth
    ensures BranchKeys(p, i) == (PathSequence(p)[i], PathSequence(p)[i + 1])
  {
    if i == 0 {
    } else if i == 1 {
    } else if i == 2 {
    } else if i == 3 {
    } else {
      assert i == 4;
    }
  }

  lemma PathBits(p: PathChoice, i: nat)
    requires i <= Depth
    ensures |PathSequence(p)[i]| == i && IsBitString(PathSequence(p)[i])
  {
    var s := PathSequence(p)[i];
    assert forall j :: 0 <= j < |s| ==> s[j] == '0' || s[j] == '1';
  }

  /** A bit string of length k is the key of entry Value(s) of level k, and
      looking it up finds that entry's position. */
  lemma KeyPosition(levels: seq<Level>, k: nat, s: string)
    requires IsTree(levels) && k <= Depth && |s| == k && IsBitString(s)
    ensures Value(s) < |levels[k]| && levels[k][Value(s)].0 == s
    ensures Lookup(levels[k], s) == Some(levels[k][Value(s)].1)
  {
    TreeLevels(levels, k);
    BitsOfValue(s);
    LookupInLevel(levels[k], k, Value(s));
  }

  /** The edge from the last node of a path up to the number line: its
      start, and the number `number_line.number_to_point` is given. */
  datatype FinalEdge = FinalEdge(from: Point, toNumber: real)

  /** The number each path's final edge points at (lines 193, 236, 279). */
  function PathTarget(p: PathChoice): real
  {
    match p
    case ToZero => 0.0
    case ToOne => 1.0
    case ToThird => 0.3333
  }

  /** Step i of path p is drawn as `e`: the red copy of the yellow tree
      edge into the step's end node, whose entry is the child of the start
      node's entry. */
  ghost predicate Retraces(levels: seq<Level>, p: PathChoice, i: nat, e: Line)
    requires |levels| == Depth + 1 && i < Depth
  {
    var a, b := Value(PathSequence(p)[i]), Value(PathSequence(p)[i + 1]);
    && a < |levels[i]| && b < |levels[i + 1]| && b / 2 == a
    && levels[i][a].0 == PathSequence(p)[i] && levels[i + 1][b].0 == PathSequence(p)[i + 1]
    && e == Line(levels[i][a].1, levels[i + 1][b].1, Red)
    && |levels[i + 1]| == 2 * |levels[i]|
    && e == LevelEdges(levels[i], levels[i + 1])[b].(color := Red)
  }

  /** The edge one branch of a path loop draws retraces the tree. */
  lemma PathEdge(levels: seq<Level>, p: PathChoice, i: nat)
    requires IsTree(levels) && i < Depth
    ensures var (s, t) := BranchKeys(p, i);
      && Lookup(levels[i + 1], t).Some? && (i > 0 ==> Lookup(levels[i], s).Some?)
      && Retraces(levels, p, i, Line(if i == 0 then RootPos else Lookup(levels[i], s).value,
                                     Lookup(levels[i + 1], t).value, Red))
  {
    var path := PathSequence(p);
    StepRetraces(levels, p, i);
    BranchKeysMatch(p, i);
    PathBits(p, i);
    PathBits(p, i + 1);
    KeyPosition(levels, i, path[i]);
    KeyPosition(levels, i + 1, path[i + 1]);
    if i == 0 {
      assert levels[0][0].1 == RootPos;
    }
  }

  /** The red line between the entries of a step's two keys retraces the
      tree edge into the end entry. */
  lemma StepRetraces(levels: seq<Level>, p: PathChoice, i: nat)
    requires IsTree(levels) && i < Depth
    ensures var a, b := Value(PathSequence(p)[i]), Value(PathSequence(p)[i + 1]);
      && a < |levels[i]| && b < |levels[i + 1]|
      && Retraces(levels, p, i, Line(levels[i][a].1, levels[i + 1][b].1, Red))
  {
    var path := PathSequence(p);
    PathStep(p, i);
    KeyPosition(levels, i, path[i]);
    KeyPosition(levels, i + 1, path[i + 1]);
    TreeLevels(levels, i);
    TreeLevels(levels, i + 1);
  }

  /** One path loop (lines 160-197, 203-240, 246-282): a red edge per step
      between the positions of the branch's two keys, then the final edge
      from the last node to the path's number. Every red edge retraces the
      yellow tree edge into the step's end node. */
  method HighlightPath(levels: seq<Level>, p: PathChoice) returns (pathEdges: seq<Line>, final: FinalEdge)
    requires IsTree(levels)
    ensures |pathEdges| == |PathSequence(p)| - 1 == Depth
    ensures forall i :: 0 <= i < Depth ==> Retraces(levels, p, i, pathEdges[i])
    ensures var last := PathSequence(p)[Depth];
            Value(last) < |levels[Depth]| && levels[Depth][Value(last)].0 == last &&
            final == FinalEdge(levels[Depth][Value(last)].1, PathTarget(p))
  {
    var path := PathSequence(p);
    pathEdges := [];
    for i := 0 to |path| - 1
      invariant |pathEdges| == i
      invariant forall j :: 0 <= j < i ==> Retraces(levels, p, j, pathEdges[j])
    {
      PathEdge(levels, p, i);
      var (startKey, endKey) := BranchKeys(p, i);
      var startPos := if i == 0 then RootPos else Lookup(levels[i], startKey).value;
      var endPos := Lookup(levels[i + 1], endKey).value;
      pathEdges := pathEdges + [Line(startPos, endPos, Red)];
    }
    var last := path[Depth];
    KeyPosition(levels, Depth, last);
    final := FinalEdge(Lookup(levels[Depth], last).value, PathTarget(p));
  }

  // ---------------------------------------------------------------------
  // Which number a path stands for
  // ---------------------------------------------------------------------

  /** The binary fraction 0.s: the value of s over 2^|s|. */
  function Fraction(s: string): real
  {
    Value(s) as real / Pow2(|s|) as real
  }

  /** n copies of the character c. */
  function Repeat(c: char, n: nat): (s: string)
    ensures |s| == n
  {
    if n == 0 then "" else Repeat(c, n - 1) + [c]
  }

  /** The first k bits of 0.010101... */
  function Alternating(k: nat): (s: string)
    ensures |s| == k
  {
    if k == 0 then "" else Alternating(k - 1) + [if k % 2 == 0 then '1' else '0']
  }

  /** The three paths end at the five-bit prefixes of 0.000..., 0.111... and
      0.0101... */
  lemma PathEnds()
    ensures PathSequence(ToZero)[Depth] == Repeat('0', Depth)
    ensures PathSequence(ToOne)[Depth] == Repeat('1', Depth)
    ensures PathSequence(ToThird)[Depth] == Alternating(Depth)
  {
    assert Repeat('0', 2) == "00" && Repeat('1', 2) == "11" && Alternating(2) == "01";
    assert Repeat('0', 4) == "0000" && Repeat('1', 4) == "1111" && Alternating(4) == "0101";
  }

  /** A bit string's fraction lies in [0, 1). */
  lemma FractionBounds(s: string)
    requires IsBitString(s)
    ensures 0.0 <= Fraction(s) < 1.0
  {
    BitsOfValue(s);
    BelowOne(Value(s) as real, Pow2(|s|) as real);
  }

  lemma BelowOne(v: real, p: real)
    requires 0.0 <= v < p
    ensures 0.0 <= v / p < 1.0
  {
  }

  /** Going one level down a path refines the number: a 0 keeps the fraction
      and a 1 adds 1/2^(k+1), so every extension stays in [f, f + 1/2^k). */
  lemma FractionExtends(s: string, bit: char)
    requires bit == '0' || bit == '1'
    ensures Fraction(s + [bit]) == Fraction(s) + (if bit == '1' then 1.0 / (Pow2(|s| + 1) as real) else 0.0)
    ensures Fraction(s) <= Fraction(s + [bit]) < Fraction(s) + 1.0 / (Pow2(|s|) as real)
  {
    var t := s + [bit];
    ValueSnoc(s, bit);
    assert |t| == |s| + 1;
    SplitFraction(Value(s) as real, Value(t) as real, if bit == '1' then 1.0 else 0.0,
                  Pow2(|s|) as real, Pow2(|s| + 1) as real);
  }

  /** Appending a bit doubles the value and adds the bit. */
  lemma ValueSnoc(s: string, bit: char)
    ensures Value(s + [bit]) == 2 * Value(s) + (if bit == '1' then 1 else 0)
  {
    assert (s + [bit])[..|s|] == s;
  }

  /** With w = 2v + c and q = 2p, w / q = v / p + c / q, which for c in {0, 1} lies in
      [v / p, v / p + 1 / p). */
  lemma SplitFraction(v: real, w: real, c: real, p: real, q: real)
    requires p > 0.0 && q == 2.0 * p && w == 2.0 * v + c && (c == 0.0 || c == 1.0)
    ensures w / q == v / p + (if c == 1.0 then 1.0 / q else 0.0)
    ensures v / p <= w / q < v / p + 1.0 / p
  {
    assert w / q == v / p + c / q;
    assert c / q < 1.0 / p;
  }

  /** The all-zeros path is 0 at every depth. */
  lemma ZeroPathValue(n: nat)
    ensures Value(Repeat('0', n)) == 0 && Fraction(Repeat('0', n)) == 0.0
  {
    ZeroValue(n);
  }

  lemma {:induction false} ZeroValue(n: nat)
    ensures Value(Repeat('0', n)) == 0
  {
    if n > 0 {
      ZeroValue(n - 1);
      var s := Repeat('0', n);
      assert s[..n - 1] == Repeat('0', n - 1);
    }
  }

  /** The all-ones path after n bits is 1 - 1/2^n: the runner's position in
      Zeno's dichotomy, strictly below 1 and growing towards it. */
  lemma OnePathValue(n: nat)
    ensures Value(Repeat('1', n)) + 1 == Pow2(n)
    ensures Fraction(Repeat('1', n)) == PositionAfter(n)
    ensures Fraction(Repeat('1', n)) < 1.0 && Fraction(Repeat('1', n)) < Fraction(Repeat('1', n + 1))
  {
    OneValue(n);
    OneValue(n + 1);
    OneOver(Value(Repeat('1', n)) as real, Pow2(n) as real);
    OneOver(Value(Repeat('1', n + 1)) as real, Pow2(n + 1) as real);
    NeverArrives(n);
  }

  lemma {:induction false} OneValue(n: nat)
    ensures Value(Repeat('1', n)) + 1 == Pow2(n)
  {
    if n > 0 {
      OneValue(n - 1);
      var s := Repeat('1', n);
      assert s[..n - 1] == Repeat('1', n - 1);
    }
  }

  /** With v + 1 = p, v / p = 1 - 1/p. */
  lemma OneOver(v: real, p: real)
    requires p > 0.0 && v + 1.0 == p
    ensures v / p == 1.0 - 1.0 / p
  {
    assert v / p == (p - 1.0) / p;
  }

  /** 0.0101... taken to 2m bits is (1 - 1/4^m) / 3, so it stays below 1/3
      and misses it by exactly 1/(3 * 4^m); the odd-length prefix that ends
      in 0 has the same value. */
  lemma ThirdPathValue(m: nat)
    ensures 3 * Value(Alternating(2 * m)) + 1 == Pow2(2 * m)
    ensures 1.0 / 3.0 - Fraction(Alternating(2 * m)) == 1.0 / (3.0 * (Pow2(2 * m) as real))
    ensures Fraction(Alternating(2 * m + 1)) == Fraction(Alternating(2 * m))
  {
    AlternatingValue(m);
    var v := Value(Alternating(2 * m)) as real;
    var p := Pow2(2 * m) as real;
    assert 3.0 * v + 1.0 == p;
    ThirdGap(v, p);
    var s := Alternating(2 * m + 1);
    assert s[..2 * m] == Alternating(2 * m);
    FractionExtends(Alternating(2 * m), '0');
  }

  lemma {:induction false} AlternatingValue(m: nat)
    ensures 3 * Value(Alternating(2 * m)) + 1 == Pow2(2 * m)
  {
    if m > 0 {
      AlternatingValue(m - 1);
      var c := Alternating(2 * m - 2);
      var a := Alternating(2 * m - 1);
      assert a == c + ['0'];
      assert Alternating(2 * m) == a + ['1'];
      ValueSnoc(c, '0');
      ValueSnoc(a, '1');
      assert Pow2(2 * m) == 2 * Pow2(2 * m - 1) == 4 * Pow2(2 * m - 2);
    }
  }

  /** With 3v + 1 = p, 1/3 - v/p = 1/(3p). */
  lemma ThirdGap(v: real, p: real)
    requires p > 0.0 && 3.0 * v + 1.0 == p
    ensures 1.0 / 3.0 - v / p == 1.0 / (3.0 * p)
  {
    assert v == (p - 1.0) / 3.0;
    assert v / p == (p - 1.0) / (3.0 * p);
  }

  /** Each path's drawn target is where its bits lead: the zeros path is
      exactly 0, the ones path tends to 1, and the alternating path's five
      bits 0.01010 = 10/32 sit below 1/3, which the dot marks (line 286)
      while the final edge is aimed at 0.3333, 1/30000 short of it. */
  lemma PathTargets()
    ensures Fraction(PathSequence(ToZero)[Depth]) == PathTarget(ToZero)
    ensures Fraction(PathSequence(ToOne)[Depth]) == PathTarget(ToOne) - 1.0 / 32.0
    ensures Fraction(PathSequence(ToThird)[Depth]) == 10.0 / 32.0 < PathTarget(ToThird) < 1.0 / 3.0
    ensures 1.0 / 3.0 - PathTarget(ToThird) == 1.0 / 30000.0
  {
    PathEnds();
    ZeroTarget();
    OneTarget();
    ThirdTarget();
  }

  lemma ZeroTarget()
    ensures Fraction(Repeat('0', Depth)) == 0.0
  {
    ZeroPathValue(Depth);
  }

  lemma OneTarget()
    ensures Fraction(Repeat('1', Depth)) == 1.0 - 1.0 / 32.0
  {
    OnePathValue(Depth);
    assert Pow2(Depth) == 32;
  }

  lemma ThirdTarget()
    ensures Fraction(Alternating(Depth)) == 10.0 / 32.0
  {
    ThirdPathValue(2);
    assert Pow2(4) == 16;
    assert Fraction(Alternating(4)) == 5.0 / 16.0;
  }

  // ---------------------------------------------------------------------
  // Left-to-right layout
  // ---------------------------------------------------------------------

  function MinReal(a: real, b: real): real
  {
    if a <= b then a else b
  }

  /** Consecutive nodes of the level are at least g apart, left to right. */
  ghost predicate Spread(level: Level, g: real)
  {
    forall n :: 0 <= n < |level| - 1 ==> level[n].1.x + g <= level[n + 1].1.x
  }

  /** Two siblings are 2 * offset apart, and neighbouring cousins lose
      2 * offset of their parents' gap. */
  lemma ChildrenSpread(prev: Level, offset: real, g: real)
    requires Spread(prev, g)
    ensures Spread(Children(prev, offset), MinReal(2.0 * offset, g - 2.0 * offset))
  {
    var next := Children(prev, offset);
    forall m | 0 <= m < |next| - 1
      ensures next[m].1.x + MinReal(2.0 * offset, g - 2.0 * offset) <= next[m + 1].1.x
    {
      var n := m / 2;
      if m % 2 == 0 {
        assert m == 2 * n && m + 1 == 2 * n + 1;
      } else {
        assert m == 2 * n + 1 && m + 1 == 2 * (n + 1);
      }
    }
  }

  /** Levels 1 to 3 are drawn left to right in key order, at least 5, 2
      and 0.4 apart. */
  lemma LayoutSpread(levels: seq<Level>)
    requires IsTree(levels)
    ensures Spread(levels[1], 5.0) && Spread(levels[2], 2.0) && Spread(levels[3], 0.4)
  {
    ChildrenSpread(levels[0], Offsets[0], 0.0);
    assert levels[1][0].1.x == -2.5 && levels[1][1].1.x == 2.5;
    ChildrenSpread(levels[1], Offsets[1], 5.0);
    ChildrenSpread(levels[2], Offsets[2], 2.0);
  }

  /** At level 4 the subtrees of 0 and 1 overlap: "0111" is drawn at
      x = 0.3, right of "1000" at x = -0.3. */
  lemma SubtreesOverlap(levels: seq<Level>)
    requires IsTree(levels)
    ensures |levels[4]| == 16
    ensures levels[4][7].0 == "0111" && levels[4][8].0 == "1000"
    ensures levels[4][7].1.x == 0.3 && levels[4][8].1.x == -0.3
  {
    TreeLevels(levels, 4);
    OverlapKeys();
    OverlapPosition(levels);
  }

  lemma OverlapKeys()
    ensures Bits(7, 4) == "0111" && Bits(8, 4) == "1000"
  {
  }

  lemma OverlapPosition(levels: seq<Level>)
    requires IsTree(levels)
    ensures |levels[4]| == 16
    ensures levels[4][7].1.x == 0.3 && levels[4][8].1.x == -0.3
  {
    TreeLevels(levels, 4);
    assert levels[1][0].1.x == -2.5 && levels[1][1].1.x == 2.5;
    assert levels[2][1].1.x == -1.0 && levels[2][2].1.x == 1.0;
    assert levels[3][3].1.x == -0.2 && levels[3][4].1.x == 0.2;
  }

  // ---------------------------------------------------------------------
  // The scene
  // ---------------------------------------------------------------------

  datatype TreeScene = TreeScene(
    levels: seq<Level>, nodes: map<string, Node>, edges: seq<Line>,
    zeroPath: seq<Line>, zeroEnd: FinalEdge,
    onePath: seq<Line>, oneEnd: FinalEdge,
    thirdPath: seq<Line>, thirdEnd: FinalEdge, dot: real)

  /** `BinaryTreeToRealLine.construct`: the levels, 63 nodes, 62 edges, the
      three paths and the dot at 1/3 (line 286). */
  method Construct() returns (s: TreeScene)
    ensures IsTree(s.levels) && forall k :: 0 <= k <= Depth ==> IsLevel(s.levels[k], k)
    ensures |s.nodes| == 63 && |s.edges| == 62
    ensures |s.zeroPath| == |s.onePath| == |s.thirdPath| == Depth
    ensures s.zeroEnd.toNumber == 0.0 && s.oneEnd.toNumber == 1.0 && s.thirdEnd.toNumber == 0.3333
    ensures s.dot == 1.0 / 3.0
  {
    var levels := LevelPositions();
    forall k | 0 <= k <= Depth
      ensures IsLevel(levels[k], k)
    {
      TreeLevels(levels, k);
    }
    TreeReady(levels);
    var nodes, edges := NodesAndEdges(levels);
    var zeroPath, zeroEnd := HighlightPath(levels, ToZero);
    var onePath, oneEnd := HighlightPath(levels, ToOne);
    var thirdPath, thirdEnd := HighlightPath(levels, ToThird);
    s := TreeScene(levels, nodes, edges, zeroPath, zeroEnd, onePath, oneEnd, thirdPath, thirdEnd, 1.0 / 3.0);
  }
}
