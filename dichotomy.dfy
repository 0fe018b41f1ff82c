/** The arithmetic of Zeno's dichotomy shared by both Zeno scenes: the runner
    starts somewhere before the finish line at 1 and repeatedly moves to the
    midpoint of what is left. Positions are dyadic rationals, so `real`
    represents them exactly. Segments and dots are kept in number-line
    coordinates; turning them into scene points is the renderer's affine
    `number_to_point`. */
module Dichotomy {
  import opened Geometry

  /** 2 to the power k (the source's `2**k`). */
  function Pow2(k: nat): (p: nat)
    ensures p >= 1
  {
    if k == 0 then 1 else 2 * Pow2(k - 1)
  }

  /** The colour list both scenes cycle through. */
  const Palette: seq<Color> := [Yellow, Orange, Pink, Purple, Blue, Teal, Maroon]

  /** The finish line. */
  const Target: real := 1.0

  /** One halving step: `(current_pos + target_pos) / 2`. */
  function Midpoint(current: real, target: real): real
  {
    (current + target) / 2.0
  }

  /** Closed form of the position reached after k halving steps from `start`. */
  function Approach(start: real, k: nat): real
  {
    Target - (Target - start) / (Pow2(k) as real)
  }

  /** Closed form of the position reached after k halving steps from 0: 1 - 1/2^k. */
  function PositionAfter(k: nat): real
  {
    1.0 - 1.0 / (Pow2(k) as real)
  }

  /** A coloured stretch of the number line from `from` to `to`. */
  datatype Segment = Segment(from: real, to: real, color: Color)

  /** A coloured dot on the number line. */
  datatype Dot = Dot(at: real, color: Color)

  /** A fraction term of the written series: `\frac{1}{denominator}`, preceded
      by a "+" sign when `plus` holds. */
  datatype Term = Term(plus: bool, denominator: nat, color: Color)

  /** The sum of the fractions a sequence of terms writes out. */
  function TermsSum(terms: seq<Term>): real
  {
    if terms == [] then 0.0
    else
      var last := terms[|terms| - 1];
      TermsSum(terms[..|terms| - 1]) + (if last.denominator == 0 then 0.0 else 1.0 / (last.denominator as real))
  }

  lemma Pow2Add(m: nat, k: nat)
    ensures Pow2(m + k) == Pow2(m) * Pow2(k)
  {
    if k > 0 {
      Pow2Add(m, k - 1);
    }
  }

  /** One step of the source's midpoint rule moves the closed form one step on. */
  lemma HalvingStep(start: real, k: nat)
    ensures Midpoint(Approach(start, k), Target) == Approach(start, k + 1)
  {
    var p := Pow2(k) as real;
    var q := (Target - start) / p;
    assert Pow2(k + 1) as real == 2.0 * p;
    DivDiv(Target - start, p, 2.0);
    assert Midpoint(Approach(start, k), Target) == Target - q / 2.0;
  }

  /** Continuing k steps from where m steps from 0 ended is the same as taking m + k steps. */
  lemma ApproachContinues(m: nat, k: nat)
    ensures Approach(PositionAfter(m), k) == PositionAfter(m + k)
  {
    Pow2Add(m, k);
    var pm := Pow2(m) as real;
    var pk := Pow2(k) as real;
    ProductAsReal(Pow2(m), Pow2(k));
    DivDiv(1.0, pm, pk);
    assert Target - PositionAfter(m) == 1.0 / pm;
  }

  lemma ProductAsReal(a: nat, b: nat)
    ensures (a * b) as real == (a as real) * (b as real)
  {
  }

  /** Dividing twice is dividing by the product. */
  lemma DivDiv(a: real, x: real, y: real)
    requires x > 0.0 && y > 0.0
    ensures (a / x) / y == a / (x * y)
  {
  }

  /** The runner never reaches the finish line: every position is strictly
      below 1, and positions strictly increase. */
  lemma NeverArrives(k: nat)
    ensures 0.0 <= PositionAfter(k) < Target
    ensures PositionAfter(k) < PositionAfter(k + 1)
  {
    var p := Pow2(k) as real;
    assert Pow2(k + 1) as real == 2.0 * p;
    assert 1.0 / (2.0 * p) < 1.0 / p;
  }

  /** Step i covers [1 - 1/2^i, 1 - 1/2^(i+1)], whose length is 1/2^(i+1):
      the fraction the scene writes for that step. */
  lemma SegmentLength(i: nat)
    ensures PositionAfter(i + 1) - PositionAfter(i) == 1.0 / (Pow2(i + 1) as real)
  {
    var p := Pow2(i) as real;
    assert Pow2(i + 1) as real == 2.0 * p;
    calc {
      PositionAfter(i + 1) - PositionAfter(i);
      1.0 / p - 1.0 / (2.0 * p);
      1.0 / (2.0 * p);
    }
  }

  /** The written series 1/2 + 1/4 + ... + 1/2^k adds up to where the runner stands. */
  lemma {:induction false} SeriesIsPosition(terms: seq<Term>)
    requires forall i :: 0 <= i < |terms| ==> terms[i].denominator == Pow2(i + 1)
    ensures TermsSum(terms) == PositionAfter(|terms|)
  {
    if terms != [] {
      var k := |terms| - 1;
      SeriesIsPosition(terms[..k]);
      SegmentLength(k);
    }
  }
}
