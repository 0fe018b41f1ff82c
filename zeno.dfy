/** Zeno/zeno.py: the dichotomy scene. Seven halving steps from 0 toward the
    finish line at 1; each step draws a segment and a midpoint dot in the
    next palette colour and writes the next term of 1/2 + 1/4 + ... */
module Zeno {
  import opened Geometry
  import opened Dichotomy

  /** `for i in range(7)`. */
  const Steps: nat := 7

  /** `for j in range(5)`: the temporary terms used to measure the final layout. */
  const TempCount: nat := 5

  /** The temporary terms of the layout pass: the first without "+", every
      later one with it, denominators 2, 4, 8, ... and MathTex's default colour. */
  method TempFractions(count: nat) returns (temp: seq<Term>)
    ensures |temp| == count
    ensures forall j :: 0 <= j < count ==> (temp[j].plus <==> j > 0)
    ensures forall j :: 0 <= j < count ==> temp[j].denominator == Pow2(j + 1) && temp[j].color == White
  {
    temp := [];
    var j := 0;
    while j < count
      invariant 0 <= j <= count
      invariant |temp| == j
      invariant forall k :: 0 <= k < j ==> (temp[k].plus <==> k > 0)
      invariant forall k :: 0 <= k < j ==> temp[k].denominator == Pow2(k + 1) && temp[k].color == White
    {
      var frac;
      if j == 0 {
        frac := Term(false, Pow2(j + 1), White);
      } else {
        frac := Term(true, Pow2(j + 1), White);
      }
      temp := temp + [frac];
      j := j + 1;
    }
  }

  /** The main loop: `current_pos` starts at 0 and moves to the midpoint
      toward `target_pos = 1` each step. Step i draws the segment from the
      old position to the midpoint and a dot at the midpoint, both in
      `colors[i % len(colors)]`, and writes the term 1/2^(i+1).
      Afterwards the position is 1 - 1/2^steps < 1, the segments are
      contiguous, each segment is exactly as long as its term says, and the
      written terms add up to the position reached. */
  method HalvingLoop(steps: nat) returns (segments: seq<Segment>, dots: seq<Dot>, fractionGroup: seq<Term>, currentPos: real)
    ensures |segments| == steps && |dots| == steps && |fractionGroup| == steps
    ensures currentPos == PositionAfter(steps) && currentPos < Target
    ensures forall i {:trigger segments[i]} :: 0 <= i < steps ==>
      segments[i] == Segment(PositionAfter(i), PositionAfter(i + 1), Palette[i % |Palette|])
    ensures forall i :: 0 <= i < steps ==> dots[i] == Dot(segments[i].to, segments[i].color)
    ensures forall i :: 0 < i < steps ==> segments[i].from == segments[i - 1].to
    ensures forall i :: 0 <= i < steps ==>
      (fractionGroup[i].plus <==> i > 0) &&
      fractionGroup[i].denominator == Pow2(i + 1) &&
      fractionGroup[i].color == segments[i].color &&
      segments[i].to - segments[i].from == 1.0 / (fractionGroup[i].denominator as real)
    ensures TermsSum(fractionGroup) == currentPos
  {
    currentPos := 0.0;
    var targetPos := Target;
    segments, dots, fractionGroup := [], [], [];
    var i := 0;
    while i < steps
      invariant 0 <= i <= steps
      invariant currentPos == PositionAfter(i)
      invariant |segments| == i && |dots| == i && |fractionGroup| == i
      invariant forall k {:trigger segments[k]} :: 0 <= k < i ==>
        segments[k] == Segment(PositionAfter(k), PositionAfter(k + 1), Palette[k % |Palette|])
      invariant forall k {:trigger dots[k]} :: 0 <= k < i ==> dots[k] == Dot(PositionAfter(k + 1), Palette[k % |Palette|])
      invariant forall k :: 0 <= k < i ==> fractionGroup[k] == Term(k > 0, Pow2(k + 1), Palette[k % |Palette|])
    {
      var midpoint := Midpoint(currentPos, targetPos);
      HalvingStep(0.0, i);
      var color := Palette[i % |Palette|];
      var segment := Segment(currentPos, midpoint, color);
      var midpointDot := Dot(midpoint, color);
      var currentFrac;
      if i == 0 {
        currentFrac := Term(false, Pow2(i + 1), color);
      } else {
        currentFrac := Term(true, Pow2(i + 1), color);
      }
      fractionGroup := fractionGroup + [currentFrac];
      segments := segments + [segment];
      dots := dots + [midpointDot];
      currentPos := midpoint;
      i := i + 1;
    }
    NeverArrives(steps);
    forall k | 0 <= k < steps
      ensures segments[k].to - segments[k].from == 1.0 / (Pow2(k + 1) as real)
    {
      SegmentLength(k);
    }
    SeriesIsPosition(fractionGroup);
  }

  /** The whole scene with the source's constants: seven steps ending at
      127/128, and five temporary terms that agree with the first five live
      terms in sign and denominator. */
  method Construct() returns (segments: seq<Segment>, dots: seq<Dot>, fractionGroup: seq<Term>, temp: seq<Term>, currentPos: real)
    ensures |segments| == 7 && |dots| == 7 && |fractionGroup| == 7 && |temp| == 5
    ensures currentPos == 127.0 / 128.0
    ensures forall j :: 0 <= j < 5 ==>
      temp[j].plus == fractionGroup[j].plus && temp[j].denominator == fractionGroup[j].denominator
  {
    temp := TempFractions(TempCount);
    segments, dots, fractionGroup, currentPos := HalvingLoop(Steps);
    assert Pow2(7) == 128;
  }
}
