/** Zeno/zeno_old.py: the earlier dichotomy scene. Five halving steps from 0,
    then (after a camera zoom that is pure rendering) three more steps that
    continue from where the first loop stopped, appending to the same
    segment and dot lists. */
module ZenoOld {
  import opened Geometry
  import opened Dichotomy

  /** `for i in range(5)` of the first loop. */
  const FirstSteps: nat := 5

  /** `for i in range(3)` of the zoomed loop. */
  const ZoomSteps: nat := 3

  /** A written fraction term with the shift the scene gives it:
      `current_frac.shift(UP, RIGHT*(i-2))`, i.e. by UP + RIGHT*(i-2). */
  datatype PlacedTerm = PlacedTerm(term: Term, shift: Point)

  /** The first loop. Step i draws the segment from the current position to
      the midpoint toward 1, writes the term 1/2^(i+1) (with "+" after the
      first) shifted to (i - 2, 1), and drops a dot at the midpoint.
      `fraction_terms` is created but never appended to, so it stays empty. */
  method FirstLoop(steps: nat)
    returns (segments: seq<Segment>, dots: seq<Dot>, written: seq<PlacedTerm>, fractionTerms: seq<Term>, currentPos: real)
    ensures |segments| == steps && |dots| == steps && |written| == steps
    ensures fractionTerms == []
    ensures currentPos == PositionAfter(steps) && currentPos < Target
    ensures forall i {:trigger segments[i]} :: 0 <= i < steps ==>
      segments[i] == Segment(PositionAfter(i), PositionAfter(i + 1), Palette[i % |Palette|])
    ensures forall i :: 0 <= i < steps ==> dots[i] == Dot(segments[i].to, segments[i].color)
    ensures forall i :: 0 <= i < steps ==>
      (written[i].term.plus <==> i > 0) &&
      written[i].term.denominator == Pow2(i + 1) &&
      written[i].term.color == segments[i].color &&
      segments[i].to - segments[i].from == 1.0 / (written[i].term.denominator as real)
    ensures forall i :: 0 <= i < steps ==> written[i].shift == Point(i as real - 2.0, 1.0)
  {
    currentPos := 0.0;
    var targetPos := Target;
    segments, dots, written, fractionTerms := [], [], [], [];
    var i := 0;
    while i < steps
      invariant 0 <= i <= steps
      invariant currentPos == PositionAfter(i)
      invariant |segments| == i && |dots| == i && |written| == i && fractionTerms == []
      invariant forall k {:trigger segments[k]} :: 0 <= k < i ==>
        segments[k] == Segment(PositionAfter(k), PositionAfter(k + 1), Palette[k % |Palette|])
      invariant forall k {:trigger dots[k]} :: 0 <= k < i ==> dots[k] == Dot(PositionAfter(k + 1), Palette[k % |Palette|])
      invariant forall k :: 0 <= k < i ==> written[k].term == Term(k > 0, Pow2(k + 1), Palette[k % |Palette|])
      invariant forall k :: 0 <= k < i ==> written[k].shift == Point(k as real - 2.0, 1.0)
    {
      var midpoint := Midpoint(currentPos, targetPos);
      HalvingStep(0.0, i);
      var color := Palette[i % |Palette|];
      var segment := Segment(currentPos, midpoint, color);
      var shift := Up.Plus(Right.Scaled(i as real - 2.0));
      assert shift == Point(i as real - 2.0, 1.0);
      var currentFrac;
      if i == 0 {
        currentFrac := PlacedTerm(Term(false, Pow2(i + 1), color), shift);
      } else {
        currentFrac := PlacedTerm(Term(true, Pow2(i + 1), color), shift);
      }
      written := written + [currentFrac];
      var midpointDot := Dot(midpoint, color);
      segments := segments + [segment];
      dots := dots + [midpointDot];
      currentPos := midpoint;
      i := i + 1;
    }
    NeverArrives(steps);
    forall k | 0 <= k < steps
      ensures segments[k].to - segments[k].from == 1.0 / (Pow2(k + 1) as real)
    {
      SegmentLength(k);
    }
  }

  /** The zoomed loop: `current_zoom_pos` starts at `zoomStart` and halves
      the distance to `target_zoom_pos = 1.0` each step, appending a segment
      and a dot coloured `colors[(i + 3) % len(colors)]` to the lists the first
      loop filled. */
  method ZoomLoop(segments0: seq<Segment>, dots0: seq<Dot>, zoomStart: real, steps: nat)
    returns (segments: seq<Segment>, dots: seq<Dot>, currentZoomPos: real)
    ensures |segments| == |segments0| + steps && |dots| == |dots0| + steps
    ensures segments[..|segments0|] == segments0 && dots[..|dots0|] == dots0
    ensures currentZoomPos == Approach(zoomStart, steps)
    ensures forall n :: |segments0| <= n < |segments| ==>
      var i := n - |segments0|;
      segments[n] == Segment(Approach(zoomStart, i), Approach(zoomStart, i + 1), Palette[(i + 3) % |Palette|])
    ensures forall n :: |dots0| <= n < |dots| ==>
      var i := n - |dots0|;
      dots[n] == Dot(Approach(zoomStart, i + 1), Palette[(i + 3) % |Palette|])
  {
    currentZoomPos := zoomStart;
    var targetZoomPos := Target;
    segments, dots := segments0, dots0;
    assert Approach(zoomStart, 0) == zoomStart;
    var i := 0;
    while i < steps
      invariant 0 <= i <= steps
      invariant currentZoomPos == Approach(zoomStart, i)
      invariant |segments| == |segments0| + i && |dots| == |dots0| + i
      invariant segments[..|segments0|] == segments0 && dots[..|dots0|] == dots0
      invariant forall n :: |segments0| <= n < |segments| ==>
        var k := n - |segments0|;
        segments[n] == Segment(Approach(zoomStart, k), Approach(zoomStart, k + 1), Palette[(k + 3) % |Palette|])
      invariant forall n :: |dots0| <= n < |dots| ==>
        var k := n - |dots0|;
        dots[n] == Dot(Approach(zoomStart, k + 1), Palette[(k + 3) % |Palette|])
    {
      var midpoint := Midpoint(currentZoomPos, targetZoomPos);
      HalvingStep(zoomStart, i);
      var color := Palette[(i + 3) % |Palette|];
      var segment := Segment(currentZoomPos, midpoint, color);
      var midpointDot := Dot(midpoint, color);
      segments := segments + [segment];
      dots := dots + [midpointDot];
      currentZoomPos := midpoint;
      i := i + 1;
    }
  }

  /** The whole scene with the source's constants. The first loop stops at
      `zoom_start_pos = 1 - 1/32`; the zoomed loop continues from there and
      stops at 1 - 1/256, still short of 1. Across both loops the eight
      segments are exactly the first eight halving steps from 0, end to end,
      and the eight dots sit at their right ends. */
  method Construct()
    returns (segments: seq<Segment>, dots: seq<Dot>, written: seq<PlacedTerm>, zoomStartPos: real, currentZoomPos: real)
    ensures zoomStartPos == 31.0 / 32.0
    ensures currentZoomPos == 255.0 / 256.0 && currentZoomPos < Target
    ensures |segments| == 8 && |dots| == 8 && |written| == 5
    ensures forall i :: 0 <= i < 8 ==>
      segments[i].from == PositionAfter(i) && segments[i].to == PositionAfter(i + 1) &&
      dots[i].at == segments[i].to
    ensures forall i :: 0 < i < 8 ==> segments[i].from == segments[i - 1].to
  {
    var firstSegments, firstDots, fractionTerms, currentPos;
    firstSegments, firstDots, written, fractionTerms, currentPos := FirstLoop(FirstSteps);
    zoomStartPos := currentPos;
    segments, dots, currentZoomPos := ZoomLoop(firstSegments, firstDots, zoomStartPos, ZoomSteps);
    forall n | 0 <= n < 8
      ensures segments[n].from == PositionAfter(n) && segments[n].to == PositionAfter(n + 1)
      ensures dots[n].at == segments[n].to
    {
      if n < FirstSteps {
        assert segments[n] == segments[..FirstSteps][n] == firstSegments[n];
        assert dots[n] == dots[..FirstSteps][n] == firstDots[n];
      } else {
        ApproachContinues(FirstSteps, n - FirstSteps);
        ApproachContinues(FirstSteps, n - FirstSteps + 1);
      }
    }
    ApproachContinues(FirstSteps, ZoomSteps);
    assert Pow2(5) == 32 && Pow2(8) == 256;
    NeverArrives(8);
  }
}
