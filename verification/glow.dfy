/** The arithmetic of the glow replay (`animateGlowingLine`). A saved
    polyline is replayed by sweeping a band of fixed length along it: the
    band's position is measured as a ratio of the whole path length, each
    segment owns the slice of ratios its length accounts for, and the part
    of each segment under the band is drawn. Segment lengths are given
    (they are distances between catalog positions); every one is positive. */
module Glow {
  import opened Common

  /** `GLOW_ANIM_DURATION`, in milliseconds. */
  const Duration: real := 1500.0
  /** How many path lengths the band's head travels over the animation. */
  const Speed: real := 1.5
  /** The band's length, as a ratio of the path length. */
  const BandLength: real := 0.2
  /** How much opacity the line loses over the animation. */
  const Fade: real := 0.8

  /** `Math.min(1, elapsed / GLOW_ANIM_DURATION)`: never above 1, at least 0
      once time has started, and 1 exactly from the duration on. */
  function Progress(elapsed: real): (p: real)
    ensures p <= 1.0
    ensures 0.0 <= elapsed ==> 0.0 <= p
    ensures elapsed <= 0.0 ==> p <= 0.0
    ensures p == 1.0 <==> elapsed >= Duration
  {
    Min(1.0, elapsed / Duration)
  }

  /** The band's leading edge (`glowStartFactor`). */
  function Head(p: real): real {
    p * Speed
  }

  /** The band's trailing edge (`glowEndFactor`). */
  function Tail(p: real): real {
    p * Speed - BandLength
  }

  /** The line's opacity, `Math.max(0, 1 - progress * 0.8)`: within
      [0.2, 1] for every progress the animation produces. */
  function Opacity(p: real): (o: real)
    ensures o >= 0.0
    ensures 0.0 <= p <= 1.0 ==> 1.0 - Fade <= o <= 1.0
  {
    Max(0.0, 1.0 - p * Fade)
  }

  /** Later frames never move the band backwards or brighten the line, and
      the band always has the same length. */
  lemma BandMonotone(t1: real, t2: real)
    requires t1 <= t2
    ensures Head(Progress(t1)) <= Head(Progress(t2))
    ensures Tail(Progress(t1)) <= Tail(Progress(t2))
    ensures Opacity(Progress(t2)) <= Opacity(Progress(t1))
    ensures Head(Progress(t1)) - Tail(Progress(t1)) == BandLength
  {
  }

  predicate AllPositive(s: seq<real>) {
    forall i :: 0 <= i < |s| ==> s[i] > 0.0
  }

  /** The sum of `s[i..]`. */
  function SumFrom(s: seq<real>, i: nat): (r: real)
    requires i <= |s|
    ensures AllPositive(s) ==> r >= 0.0
    ensures AllPositive(s) && i < |s| ==> r >= s[i]
    decreases |s| - i
  {
    if i == |s| then 0.0 else s[i] + SumFrom(s, i + 1)
  }

  /** `calculatePolylineLength`: the sum of the segment lengths. */
  function Total(lengths: seq<real>): real {
    SumFrom(lengths, 0)
  }

  /** Each segment's share of the path (`segmentRatio`). */
  function Ratios(lengths: seq<real>): (r: seq<real>)
    requires AllPositive(lengths)
    ensures |r| == |lengths| && AllPositive(r)
  {
    var t := Total(lengths);
    var r := seq(|lengths|, k requires 0 <= k < |lengths| => lengths[k] / t);
    forall k | 0 <= k < |r| ensures r[k] > 0.0 {
      DivMonotone(0.0, lengths[k], t);
    }
    r
  }

  lemma {:induction false} SumOfRatios(lengths: seq<real>, i: nat)
    requires AllPositive(lengths) && i <= |lengths| && 0 < |lengths|
    ensures SumFrom(Ratios(lengths), i) == SumFrom(lengths, i) / Total(lengths)
    decreases |lengths| - i
  {
    var t := Total(lengths);
    var ratios := Ratios(lengths);
    if i < |lengths| {
      SumOfRatios(lengths, i + 1);
      var rest := SumFrom(lengths, i + 1);
      calc {
        SumFrom(ratios, i);
        ratios[i] + SumFrom(ratios, i + 1);
        lengths[i] / t + rest / t;
        { DivAdd(lengths[i], rest, t); }
        (lengths[i] + rest) / t;
      }
    }
  }

  /** The shares of a non-empty path add up to the whole path. */
  lemma RatiosSumToOne(lengths: seq<real>)
    requires AllPositive(lengths) && 0 < |lengths|
    ensures SumFrom(Ratios(lengths), 0) == 1.0
  {
    SumOfRatios(lengths, 0);
    DivSelf(Total(lengths));
  }

  /** A drawn sub-segment: segment `segment` from local parameter `from` to
      `to` (0 is the segment's first star, 1 its second). */
  datatype Piece = Piece(segment: nat, from: real, to: real)

  /** `currentSegmentGlowStart`. */
  function LocalFrom(tail: real, acc: real, ratio: real): real
    requires ratio > 0.0
  {
    Max(0.0, (tail - acc) / ratio)
  }

  /** `currentSegmentGlowEnd`. */
  function LocalTo(head: real, acc: real, ratio: real): real
    requires ratio > 0.0
  {
    Min(1.0, (head - acc) / ratio)
  }

  /** The loop of one animation frame from segment `i` on, `acc` being the
      ratio at which segment `i` starts: every emitted piece lies inside its
      segment with `0 <= from < to <= 1`, and pieces come in segment order. */
  function PiecesFrom(ratios: seq<real>, i: nat, acc: real, head: real, tail: real): (ps: seq<Piece>)
    requires i <= |ratios| && AllPositive(ratios)
    ensures forall k :: 0 <= k < |ps| ==>
              i <= ps[k].segment < |ratios| && 0.0 <= ps[k].from < ps[k].to <= 1.0
    ensures forall k, l :: 0 <= k < l < |ps| ==> ps[k].segment < ps[l].segment
    decreases |ratios| - i
  {
    if i == |ratios| then []
    else
      var r := ratios[i];
      var from := LocalFrom(tail, acc, r);
      var to := LocalTo(head, acc, r);
      (if from < to then [Piece(i, from, to)] else []) + PiecesFrom(ratios, i + 1, acc + r, head, tail)
  }

  /** The pieces drawn in the frame at progress `p`: each lies inside one
      of the segments, with `0 <= from < to <= 1`, and at most one piece is
      drawn per segment, in path order. */
  function GlowPieces(lengths: seq<real>, p: real): (ps: seq<Piece>)
    requires AllPositive(lengths)
    ensures forall k :: 0 <= k < |ps| ==>
              ps[k].segment < |lengths| && 0.0 <= ps[k].from < ps[k].to <= 1.0
    ensures forall k, l :: 0 <= k < l < |ps| ==> ps[k].segment < ps[l].segment
  {
    PiecesFrom(Ratios(lengths), 0, 0.0, Head(p), Tail(p))
  }

  /** The reading of the replay as geometry: segment `i` covers the ratios
      [acc, acc + r] of the path, and what is drawn of it is its overlap
      with the band [tail, head], mapped to the segment's own parameter. */
  function BandFrom(ratios: seq<real>, i: nat, acc: real, head: real, tail: real): seq<Piece>
    requires i <= |ratios| && AllPositive(ratios)
    decreases |ratios| - i
  {
    if i == |ratios| then []
    else
      var r := ratios[i];
      var lo := Max(acc, tail);
      var hi := Min(acc + r, head);
      (if lo < hi then [Piece(i, (lo - acc) / r, (hi - acc) / r)] else [])
        + BandFrom(ratios, i + 1, acc + r, head, tail)
  }

  lemma DivAdd(a: real, b: real, t: real)
    requires t != 0.0
    ensures a / t + b / t == (a + b) / t
  {
  }

  lemma DivSelf(r: real)
    requires r != 0.0
    ensures r / r == 1.0
  {
  }

  lemma DivMonotone(a: real, b: real, r: real)
    requires r > 0.0
    ensures a <= b <==> a / r <= b / r
    ensures a < b <==> a / r < b / r
  {
    assert (b - a) / r == b / r - a / r;
    if a < b {
      assert (b - a) / r > 0.0;
    } else {
      assert (a - b) / r >= 0.0;
    }
  }

  /** Clamping the local parameters to [0, 1] is the same as intersecting
      the segment's ratio interval with the band. */
  lemma ClipIsOverlap(acc: real, r: real, head: real, tail: real)
    requires r > 0.0
    ensures LocalFrom(tail, acc, r) == (Max(acc, tail) - acc) / r
    ensures LocalTo(head, acc, r) == (Min(acc + r, head) - acc) / r
    ensures LocalFrom(tail, acc, r) < LocalTo(head, acc, r) <==> Max(acc, tail) < Min(acc + r, head)
  {
    DivMonotone(0.0, tail - acc, r);
    DivMonotone(head - acc, r, r);
    assert r / r == 1.0;
    assert 0.0 / r == 0.0;
    DivMonotone(Max(acc, tail) - acc, Min(acc + r, head) - acc, r);
  }

  /** The frame loop draws exactly the overlap of each segment with the
      band. */
  lemma {:induction false} PiecesAreOverlaps(ratios: seq<real>, i: nat, acc: real, head: real, tail: real)
    requires i <= |ratios| && AllPositive(ratios)
    ensures PiecesFrom(ratios, i, acc, head, tail) == BandFrom(ratios, i, acc, head, tail)
    decreases |ratios| - i
  {
    if i < |ratios| {
      var r := ratios[i];
      var from, to := LocalFrom(tail, acc, r), LocalTo(head, acc, r);
      var lo, hi := Max(acc, tail), Min(acc + r, head);
      ClipIsOverlap(acc, r, head, tail);
      assert (if from < to then [Piece(i, from, to)] else [])
          == (if lo < hi then [Piece(i, (lo - acc) / r, (hi - acc) / r)] else []);
      PiecesAreOverlaps(ratios, i + 1, acc + r, head, tail);
    }
  }

  /** A band whose head has not passed the current segment's start draws
      nothing from there on. */
  lemma {:induction false} NothingBehind(ratios: seq<real>, i: nat, acc: real, head: real, tail: real)
    requires i <= |ratios| && AllPositive(ratios)
    requires head <= acc
    ensures PiecesFrom(ratios, i, acc, head, tail) == []
    decreases |ratios| - i
  {
    if i < |ratios| {
      DivMonotone(head - acc, 0.0, ratios[i]);
      assert 0.0 / ratios[i] == 0.0;
      NothingBehind(ratios, i + 1, acc + ratios[i], head, tail);
    }
  }

  /** A band whose tail has passed the end of the path draws nothing. */
  lemma {:induction false} NothingAhead(ratios: seq<real>, i: nat, acc: real, head: real, tail: real)
    requires i <= |ratios| && AllPositive(ratios)
    requires acc + SumFrom(ratios, i) <= tail
    ensures PiecesFrom(ratios, i, acc, head, tail) == []
    decreases |ratios| - i
  {
    if i < |ratios| {
      var r := ratios[i];
      DivSelf(r);
      DivMonotone(r, tail - acc, r);
      NothingAhead(ratios, i + 1, acc + r, head, tail);
    }
  }

  /** A band that overlaps the rest of the path draws something. */
  lemma {:induction false} SomethingInside(ratios: seq<real>, i: nat, acc: real, head: real, tail: real)
    requires i < |ratios| && AllPositive(ratios)
    requires tail < head && acc < head && tail < acc + SumFrom(ratios, i)
    ensures PiecesFrom(ratios, i, acc, head, tail) != []
    decreases |ratios| - i
  {
    var r := ratios[i];
    ClipIsOverlap(acc, r, head, tail);
    if !(Max(acc, tail) < Min(acc + r, head)) {
      // the band lies wholly beyond this segment
      assert acc + r <= tail;
      assert i + 1 < |ratios|;
      SomethingInside(ratios, i + 1, acc + r, head, tail);
    }
  }

  /** A frame draws something exactly when the band overlaps the path:
      for progress strictly between 0 and 0.8. In particular nothing is
      drawn at progress 0 or at progress 1, and the line is already gone
      for the last fifth of the animation. */
  lemma GlowVisible(lengths: seq<real>, p: real)
    requires AllPositive(lengths) && 0 < |lengths|
    ensures GlowPieces(lengths, p) != [] <==> 0.0 < p < (1.0 + BandLength) / Speed
  {
    var ratios := Ratios(lengths);
    RatiosSumToOne(lengths);
    if p <= 0.0 {
      NothingBehind(ratios, 0, 0.0, Head(p), Tail(p));
    } else if Tail(p) >= 1.0 {
      NothingAhead(ratios, 0, 0.0, Head(p), Tail(p));
    } else {
      SomethingInside(ratios, 0, 0.0, Head(p), Tail(p));
    }
  }

  /** The example of three stars whose two segments have lengths 1 and 3:
      the first frame and the last frame draw nothing. */
  lemma ThreeStarExample()
    ensures GlowPieces([1.0, 3.0], Progress(0.0)) == []
    ensures GlowPieces([1.0, 3.0], Progress(Duration)) == []
  {
    GlowVisible([1.0, 3.0], Progress(0.0));
    GlowVisible([1.0, 3.0], Progress(Duration));
  }
}
