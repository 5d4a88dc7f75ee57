/** Picking the star under the cursor. The click handler scans every
    rendered star of every layer, already projected to canvas pixels, keeps
    the one with the strictly smallest squared distance to the cursor (so
    the first of several equally near stars wins), and treats it as hit
    when it lies within `HIT_RADIUS_PX` of the cursor. */
module HitTest {
  import opened Common

  /** `HIT_RADIUS_PX`. */
  const HitRadius: real := 12.0

  /** A rendered star projected to canvas pixels, with the catalog
      `originalIndex` its data record carries. */
  datatype ScreenStar = ScreenStar(x: real, y: real, star: int)

  /** The stars of all layers, layer after layer, each in buffer order:
      the order in which the handler visits them. */
  function Flatten(layers: seq<seq<ScreenStar>>): (r: seq<ScreenStar>)
    ensures |layers| > 0 ==> r == layers[0] + Flatten(layers[1..])
  {
    if |layers| == 0 then [] else layers[0] + Flatten(layers[1..])
  }

  /** `dx*dx + dy*dy`. */
  function Dist2(p: ScreenStar, mx: real, my: real): (d: real)
    ensures d >= 0.0
  {
    var dx := p.x - mx;
    var dy := p.y - my;
    dx * dx + dy * dy
  }

  /** Among the first `n` stars, the one at `k` is nearest to the cursor
      and strictly nearer than every star before it. */
  predicate FirstNearest(pts: seq<ScreenStar>, n: nat, mx: real, my: real, k: nat) {
    && k < n <= |pts|
    && (forall j :: 0 <= j < n ==> Dist2(pts[k], mx, my) <= Dist2(pts[j], mx, my))
    && (forall j :: 0 <= j < k ==> Dist2(pts[k], mx, my) < Dist2(pts[j], mx, my))
  }

  /** At most one star is the first nearest. */
  lemma FirstNearestUnique(pts: seq<ScreenStar>, n: nat, mx: real, my: real, k1: nat, k2: nat)
    requires FirstNearest(pts, n, mx, my, k1) && FirstNearest(pts, n, mx, my, k2)
    ensures k1 == k2
  {
    assert Dist2(pts[k1], mx, my) == Dist2(pts[k2], mx, my);
  }

  /** The handler's scan from star `i` on, `best` being the pick among the
      stars before `i` (none before the first star: the initial distance is
      `Infinity`). The result is the first nearest of all the stars, and
      there is one exactly when there is any star at all. */
  function NearestFrom(pts: seq<ScreenStar>, mx: real, my: real, i: nat, best: Option<nat>): (r: Option<nat>)
    requires i <= |pts|
    requires best.None? <==> i == 0
    requires best.Some? ==> FirstNearest(pts, i, mx, my, best.value)
    ensures r.None? <==> |pts| == 0
    ensures r.Some? ==> FirstNearest(pts, |pts|, mx, my, r.value)
    decreases |pts| - i
  {
    if i == |pts| then best
    else
      var d := Dist2(pts[i], mx, my);
      var next := if best.None? || d < Dist2(pts[best.value], mx, my) then Some(i) else best;
      NearestFrom(pts, mx, my, i + 1, next)
  }

  function Nearest(pts: seq<ScreenStar>, mx: real, my: real): Option<nat> {
    NearestFrom(pts, mx, my, 0, None)
  }

  /** `Math.sqrt(dist2) <= HIT_RADIUS_PX`, compared on squares. */
  predicate WithinHitRadius(d2: real) {
    d2 <= HitRadius * HitRadius
  }

  /** Comparing squared distances with the squared radius decides the same
      as comparing the distance, the square root, with the radius. */
  lemma RadiusBySquares(d2: real, root: real)
    requires root >= 0.0 && root * root == d2
    ensures root <= HitRadius <==> WithinHitRadius(d2)
  {
    if root <= HitRadius {
      assert root * root <= HitRadius * root;
      assert HitRadius * root <= HitRadius * HitRadius;
    } else {
      assert root * root > HitRadius * root;
      assert HitRadius * root > HitRadius * HitRadius;
    }
  }

  /** The click's target among stars in scan order: the catalog index of
      the nearest star when it is within the hit radius. There is a target
      exactly when some star lies within the radius, and then it is the
      first nearest star. */
  function PickAmong(pts: seq<ScreenStar>, mx: real, my: real): (r: Option<int>)
    ensures r.Some? <==> exists j :: 0 <= j < |pts| && WithinHitRadius(Dist2(pts[j], mx, my))
    ensures forall k: nat :: FirstNearest(pts, |pts|, mx, my, k) ==>
              r == if WithinHitRadius(Dist2(pts[k], mx, my)) then Some(pts[k].star) else None
  {
    match Nearest(pts, mx, my)
    case None => None
    case Some(k) =>
      assert forall k' :: FirstNearest(pts, |pts|, mx, my, k') ==> k' == k by {
        forall k' | FirstNearest(pts, |pts|, mx, my, k') ensures k' == k {
          FirstNearestUnique(pts, |pts|, mx, my, k, k');
        }
      }
      if WithinHitRadius(Dist2(pts[k], mx, my)) then Some(pts[k].star) else None
  }

  /** A star is visited exactly when it is a star of some layer. */
  lemma {:induction false} FlattenHolds(layers: seq<seq<ScreenStar>>, p: ScreenStar)
    ensures p in Flatten(layers) <==> exists l :: 0 <= l < |layers| && p in layers[l]
  {
    if |layers| > 0 {
      FlattenHolds(layers[1..], p);
      if p in Flatten(layers[1..]) {
        var l :| 0 <= l < |layers| - 1 && p in layers[1..][l];
        assert p in layers[l + 1];
      }
      if exists l :: 0 <= l < |layers| && p in layers[l] {
        var l :| 0 <= l < |layers| && p in layers[l];
        if l > 0 {
          assert p in layers[1..][l - 1];
        }
      }
    }
  }

  /** The click handler's target over all layers: there is one exactly
      when some star of some layer lies within the hit radius, and then it
      is the catalog index of such a star. */
  function Pick(layers: seq<seq<ScreenStar>>, mx: real, my: real): (r: Option<int>)
    ensures r.Some? <==> exists l, j :: 0 <= l < |layers| && 0 <= j < |layers[l]|
                                       && WithinHitRadius(Dist2(layers[l][j], mx, my))
    ensures r.Some? ==> exists l, j :: 0 <= l < |layers| && 0 <= j < |layers[l]|
                                      && layers[l][j].star == r.value
                                      && WithinHitRadius(Dist2(layers[l][j], mx, my))
  {
    var pts := Flatten(layers);
    var r := PickAmong(pts, mx, my);
    assert r.Some? ==> exists l, j :: 0 <= l < |layers| && 0 <= j < |layers[l]|
                                      && layers[l][j].star == r.value
                                      && WithinHitRadius(Dist2(layers[l][j], mx, my)) by {
      if r.Some? {
        var k := Nearest(pts, mx, my).value;
        assert FirstNearest(pts, |pts|, mx, my, k);
        FlattenHolds(layers, pts[k]);
        var l :| 0 <= l < |layers| && pts[k] in layers[l];
        var j :| 0 <= j < |layers[l]| && layers[l][j] == pts[k];
      }
    }
    assert (exists l, j :: 0 <= l < |layers| && 0 <= j < |layers[l]|
                           && WithinHitRadius(Dist2(layers[l][j], mx, my))) ==> r.Some? by {
      if exists l, j :: 0 <= l < |layers| && 0 <= j < |layers[l]|
                        && WithinHitRadius(Dist2(layers[l][j], mx, my)) {
        var l, j :| 0 <= l < |layers| && 0 <= j < |layers[l]|
                    && WithinHitRadius(Dist2(layers[l][j], mx, my));
        FlattenHolds(layers, layers[l][j]);
        var i :| 0 <= i < |pts| && pts[i] == layers[l][j];
      }
    }
    r
  }

  /** Two stars at pixels (100,100) and (200,200): a click at (108,100)
      hits the first, a click at (150,150), equally far from both and
      beyond the radius, hits nothing. */
  lemma TwoStarExample(a: int, b: int)
    ensures Pick([[ScreenStar(100.0, 100.0, a), ScreenStar(200.0, 200.0, b)]], 108.0, 100.0) == Some(a)
    ensures Pick([[ScreenStar(100.0, 100.0, a), ScreenStar(200.0, 200.0, b)]], 150.0, 150.0) == None
  {
    var pts := [ScreenStar(100.0, 100.0, a), ScreenStar(200.0, 200.0, b)];
    assert Flatten([pts]) == pts;
    assert Dist2(pts[0], 108.0, 100.0) == 64.0;
    assert FirstNearest(pts, 2, 108.0, 100.0, 0);
    assert Dist2(pts[0], 150.0, 150.0) == 5000.0 == Dist2(pts[1], 150.0, 150.0);
    assert FirstNearest(pts, 2, 150.0, 150.0, 0);
  }
}
