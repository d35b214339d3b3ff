/** The integer line of the PNG export: error-driven steps that stay within half a pixel of the segment. */
module Rasteriser {
  datatype Pixel = Pixel(x: int, y: int)

  function Abs(v: int): int {
    if v < 0 then -v else v
  }

  function Max(a: int, b: int): int {
    if a > b then a else b
  }

  // The direction of a step along one axis; equal coordinates give -1.
  function Direction(from: int, to: int): int {
    if from < to then 1 else -1
  }

  // After i x-steps and j y-steps the centre is within half a pixel of the segment, measured across it:
  // the deviation |dx * j - dy * i| / max(dx, dy) is at most one half.
  ghost predicate NearSegment(dx: int, dy: int, i: int, j: int) {
    2 * Abs(dx * j - dy * i) <= Max(dx, dy)
  }

  // The k-th centre: i x-steps and j y-steps from the start, k of them along the longer axis, near the segment.
  ghost predicate Centre(x0: int, y0: int, x1: int, y1: int, c: Pixel, k: int, i: int, j: int) {
    && k == Max(i, j)
    && c == Pixel(x0 + Direction(x0, x1) * i, y0 + Direction(y0, y1) * j)
    && 0 <= i <= Abs(x1 - x0) && 0 <= j <= Abs(y1 - y0)
    && NearSegment(Abs(x1 - x0), Abs(y1 - y0), i, j)
  }

  // One step past the end of the shorter axis is a whole pixel off.
  lemma PastEndIsFar(long: int, short: int, i: int)
    requires 0 <= short && 0 <= i <= long
    ensures long * (short + 1) - short * i >= long
  {
    assert long * (short + 1) - short * i == long + short * (long - i);
    assert short * (long - i) >= 0;
  }

  // The step along the longer axis, in terms of the deviation d = long * s - short * l.
  lemma DeviationStep(long: int, short: int, d: int)
    requires 0 <= short <= long && -long <= 2 * d <= long
    ensures 2 * (d + long - short) >= -long + 2 * (long - short)
    ensures 2 * (d + long - short) <= long ==> -long <= 2 * (d + long - short) <= long
    ensures 2 * (d + long - short) > long ==> -long <= 2 * (d - short) <= long
  {
  }

  // One pass of the loop body on the offsets i and j.
  lemma StepStaysNear(dx: int, dy: int, i: int, j: int)
    requires 0 <= i <= dx && 0 <= j <= dy && NearSegment(dx, dy, i, j) && Max(i, j) < Max(dx, dy)
    requires if dx >= dy then j <= i else i <= j
    ensures var twice := 2 * ((j + 1) * dx - (i + 1) * dy);
      var i' := if twice >= -dy then i + 1 else i;
      var j' := if twice <= dx then j + 1 else j;
      && 0 <= i' <= dx && 0 <= j' <= dy && NearSegment(dx, dy, i', j')
      && Max(i', j') == Max(i, j) + 1
      && if dx >= dy then i' == i + 1 && j' <= i' else j' == j + 1 && i' <= j'
  {
    var d := dx * j - dy * i;
    assert dx * (j + 1) == dx * j + dx && dy * (i + 1) == dy * i + dy;
    assert (j + 1) * dx == dx * (j + 1) && (i + 1) * dy == dy * (i + 1);
    if dx >= dy {
      DeviationStep(dx, dy, d);
      PastEndIsFar(dx, dy, i + 1);
    } else {
      DeviationStep(dy, dx, -d);
      PastEndIsFar(dy, dx, j + 1);
    }
  }

  lemma Distribute(a: int, b: int, c: int)
    ensures a * (b + c) == a * b + a * c
  {
  }

  lemma AtLeastOnce(a: int, t: int)
    requires a > 0 && t >= 1
    ensures a * t >= a
  {
    Distribute(a, 1, t - 1);
    assert a * (t - 1) >= 0;
  }

  // With all steps along the longer axis done, the shorter axis has arrived too.
  lemma ShortAxisArrived(long: int, short: int, s: int)
    requires 0 < long && 0 <= s <= short && -long <= 2 * (long * s - short * long) <= long
    ensures s == short
  {
    var t := short - s;
    assert long * short == long * s + long * t by { Distribute(long, s, t); }
    if t >= 1 {
      AtLeastOnce(long, t);
    }
  }

  lemma LastStepArrives(dx: int, dy: int, i: int, j: int)
    requires 0 <= i <= dx && 0 <= j <= dy && NearSegment(dx, dy, i, j) && Max(i, j) == Max(dx, dy)
    requires if dx >= dy then j <= i else i <= j
    ensures i == dx && j == dy
  {
    if dx >= dy {
      if dx > 0 { ShortAxisArrived(dx, dy, j); }
    } else {
      assert dx * j - dy * i == -(dy * i - dx * dy);
      ShortAxisArrived(dy, dx, i);
    }
  }

  ghost predicate IsCentre(x0: int, y0: int, x1: int, y1: int, c: Pixel, k: int) {
    exists i, j :: Centre(x0, y0, x1, y1, c, k, i, j)
  }

  // The loop's variables after i x-steps and j y-steps.
  ghost predicate OnTrack(x0: int, y0: int, x1: int, y1: int, x: int, y: int, errorValue: int, i: int, j: int) {
    var dx, dy := Abs(x1 - x0), Abs(y1 - y0);
    && Centre(x0, y0, x1, y1, Pixel(x, y), Max(i, j), i, j)
    && errorValue == (j + 1) * dx - (i + 1) * dy
    && if dx >= dy then j <= i else i <= j
  }

  lemma OffsetsAtEnd(from: int, to: int, steps: int)
    requires from + Direction(from, to) * steps == to
    ensures steps == Abs(to - from)
  {
  }

  // The loop stops exactly when all steps along the longer axis are done.
  lemma StopsAtEnd(x0: int, y0: int, x1: int, y1: int, x: int, y: int, errorValue: int, i: int, j: int)
    requires OnTrack(x0, y0, x1, y1, x, y, errorValue, i, j)
    ensures x == x1 && y == y1 <==> Max(i, j) == Max(Abs(x1 - x0), Abs(y1 - y0))
  {
    if x == x1 && y == y1 {
      OffsetsAtEnd(x0, x1, i);
      OffsetsAtEnd(y0, y1, j);
    }
    if Max(i, j) == Max(Abs(x1 - x0), Abs(y1 - y0)) {
      LastStepArrives(Abs(x1 - x0), Abs(y1 - y0), i, j);
    }
  }

  lemma ErrorAdds(d: int, j: int)
    ensures (j + 1 + 1) * d == (j + 1) * d + d && d * (j + 1 + 1) == d * (j + 1) + d
  {
  }

  lemma StepOnTrack(x0: int, y0: int, x1: int, y1: int, x: int, y: int, errorValue: int, i: int, j: int)
    requires OnTrack(x0, y0, x1, y1, x, y, errorValue, i, j) && !(x == x1 && y == y1)
    ensures var dx, dy, twice := Abs(x1 - x0), Abs(y1 - y0), 2 * errorValue;
      var right, down := twice >= -dy, twice <= dx;
      && OnTrack(x0, y0, x1, y1, if right then x + Direction(x0, x1) else x, if down then y + Direction(y0, y1) else y,
                 errorValue + (if right then -dy else 0) + (if down then dx else 0),
                 if right then i + 1 else i, if down then j + 1 else j)
      && Max(if right then i + 1 else i, if down then j + 1 else j) == Max(i, j) + 1
  {
    var dx, dy := Abs(x1 - x0), Abs(y1 - y0);
    StopsAtEnd(x0, y0, x1, y1, x, y, errorValue, i, j);
    StepStaysNear(dx, dy, i, j);
    ErrorAdds(dx, j);
    ErrorAdds(dy, i);
    ErrorAdds(Direction(x0, x1), i - 1);
    ErrorAdds(Direction(y0, y1), j - 1);
  }

  // The centres visited so far: the k-th one took k steps along the longer axis.
  ghost predicate Trail(x0: int, y0: int, x1: int, y1: int, centres: seq<Pixel>) {
    forall k :: 0 <= k < |centres| ==> IsCentre(x0, y0, x1, y1, centres[k], k)
  }

  predicate InDisc(centre: Pixel, radius: int, p: Pixel) {
    var dx, dy := p.x - centre.x, p.y - centre.y;
    -radius <= dx <= radius && -radius <= dy <= radius && dx * dx + dy * dy <= radius * radius
  }

  ghost predicate Covered(centres: seq<Pixel>, radius: int, p: Pixel) {
    exists k :: 0 <= k < |centres| && InDisc(centres[k], radius, p)
  }

  // Integer division of the source truncates towards zero.
  function HalfTowardsZero(v: int): int {
    if v >= 0 then v / 2 else -(-v / 2)
  }

  lemma TrailGrows(x0: int, y0: int, x1: int, y1: int, centres: seq<Pixel>, c: Pixel, i: int, j: int)
    requires Trail(x0, y0, x1, y1, centres) && Centre(x0, y0, x1, y1, c, |centres|, i, j)
    ensures Trail(x0, y0, x1, y1, centres + [c])
  {
    var grown := centres + [c];
    assert IsCentre(x0, y0, x1, y1, c, |centres|);
    assert forall k :: 0 <= k < |centres| ==> grown[k] == centres[k];
  }

  lemma CoveredGrows(centres: seq<Pixel>, radius: int, c: Pixel)
    ensures forall p :: Covered(centres + [c], radius, p) <==> Covered(centres, radius, p) || InDisc(c, radius, p)
  {
    var grown := centres + [c];
    forall p ensures Covered(grown, radius, p) <==> Covered(centres, radius, p) || InDisc(c, radius, p) {
      if Covered(centres, radius, p) {
        var k :| 0 <= k < |centres| && InDisc(centres[k], radius, p);
        assert grown[k] == centres[k];
      }
      if InDisc(c, radius, p) {
        assert grown[|centres|] == c;
      }
    }
  }

  // The error-driven step from one centre to the next.
  method Step(x0: int, y0: int, x1: int, y1: int, xFrom: int, yFrom: int, errorValue0: int, ghost i0: int, ghost j0: int)
      returns (x: int, y: int, errorValue: int, ghost i: int, ghost j: int)
    requires OnTrack(x0, y0, x1, y1, xFrom, yFrom, errorValue0, i0, j0) && !(xFrom == x1 && yFrom == y1)
    ensures OnTrack(x0, y0, x1, y1, x, y, errorValue, i, j) && Max(i, j) == Max(i0, j0) + 1
  {
    StepOnTrack(x0, y0, x1, y1, xFrom, yFrom, errorValue0, i0, j0);
    var deltaX, deltaY := Abs(x1 - x0), -Abs(y1 - y0);
    x, y, errorValue, i, j := xFrom, yFrom, errorValue0, i0, j0;
    var twiceError := 2 * errorValue;
    if twiceError >= deltaY {
      errorValue := errorValue + deltaY;
      x := x + Direction(x0, x1);
      i := i + 1;
    }
    if twiceError <= deltaX {
      errorValue := errorValue + deltaX;
      y := y + Direction(y0, y1);
      j := j + 1;
    }
  }

  class Image {
    const pixels: array2<int>

    constructor (width: nat, height: nat, background: int)
      ensures fresh(pixels) && pixels.Length0 == width && pixels.Length1 == height
      ensures forall x, y :: 0 <= x < width && 0 <= y < height ==> pixels[x, y] == background
    {
      pixels := new int[width, height]((x, y) => background);
    }

    predicate InBounds(x: int, y: int) {
      0 <= x < pixels.Length0 && 0 <= y < pixels.Length1
    }

    // Writing outside the image does nothing.
    method SetRGBA(x: int, y: int, color: int)
      modifies pixels
      ensures forall a, b :: InBounds(a, b) ==>
        pixels[a, b] == if a == x && b == y then color else old(pixels[a, b])
    {
      if InBounds(x, y) {
        pixels[x, y] := color;
      }
    }

    method DrawCircle(centre: Pixel, radius: nat, fill: int)
      modifies pixels
      ensures forall a, b :: InBounds(a, b) ==>
        pixels[a, b] == if InDisc(centre, radius, Pixel(a, b)) then fill else old(pixels[a, b])
    {
      var y := 0 - radius;
      while y <= radius
        invariant 0 - radius <= y <= radius + 1
        invariant forall a, b :: InBounds(a, b) ==>
          pixels[a, b] == if InDisc(centre, radius, Pixel(a, b)) && b - centre.y < y then fill else old(pixels[a, b])
      {
        var x := 0 - radius;
        while x <= radius
          invariant 0 - radius <= x <= radius + 1
          invariant forall a, b :: InBounds(a, b) ==>
            pixels[a, b] ==
              if InDisc(centre, radius, Pixel(a, b)) && (b - centre.y < y || (b - centre.y == y && a - centre.x < x))
              then fill else old(pixels[a, b])
        {
          if x * x + y * y <= radius * radius {
            SetRGBA(centre.x + x, centre.y + y, fill);
          }
          x := x + 1;
        }
        y := y + 1;
      }
    }

    // Draws the segment: exactly max(|dx|, |dy|) + 1 discs, one pixel apart along the longer axis, from end to
    // end, every centre within half a pixel of the segment; no other pixel changes.
    method DrawLine(x0: int, y0: int, x1: int, y1: int, lineColor: int, thickness: int) returns (ghost centres: seq<Pixel>)
      modifies pixels
      ensures |centres| == Max(Abs(x1 - x0), Abs(y1 - y0)) + 1
      ensures centres[0] == Pixel(x0, y0) && centres[|centres| - 1] == Pixel(x1, y1)
      ensures Trail(x0, y0, x1, y1, centres)
      ensures forall a, b :: InBounds(a, b) ==>
        pixels[a, b] ==
          if Covered(centres, Max(0, HalfTowardsZero(thickness)), Pixel(a, b)) then lineColor else old(pixels[a, b])
    {
      var errorValue := Abs(x1 - x0) - Abs(y1 - y0);
      var x, y := x0, y0;
      var radius := Max(0, HalfTowardsZero(thickness));
      centres := [];
      ghost var i, j := 0, 0;
      while true
        invariant OnTrack(x0, y0, x1, y1, x, y, errorValue, i, j)
        invariant |centres| == Max(i, j) && Trail(x0, y0, x1, y1, centres)
        invariant if |centres| > 0 then centres[0] == Pixel(x0, y0) else Pixel(x, y) == Pixel(x0, y0)
        invariant forall a, b :: InBounds(a, b) ==>
          pixels[a, b] == if Covered(centres, radius, Pixel(a, b)) then lineColor else old(pixels[a, b])
        decreases Max(Abs(x1 - x0), Abs(y1 - y0)) - Max(i, j)
      {
        DrawCircle(Pixel(x, y), radius, lineColor);
        TrailGrows(x0, y0, x1, y1, centres, Pixel(x, y), i, j);
        CoveredGrows(centres, radius, Pixel(x, y));
        centres := centres + [Pixel(x, y)];
        StopsAtEnd(x0, y0, x1, y1, x, y, errorValue, i, j);
        if x == x1 && y == y1 {
          break;
        }
        x, y, errorValue, i, j := Step(x0, y0, x1, y1, x, y, errorValue, i, j);
      }
    }
  }
}
