/**
  Two-dimensional vectors and the toroidal (wrap-around) boundary rule
  used by particles and monsters alike: a coordinate that has left the
  interval on one side re-enters at the opposite edge.
 */
module Bounds {

  datatype Vec = Vec(x: real, y: real)
  {
    function Plus(o: Vec): Vec { Vec(x + o.x, y + o.y) }
    function Scale(k: real): Vec { Vec(x * k, y * k) }
  }

  const Zero: Vec := Vec(0.0, 0.0)

  predicate InInterval(v: real, lo: real, hi: real) {
    lo <= v <= hi
  }

  /** A coordinate is inside the box [0,width] x [0,height]. */
  predicate InBox(p: Vec, width: real, height: real) {
    InInterval(p.x, 0.0, width) && InInterval(p.y, 0.0, height)
  }

  /**
    One wrap test on one axis: below `lo` re-enters at `hi`, above `hi`
    re-enters at `lo`, anything in between is left alone.
   */
  function WrapAxis(v: real, lo: real, hi: real): (r: real)
    ensures lo <= hi ==> InInterval(r, lo, hi)
    ensures InInterval(v, lo, hi) ==> r == v
    ensures v < lo ==> r == hi
    ensures lo <= v && hi < v ==> r == lo
  {
    if v < lo then hi
    else if v > hi then lo
    else v
  }

  /** Wrap both coordinates into [0,width] x [0,height]. */
  function WrapBox(p: Vec, width: real, height: real): (r: Vec)
    ensures 0.0 <= width && 0.0 <= height ==> InBox(r, width, height)
    ensures InBox(p, width, height) ==> r == p
    ensures p.x < 0.0 ==> r.x == width
    ensures 0.0 <= p.x && width < p.x ==> r.x == 0.0
    ensures p.y < 0.0 ==> r.y == height
    ensures 0.0 <= p.y && height < p.y ==> r.y == 0.0
  {
    Vec(WrapAxis(p.x, 0.0, width), WrapAxis(p.y, 0.0, height))
  }

  /** Wrapping is idempotent: a wrapped point is a fixed point of the wrap. */
  lemma WrapBoxIdempotent(p: Vec, width: real, height: real)
    requires 0.0 <= width && 0.0 <= height
    ensures WrapBox(WrapBox(p, width, height), width, height) == WrapBox(p, width, height)
  {
  }
}
