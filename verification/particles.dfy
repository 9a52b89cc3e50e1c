/**
  The integration tail of a particle's frame: damping, moving by the
  velocity, wrapping toroidally at the screen edges and clearing the
  acceleration. The force laws and the speed limiting that precede it
  (norms and square roots on floats) are not part of this model: the
  speed-limited velocity is an input.
 */
module Particles {
  import opened Bounds

  /** Velocity damping applied every frame. */
  const DAMPING: real := 0.97

  datatype Particle = Particle(pos: Vec, vel: Vec, acc: Vec)

  function NormSq(v: Vec): (r: real)
    ensures r >= 0.0
  {
    v.x * v.x + v.y * v.y
  }

  lemma DampingSlows(v: Vec)
    ensures NormSq(v.Scale(DAMPING)) <= NormSq(v)
  {
    assert v.Scale(DAMPING).x * v.Scale(DAMPING).x == DAMPING * DAMPING * (v.x * v.x);
    assert v.Scale(DAMPING).y * v.Scale(DAMPING).y == DAMPING * DAMPING * (v.y * v.y);
  }

  /**
    Finish one frame given the speed-limited velocity `limited`: the
    particle moves by the damped velocity and wraps into
    [0,width] x [0,height]; the acceleration is spent.
   */
  function Integrate(p: Particle, limited: Vec, width: real, height: real): (r: Particle)
    ensures r.acc == Zero
    ensures r.vel == limited.Scale(DAMPING)
    ensures NormSq(r.vel) <= NormSq(limited)
    ensures r.pos == WrapBox(p.pos.Plus(r.vel), width, height)
    ensures 0.0 <= width && 0.0 <= height ==> InBox(r.pos, width, height)
    ensures InBox(p.pos.Plus(r.vel), width, height) ==> r.pos == p.pos.Plus(r.vel)
  {
    var v := limited.Scale(DAMPING);
    DampingSlows(limited);
    Particle(WrapBox(p.pos.Plus(v), width, height), v, Zero)
  }

  /**
    Over any run of frames, whatever velocities the force laws produce,
    a particle never leaves the screen box.
   */
  function Run(p: Particle, limits: seq<Vec>, width: real, height: real): (r: Particle)
    requires 0.0 <= width && 0.0 <= height
    requires InBox(p.pos, width, height)
    ensures InBox(r.pos, width, height)
    ensures |limits| > 0 ==> r.acc == Zero
    decreases |limits|
  {
    if |limits| == 0 then p
    else Run(Integrate(p, limits[0], width, height), limits[1..], width, height)
  }
}
