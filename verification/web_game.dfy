/**
  The browser variant of the game: a simpler gesture rule (no pointing),
  monsters that bounce off the canvas edges and lose health without
  clamping, and the kill / score / wave bookkeeping of its monster loop.
 */
module WebGame {
  import opened Bounds
  import opened Hand
  import opened Wrappers
  import opened Particles
  import SwarmMode
  import Gestures

  /** Fingertips closer than this many canvas pixels mean "gather". */
  const GATHER_DISTANCE: real := 50.0
  const PARTICLE_RADIUS: real := 2.0
  const MONSTER_RADIUS: real := 40.0
  const MONSTER_HEALTH: int := 10
  /** Score for each monster destroyed. */
  const KILL_SCORE: int := 100
  /** A new wave `w` spawns SPAWN_BASE + w monsters. */
  const SPAWN_BASE: int := 3

  // ---------------------------------------------------------------------
  // Gesture

  datatype Gesture = Gesture(mode: SwarmMode.Mode, target: Option<Point>)

  function ToCanvas(p: Point, width: real, height: real): Point {
    Point(p.x * width, p.y * height)
  }

  /** The fingertip distance test, on squared canvas distances. */
  predicate TipsClose(a: Point, b: Point) {
    var dx := a.x - b.x;
    var dy := a.y - b.y;
    dx * dx + dy * dy < GATHER_DISTANCE * GATHER_DISTANCE
  }

  /**
    The web gesture rule: no hand is free with no target; fingertips
    together is gather, decided before any finger is counted; otherwise
    three or more extended fingers scatter around the palm (landmark 9),
    and anything else is free. Pointing never occurs.
   */
  function AnalyzeGesture(hand: Option<Landmarks>, width: real, height: real): (r: Gesture)
    ensures hand.None? ==> r == Gesture(SwarmMode.Free, None)
    ensures r.mode != SwarmMode.Pointing
    ensures hand.Some? ==> r.target.Some?
    ensures hand.Some? ==>
      var lm := hand.value;
      var close := TipsClose(ToCanvas(lm[INDEX_TIP], width, height), ToCanvas(lm[MIDDLE_TIP], width, height));
      && (r.mode == SwarmMode.Gather <==> close)
      && (r.mode == SwarmMode.Scatter <==> !close && ExtendedCount(lm) >= 3)
      && (r.mode == SwarmMode.Scatter ==> r.target == Some(ToCanvas(lm[MIDDLE_MCP], width, height)))
  {
    match hand
    case None => Gesture(SwarmMode.Free, None)
    case Some(lm) =>
      var indexTip := ToCanvas(lm[INDEX_TIP], width, height);
      var middleTip := ToCanvas(lm[MIDDLE_TIP], width, height);
      var palmCenter := ToCanvas(lm[MIDDLE_MCP], width, height);
      var target := Point((indexTip.x + middleTip.x) / 2.0, (indexTip.y + middleTip.y) / 2.0);
      if TipsClose(indexTip, middleTip) then Gesture(SwarmMode.Gather, Some(target))
      else if ExtendedCount(lm) >= 3 then Gesture(SwarmMode.Scatter, Some(palmCenter))
      else Gesture(SwarmMode.Free, Some(target))
  }

  /** Gather wins even with every finger extended. */
  lemma GatherBeforeCount(lm: Landmarks, width: real, height: real)
    requires TipsClose(ToCanvas(lm[INDEX_TIP], width, height), ToCanvas(lm[MIDDLE_TIP], width, height))
    ensures AnalyzeGesture(Some(lm), width, height).mode == SwarmMode.Gather
  {
  }

  /**
    The two variants agree on the open hand: whenever the browser scatters,
    the desktop classifier (at any resolution) reads the same landmarks as
    open, and with the fingertips apart the browser scatters exactly when
    the desktop reads open.
   */
  lemma ScatterAgreesWithDesktopOpen(lm: Landmarks, width: real, height: real, pw: int, ph: int)
    ensures AnalyzeGesture(Some(lm), width, height).mode == SwarmMode.Scatter ==>
      Gestures.Analyze(Some(lm), pw, ph).state == Gestures.Open
    ensures !TipsClose(ToCanvas(lm[INDEX_TIP], width, height), ToCanvas(lm[MIDDLE_TIP], width, height)) ==>
      (AnalyzeGesture(Some(lm), width, height).mode == SwarmMode.Scatter <==> Gestures.Analyze(Some(lm), pw, ph).state == Gestures.Open)
  {
  }

  // ---------------------------------------------------------------------
  // Particles

  /**
    The web particle's `update`, from the speed-limited velocity on: the
    same damping by 0.97 and the same re-entry at the opposite edge as
    the desktop particle.
   */
  function ParticleUpdate(p: Particle, limited: Vec, width: real, height: real): (r: Particle)
    ensures 0.0 <= width && 0.0 <= height ==> InBox(r.pos, width, height)
    ensures r.vel == limited.Scale(DAMPING)
    ensures r.pos == WrapBox(p.pos.Plus(r.vel), width, height)
    ensures r.acc == Zero
  {
    Integrate(p, limited, width, height)
  }

  // ---------------------------------------------------------------------
  // Monsters

  datatype Monster = Monster(pos: Vec, vel: Vec, radius: real, health: int, maxHealth: int)

  function NewMonster(pos: Vec, vel: Vec): (m: Monster)
    ensures m.health == m.maxHealth == MONSTER_HEALTH && m.radius == MONSTER_RADIUS
    ensures m.pos == pos && m.vel == vel
  {
    Monster(pos, vel, MONSTER_RADIUS, MONSTER_HEALTH, MONSTER_HEALTH)
  }

  /** Inside the band where no bounce happens on one axis. */
  predicate InBand(v: real, radius: real, extent: real) {
    radius <= v <= extent - radius
  }

  function BounceAxis(v: real, moved: real, radius: real, extent: real): (r: real)
    ensures r == v || r == -v
    ensures r == -v <== !InBand(moved, radius, extent)
    ensures InBand(moved, radius, extent) ==> r == v
  {
    if moved < radius || moved > extent - radius then -v else v
  }

  /**
    Move by the velocity, then reverse each velocity component whose new
    coordinate lies outside the no-bounce band of that axis. Speed is
    never changed by a bounce.
   */
  function MonsterUpdate(m: Monster, width: real, height: real): (r: Monster)
    ensures r.pos == m.pos.Plus(m.vel)
    ensures r.vel.x == (if InBand(r.pos.x, m.radius, width) then m.vel.x else -m.vel.x)
    ensures r.vel.y == (if InBand(r.pos.y, m.radius, height) then m.vel.y else -m.vel.y)
    ensures r.radius == m.radius && r.health == m.health && r.maxHealth == m.maxHealth
  {
    var p := m.pos.Plus(m.vel);
    m.(pos := p,
       vel := Vec(BounceAxis(m.vel.x, p.x, m.radius, width), BounceAxis(m.vel.y, p.y, m.radius, height)))
  }

  /**
    Near the field: on each axis the monster is inside the band, or one
    step of its velocity takes it back inside.
   */
  predicate NearField(m: Monster, width: real, height: real) {
    && (InBand(m.pos.x, m.radius, width) || InBand(m.pos.x + m.vel.x, m.radius, width))
    && (InBand(m.pos.y, m.radius, height) || InBand(m.pos.y + m.vel.y, m.radius, height))
  }

  /**
    Bouncing keeps a monster near the field: a monster that starts near
    it (in particular, inside the band) never strays more than one step
    outside, whatever its speed.
   */
  lemma BounceKeepsNearField(m: Monster, width: real, height: real)
    requires NearField(m, width, height)
    ensures NearField(MonsterUpdate(m, width, height), width, height)
  {
  }

  /** Damage without clamping; reports whether the monster is destroyed. */
  function TakeDamage(m: Monster, amount: int): (r: (Monster, bool))
    ensures r.0.health == m.health - amount
    ensures r.1 <==> amount >= m.health
    ensures r.0 == m.(health := r.0.health)
  {
    var h := m.health - amount;
    (m.(health := h), h <= 0)
  }

  /** Damage accumulates: two blows cost exactly what one of their sum does. */
  lemma DamageAdds(m: Monster, a: int, b: int)
    ensures TakeDamage(TakeDamage(m, a).0, b) == TakeDamage(m, a + b)
  {
  }

  /** A particle hits when its centre is closer than the two radii combined. */
  predicate Collides(m: Monster, p: Vec) {
    var dx := p.x - m.pos.x;
    var dy := p.y - m.pos.y;
    var reach := m.radius + PARTICLE_RADIUS;
    dx * dx + dy * dy < reach * reach
  }

  /** Indices of the first `k` particles that collide with the monster. */
  function CollidingBelow(m: Monster, ps: seq<Vec>, k: nat): set<nat>
    requires k <= |ps|
  {
    set i: nat | i < k && Collides(m, ps[i])
  }

  /**
    The collision count over the first `k` particles: exactly the number
    of colliding ones, zero iff none collides and `k` iff all do.
   */
  function HitsBelow(m: Monster, ps: seq<Vec>, k: nat): (n: nat)
    requires k <= |ps|
    ensures n == |CollidingBelow(m, ps, k)|
    ensures n <= k
    ensures n == 0 <==> forall i :: 0 <= i < k ==> !Collides(m, ps[i])
    ensures n == k <==> forall i :: 0 <= i < k ==> Collides(m, ps[i])
  {
    if k == 0 then
      assert CollidingBelow(m, ps, 0) == {};
      0
    else
      var rest := HitsBelow(m, ps, k - 1);
      assert k - 1 !in CollidingBelow(m, ps, k - 1);
      assert CollidingBelow(m, ps, k) ==
        CollidingBelow(m, ps, k - 1) + (if Collides(m, ps[k - 1]) then {k - 1} else {});
      rest + (if Collides(m, ps[k - 1]) then 1 else 0)
  }

  /**
    Hits on a monster: one per colliding particle, the leader included,
    with no cooldown.
   */
  function HitCount(m: Monster, ps: seq<Vec>): (n: nat)
    ensures n == |CollidingBelow(m, ps, |ps|)|
    ensures n <= |ps|
    ensures n == 0 <==> forall i :: 0 <= i < |ps| ==> !Collides(m, ps[i])
    ensures n == |ps| <==> forall i :: 0 <= i < |ps| ==> Collides(m, ps[i])
  {
    HitsBelow(m, ps, |ps|)
  }

  // ---------------------------------------------------------------------
  // The monster loop's bookkeeping

  datatype State = State(score: int, wave: int, combo: int)

  /**
    One monster's frame before removal: it moves (and bounces), then
    every particle touching it at its new position counts one hit.
   */
  function HitsAfterMove(m: Monster, ps: seq<Vec>, width: real, height: real): nat {
    HitCount(MonsterUpdate(m, width, height), ps)
  }

  /** The monster is destroyed this frame. */
  predicate Killed(m: Monster, ps: seq<Vec>, width: real, height: real) {
    var n := HitsAfterMove(m, ps, width, height);
    n > 0 && TakeDamage(MonsterUpdate(m, width, height), n).1
  }

  /** The monster as it stays on the field when not destroyed. */
  function Stepped(m: Monster, ps: seq<Vec>, width: real, height: real): Monster {
    var moved := MonsterUpdate(m, width, height);
    var n := HitsAfterMove(m, ps, width, height);
    if n > 0 then TakeDamage(moved, n).0 else moved
  }

  /** Monsters that stay this frame, in their original order. */
  function Survivors(ms: seq<Monster>, ps: seq<Vec>, width: real, height: real): (r: seq<Monster>)
    ensures |r| + KillCount(ms, ps, width, height) == |ms|
    ensures (forall i :: 0 <= i < |ms| ==> ms[i].health > 0) ==> forall i :: 0 <= i < |r| ==> r[i].health > 0
  {
    if |ms| == 0 then []
    else
      var rest := Survivors(ms[1..], ps, width, height);
      if Killed(ms[0], ps, width, height) then rest else [Stepped(ms[0], ps, width, height)] + rest
  }

  function KillCount(ms: seq<Monster>, ps: seq<Vec>, width: real, height: real): (n: nat)
    ensures n <= |ms|
  {
    if |ms| == 0 then 0
    else (if Killed(ms[0], ps, width, height) then 1 else 0) + KillCount(ms[1..], ps, width, height)
  }

  /** Without any particle on the field nothing is destroyed and every monster stays. */
  lemma {:induction false} NoParticlesNoKills(ms: seq<Monster>, width: real, height: real)
    ensures KillCount(ms, [], width, height) == 0
    ensures |Survivors(ms, [], width, height)| == |ms|
    decreases |ms|
  {
    if |ms| > 0 {
      NoParticlesNoKills(ms[1..], width, height);
      assert !Killed(ms[0], [], width, height);
    }
  }

  /** The monsters a new wave `w` brings, placed by the random draws `place`. */
  function Spawn(w: int, place: int -> (Vec, Vec)): (r: seq<Monster>)
    ensures |r| == if SPAWN_BASE + w > 0 then SPAWN_BASE + w else 0
    ensures forall i :: 0 <= i < |r| ==> r[i] == NewMonster(place(i).0, place(i).1)
    ensures forall i :: 0 <= i < |r| ==> r[i].health == r[i].maxHealth == MONSTER_HEALTH
  {
    var n := if SPAWN_BASE + w > 0 then SPAWN_BASE + w else 0;
    var r := seq(n, k => NewMonster(place(k).0, place(k).1));
    assert forall i :: 0 <= i < |r| ==> r[i].health == MONSTER_HEALTH by {
      forall i | 0 <= i < |r| ensures r[i].health == MONSTER_HEALTH {
        assert r[i] == NewMonster(place(i).0, place(i).1);
      }
    }
    r
  }

  /**
    The monster loop, walking the list from the back as the source does:
    each monster moves, takes its hits, and is removed when destroyed,
    earning KILL_SCORE and one combo step. When the last monster goes the
    wave number grows by one and the next wave is spawned.
   */
  method UpdateMonsters(ms: seq<Monster>, st: State, ps: seq<Vec>, width: real, height: real, place: int -> (Vec, Vec))
    returns (ms': seq<Monster>, st': State)
    ensures st'.score == st.score + KILL_SCORE * KillCount(ms, ps, width, height)
    ensures st'.combo == st.combo + KillCount(ms, ps, width, height)
    ensures var cleared := |ms| > 0 && KillCount(ms, ps, width, height) == |ms|;
      && (cleared ==> st'.wave == st.wave + 1 && ms' == Spawn(st.wave + 1, place))
      && (!cleared ==> st'.wave == st.wave && ms' == Survivors(ms, ps, width, height))
  {
    var tail: seq<Monster> := [];
    var kills: nat := 0;
    var spawned := false;
    var newWave: seq<Monster> := [];
    st' := st;
    var i := |ms|;
    while i > 0
      invariant 0 <= i <= |ms|
      invariant tail == Survivors(ms[i..], ps, width, height)
      invariant kills == KillCount(ms[i..], ps, width, height)
      invariant st'.score == st.score + KILL_SCORE * kills && st'.combo == st.combo + kills
      invariant st'.wave == st.wave + (if spawned then 1 else 0)
      invariant spawned ==> i == 0 && tail == [] && newWave == Spawn(st.wave + 1, place)
      invariant i == |ms| ==> !spawned
      invariant i < |ms| ==> (spawned <==> i == 0 && tail == [])
    {
      i := i - 1;
      assert ms[i..][1..] == ms[i + 1..];
      var m := MonsterUpdate(ms[i], width, height);
      var hitCount := HitCount(m, ps);
      if hitCount > 0 {
        var (damaged, destroyed) := TakeDamage(m, hitCount);
        if destroyed {
          kills := kills + 1;
          st' := st'.(score := st'.score + KILL_SCORE, combo := st'.combo + 1);
          if i == 0 && |tail| == 0 {
            st' := st'.(wave := st'.wave + 1);
            newWave := Spawn(st'.wave, place);
            spawned := true;
          }
        } else {
          tail := [damaged] + tail;
        }
      } else {
        tail := [m] + tail;
      }
    }
    assert ms[0..] == ms;
    assert spawned <==> |ms| > 0 && KillCount(ms, ps, width, height) == |ms|;
    ms' := if spawned then newWave else tail;
  }
}
