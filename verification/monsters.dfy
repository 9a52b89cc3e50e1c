/**
  The discrete part of a monster: its per-type stats table, health and
  damage, the hit flash countdown, the per-particle hit cooldowns, the
  collision count against the swarm, and the death sub-state whose debris
  decays until the monster can be removed.
 */
module Monsters {
  import opened Bounds
  import opened Lifetimes
  import Numeric

  const PARTICLE_RADIUS: int := 2
  /** Frames the hit flash lasts after a damaging hit. */
  const HIT_FLASH_DURATION: int := 8
  /** Frames a particle is ignored by a monster after hitting it. */
  const HIT_COOLDOWN: int := 30
  /** Debris particles spawned on death. */
  const DEATH_BURST: nat := 30
  /** Debris lifetimes are drawn from [DEBRIS_LIFE_MIN, DEBRIS_LIFE_MAX). */
  const DEBRIS_LIFE_MIN: int := 20
  const DEBRIS_LIFE_MAX: int := 40

  datatype Kind = Normal | Tank | Fast | Boss

  /** Type names other than the three special ones all mean a normal monster. */
  function KindFromName(name: string): (k: Kind)
    ensures k == Tank <==> name == "tank"
    ensures k == Fast <==> name == "fast"
    ensures k == Boss <==> name == "boss"
  {
    if name == "tank" then Tank
    else if name == "fast" then Fast
    else if name == "boss" then Boss
    else Normal
  }

  /** The integer part of the per-type stats table. */
  datatype Stats = Stats(maxHealth: int, radius: int, scoreValue: int)

  function StatsFor(kind: Kind, difficulty: int): (s: Stats)
    ensures s.radius > 0 && s.radius % PARTICLE_RADIUS == 0
    ensures s.scoreValue >= 100
    ensures difficulty >= 0 ==> s.maxHealth >= 5
  {
    match kind
    case Tank => Stats(20 + difficulty * 3, PARTICLE_RADIUS * 12, 200)
    case Fast => Stats(5 + difficulty, PARTICLE_RADIUS * 6, 150)
    case Boss => Stats(50 + difficulty * 10, PARTICLE_RADIUS * 20, 1000)
    case Normal => Stats(10 + difficulty * 2, PARTICLE_RADIUS * 8, 100)
  }

  /**
    For any non-negative difficulty the special types rank as the game
    presents them: a boss is bigger, tougher and worth more than a tank,
    a tank more than a normal monster, and a fast one is the smallest
    and weakest but worth more than a normal one.
   */
  lemma StatsRanking(d: int)
    requires d >= 0
    ensures StatsFor(Boss, d).maxHealth > StatsFor(Tank, d).maxHealth > StatsFor(Normal, d).maxHealth > StatsFor(Fast, d).maxHealth
    ensures StatsFor(Boss, d).radius > StatsFor(Tank, d).radius > StatsFor(Normal, d).radius > StatsFor(Fast, d).radius
    ensures StatsFor(Boss, d).scoreValue > StatsFor(Tank, d).scoreValue > StatsFor(Fast, d).scoreValue > StatsFor(Normal, d).scoreValue
  {
  }

  datatype Monster = Monster(
    kind: Kind,
    difficulty: int,
    maxHealth: int,
    radius: int,
    scoreValue: int,
    health: int,
    hitTimer: int,
    cooldowns: map<nat, int>,   // particle index -> frames still ignored
    debris: seq<int>,           // remaining lifetime of each death debris particle
    dying: bool,
    deathTimer: int)

  function New(kind: Kind, difficulty: int): (m: Monster)
    ensures m.kind == kind && m.difficulty == difficulty
    ensures m.health == m.maxHealth == StatsFor(kind, difficulty).maxHealth
    ensures m.radius == StatsFor(kind, difficulty).radius && m.scoreValue == StatsFor(kind, difficulty).scoreValue
    ensures !m.dying && m.debris == [] && m.cooldowns == map[]
    ensures m.hitTimer == 0 && m.deathTimer == 0
    ensures difficulty >= 0 ==> Valid(m) && IsAlive(m)
  {
    var s := StatsFor(kind, difficulty);
    Monster(kind, difficulty, s.maxHealth, s.radius, s.scoreValue,
            s.maxHealth, 0, map[], [], false, 0)
  }

  predicate IsAlive(m: Monster) {
    m.health > 0 && !m.dying
  }

  predicate IsDeadAnimationDone(m: Monster) {
    m.dying && |m.debris| == 0
  }

  predicate CooldownsPositive(c: map<nat, int>) {
    forall k :: k in c ==> c[k] > 0
  }

  /**
    What every monster reachable from a construction with non-negative
    difficulty satisfies: health is never negative and is zero exactly
    when the monster is dying; debris exists only while dying; every
    stored cooldown and debris lifetime is positive.
   */
  predicate Valid(m: Monster) {
    && 0 <= m.health
    && (m.health == 0 <==> m.dying)
    && (!m.dying ==> m.debris == [])
    && AllPositive(m.debris)
    && CooldownsPositive(m.cooldowns)
    && 0 <= m.hitTimer <= HIT_FLASH_DURATION
  }

  /** A legal draw of death debris lifetimes. */
  predicate DeathBurst(lives: seq<int>) {
    |lives| == DEATH_BURST && AllWithin(lives, DEBRIS_LIFE_MIN, DEBRIS_LIFE_MAX)
  }

  /** Enter the dying state, appending one burst of debris. */
  function TriggerDeath(m: Monster, lives: seq<int>): (r: Monster)
    requires DeathBurst(lives)
    ensures r.dying && !IsAlive(r) && !IsDeadAnimationDone(r)
    ensures |r.debris| == |m.debris| + DEATH_BURST
    ensures r.debris[..|m.debris|] == m.debris
    ensures AllWithin(r.debris[|m.debris|..], DEBRIS_LIFE_MIN, DEBRIS_LIFE_MAX)
    ensures r == m.(dying := true, debris := r.debris)
  {
    m.(dying := true, debris := m.debris + lives)
  }

  /**
    Damage: health drops by `amount` but never below zero, the hit flash
    restarts, and the first time health reaches zero the monster starts
    dying with a fresh burst of debris. A dying monster never recovers.
   */
  function TakeDamage(m: Monster, amount: int, lives: seq<int>): (r: Monster)
    requires DeathBurst(lives)
    ensures r.health >= 0
    ensures r.health == Numeric.Max(0, m.health - amount)
    ensures r.hitTimer == HIT_FLASH_DURATION
    ensures r.dying <==> m.dying || m.health - amount <= 0
    ensures m.dying ==> r.debris == m.debris
    ensures !m.dying && r.dying ==> |r.debris| == |m.debris| + DEATH_BURST
    ensures !m.dying && r.dying ==> r.debris[..|m.debris|] == m.debris
    ensures !m.dying && r.dying ==> AllWithin(r.debris[|m.debris|..], DEBRIS_LIFE_MIN, DEBRIS_LIFE_MAX)
    ensures !r.dying ==> r.debris == m.debris
    ensures amount >= 0 && IsAlive(r) ==> IsAlive(m)
    ensures r == m.(health := r.health, hitTimer := r.hitTimer, dying := r.dying, debris := r.debris)
  {
    var h := if m.health - amount < 0 then 0 else m.health - amount;
    var d := m.(health := h, hitTimer := HIT_FLASH_DURATION);
    if h <= 0 && !d.dying then TriggerDeath(d, lives) else d
  }

  /** One frame of cooldown bookkeeping: count down, forget the expired. */
  function TickCooldowns(c: map<nat, int>): (r: map<nat, int>)
    ensures CooldownsPositive(r)
    ensures forall k :: k in r ==> k in c && r[k] == c[k] - 1
    ensures forall k :: k in c && c[k] > 1 ==> k in r
  {
    map k | k in c && c[k] - 1 > 0 :: c[k] - 1
  }

  function TickCooldownsN(c: map<nat, int>, n: nat): map<nat, int>
    decreases n
  {
    if n == 0 then c else TickCooldownsN(TickCooldowns(c), n - 1)
  }

  /**
    A particle with cooldown `v > 0` is ignored for exactly the next
    `v - 1` frames: it is still present after `n` frames iff `n < v`,
    and while present its cooldown is `v - n`.
   */
  lemma {:induction false} CooldownLasts(c: map<nat, int>, k: nat, n: nat)
    requires k in c && c[k] > 0
    ensures k in TickCooldownsN(c, n) <==> n < c[k]
    ensures k in TickCooldownsN(c, n) ==> TickCooldownsN(c, n)[k] == c[k] - n
    decreases n
  {
    if n > 0 {
      var t := TickCooldowns(c);
      if c[k] > 1 {
        CooldownLasts(t, k, n - 1);
      } else {
        NotInStaysOut(t, k, n - 1);
      }
    }
  }

  lemma {:induction false} NotInStaysOut(c: map<nat, int>, k: nat, n: nat)
    requires k !in c
    ensures k !in TickCooldownsN(c, n)
    decreases n
  {
    if n > 0 {
      NotInStaysOut(TickCooldowns(c), k, n - 1);
    }
  }

  /**
    The per-frame bookkeeping of `update`: a dying monster only advances
    its death animation (debris decay); a living one counts down its hit
    flash and its cooldowns. Movement is not part of this model.
   */
  function Update(m: Monster): (r: Monster)
    ensures r.dying == m.dying && r.health == m.health
    ensures m.dying ==> r.cooldowns == m.cooldowns && r.debris == Tick(m.debris)
    ensures !m.dying ==> r.debris == m.debris && r.cooldowns == TickCooldowns(m.cooldowns)
    ensures CooldownsPositive(r.cooldowns) || m.dying
    ensures m.dying ==> AllPositive(r.debris)
    ensures m.dying ==> r.hitTimer == m.hitTimer
    ensures !m.dying ==> r.hitTimer == (if m.hitTimer > 0 then m.hitTimer - 1 else m.hitTimer)
    ensures 0 <= m.hitTimer ==> 0 <= r.hitTimer <= m.hitTimer
    ensures r.deathTimer == if m.dying then m.deathTimer + 1 else m.deathTimer
    ensures r == m.(hitTimer := r.hitTimer, cooldowns := r.cooldowns, debris := r.debris, deathTimer := r.deathTimer)
  {
    if m.dying then
      m.(deathTimer := m.deathTimer + 1, debris := Tick(m.debris))
    else
      m.(hitTimer := if m.hitTimer > 0 then m.hitTimer - 1 else m.hitTimer,
         cooldowns := TickCooldowns(m.cooldowns))
  }

  function UpdateN(m: Monster, n: nat): Monster
    decreases n
  {
    if n == 0 then m else UpdateN(Update(m), n - 1)
  }

  lemma ValidPreservedByTakeDamage(m: Monster, amount: int, lives: seq<int>)
    requires Valid(m) && amount >= 0 && DeathBurst(lives)
    ensures Valid(TakeDamage(m, amount, lives))
  {
  }

  lemma ValidPreservedByUpdate(m: Monster)
    requires Valid(m)
    ensures Valid(Update(m))
  {
  }

  /**
    Once dying, always dying: no sequence of updates brings a monster
    back to life.
   */
  lemma {:induction false} DyingIsPermanent(m: Monster, n: nat)
    requires m.dying
    ensures UpdateN(m, n).dying && !IsAlive(UpdateN(m, n))
    decreases n
  {
    if n > 0 {
      DyingIsPermanent(Update(m), n - 1);
    }
  }

  /**
    A dying monster's death animation is done after `n >= 1` updates
    exactly when every debris lifetime it carries is at most `n`.
   */
  lemma DeathAnimationEnds(m: Monster, n: nat)
    requires m.dying && n >= 1
    ensures IsDeadAnimationDone(UpdateN(m, n)) <==> AllAtMost(m.debris, n)
  {
    DebrisAfter(m, n);
    EmptyAfterIffAllAtMost(m.debris, n);
  }

  lemma {:induction false} DebrisAfter(m: Monster, n: nat)
    requires m.dying
    ensures UpdateN(m, n).dying && UpdateN(m, n).debris == TickN(m.debris, n)
    decreases n
  {
    if n > 0 {
      DebrisAfter(Update(m), n - 1);
    }
  }

  /**
    A monster that has just died (every debris lifetime below
    DEBRIS_LIFE_MAX) finishes its death animation within
    DEBRIS_LIFE_MAX - 1 frames.
   */
  lemma FreshDebrisExpiresInTime(m: Monster, lives: seq<int>)
    requires DeathBurst(lives) && !m.dying && m.debris == []
    ensures IsDeadAnimationDone(UpdateN(TriggerDeath(m, lives), DEBRIS_LIFE_MAX - 1))
  {
    var d := TriggerDeath(m, lives);
    assert d.debris == lives;
    DeathAnimationEnds(d, DEBRIS_LIFE_MAX - 1);
  }

  // ---------------------------------------------------------------------
  // Collision against the swarm

  /** What a collision check sees of one particle. */
  datatype ParticleView = ParticleView(isLeader: bool, pos: Vec)

  /**
    A particle touches the monster when its centre is closer than the sum
    of the two radii (compared squared, so no square root is needed).
   */
  predicate Touching(at: Vec, radius: int, p: Vec) {
    var dx := p.x - at.x;
    var dy := p.y - at.y;
    var reach := (radius + PARTICLE_RADIUS) as real;
    dx * dx + dy * dy < reach * reach
  }

  /** Particles that may hit at all: not the leader, not on cooldown. */
  function Candidates(m: Monster, ps: seq<ParticleView>, upto: nat): set<nat>
    requires upto <= |ps|
  {
    set i: nat | i < upto && !ps[i].isLeader && i !in m.cooldowns
  }

  /** Particle `i` scores a hit: a touching candidate. */
  predicate IsHit(m: Monster, at: Vec, ps: seq<ParticleView>, i: nat)
    requires i < |ps|
  {
    !ps[i].isLeader && i !in m.cooldowns && Touching(at, m.radius, ps[i].pos)
  }

  /** Candidates among the first `upto` particles that touch the monster. */
  function HitsBelow(m: Monster, at: Vec, ps: seq<ParticleView>, upto: nat): (s: set<nat>)
    requires upto <= |ps|
    ensures s <= Candidates(m, ps, upto)
  {
    set i: nat | i < upto && IsHit(m, at, ps, i)
  }

  function Hits(m: Monster, at: Vec, ps: seq<ParticleView>): set<nat> {
    HitsBelow(m, at, ps, |ps|)
  }

  lemma HitsBelowStep(m: Monster, at: Vec, ps: seq<ParticleView>, i: nat)
    requires i < |ps|
    ensures i !in HitsBelow(m, at, ps, i)
    ensures IsHit(m, at, ps, i) ==> HitsBelow(m, at, ps, i + 1) == HitsBelow(m, at, ps, i) + {i}
    ensures !IsHit(m, at, ps, i) ==> HitsBelow(m, at, ps, i + 1) == HitsBelow(m, at, ps, i)
  {
  }

  /**
    Count the hits of one frame: every non-leader particle that is not on
    cooldown and touches the monster counts once and is put on cooldown
    for HIT_COOLDOWN frames. Existing cooldowns are left as they are.
   */
  method CheckCollision(m: Monster, at: Vec, ps: seq<ParticleView>) returns (hits: nat, r: Monster)
    ensures hits == |Hits(m, at, ps)|
    ensures hits <= |Candidates(m, ps, |ps|)|
    ensures forall k :: k in r.cooldowns <==> k in m.cooldowns || k in Hits(m, at, ps)
    ensures forall k :: k in m.cooldowns ==> r.cooldowns[k] == m.cooldowns[k]
    ensures forall k :: k in Hits(m, at, ps) ==> r.cooldowns[k] == HIT_COOLDOWN
    ensures r == m.(cooldowns := r.cooldowns)
  {
    hits := 0;
    var cd: map<nat, int> := m.cooldowns;
    var i: nat := 0;
    while i < |ps|
      invariant 0 <= i <= |ps|
      invariant hits == |HitsBelow(m, at, ps, i)|
      invariant forall k :: k in cd <==> k in m.cooldowns || k in HitsBelow(m, at, ps, i)
      invariant forall k :: k in m.cooldowns ==> cd[k] == m.cooldowns[k]
      invariant forall k :: k in HitsBelow(m, at, ps, i) ==> cd[k] == HIT_COOLDOWN
    {
      HitsBelowStep(m, at, ps, i);
      if !ps[i].isLeader && i !in cd && Touching(at, m.radius, ps[i].pos) {
        hits := hits + 1;
        cd := cd[i := HIT_COOLDOWN];
      }
      i := i + 1;
    }
    CandidatesBound(m, at, ps);
    r := m.(cooldowns := cd);
  }

  lemma CandidatesBound(m: Monster, at: Vec, ps: seq<ParticleView>)
    ensures |Hits(m, at, ps)| <= |Candidates(m, ps, |ps|)|
  {
    SubsetCard(Hits(m, at, ps), Candidates(m, ps, |ps|));
  }

  lemma SubsetCard<T>(a: set<T>, b: set<T>)
    requires a <= b
    ensures |a| <= |b|
  {
    assert b == a + (b - a);
  }

  // ---------------------------------------------------------------------
  // Kill detection

  /**
    The kill test the game loop applies after damage: "not alive and not
    dying". Under Valid it can never hold (see KillTestNeverFires).
   */
  predicate KillTestAsWritten(m: Monster) {
    !IsAlive(m) && !m.dying
  }

  lemma KillTestNeverFires(m: Monster)
    requires Valid(m)
    ensures !KillTestAsWritten(m)
  {
  }

  /** Concrete witness: a normal monster killed by one big hit. */
  lemma KillTestMissesAKill()
    ensures var lives := seq(DEATH_BURST, _ => DEBRIS_LIFE_MIN);
            var before := New(Normal, 1);
            var after := TakeDamage(before, 100, lives);
            IsAlive(before) && !IsAlive(after) && !KillTestAsWritten(after)
  {
    var lives := seq(DEATH_BURST, _ => DEBRIS_LIFE_MIN);
    assert DeathBurst(lives);
  }

  /**
    The kill as intended: the monster has died on this hit, i.e. it was
    not dying before and is dying after.
   */
  predicate JustDied(before: Monster, after: Monster) {
    !before.dying && after.dying
  }

  /**
    A hit kills exactly when it empties the health of a monster that was
    not already dying, and a monster can be killed at most once: after
    any later frames and hits it is never "just died" again.
   */
  lemma JustDiedOnce(m: Monster, amount: int, lives: seq<int>, amount2: int, lives2: seq<int>, n: nat)
    requires Valid(m) && DeathBurst(lives) && DeathBurst(lives2)
    ensures JustDied(m, TakeDamage(m, amount, lives)) <==> IsAlive(m) && m.health <= amount
    ensures var after := TakeDamage(m, amount, lives);
            after.dying ==> !JustDied(UpdateN(after, n), TakeDamage(UpdateN(after, n), amount2, lives2))
  {
    var after := TakeDamage(m, amount, lives);
    if after.dying {
      DyingIsPermanent(after, n);
    }
  }

  /** The wrap a living monster applies to one coordinate: [-radius, extent + radius]. */
  function WrapCoordinate(v: real, radius: int, extent: real): (r: real)
    ensures radius >= 0 && extent >= 0.0 ==> -(radius as real) <= r <= extent + radius as real
    ensures -(radius as real) <= v <= extent + radius as real ==> r == v
    ensures v < -(radius as real) ==> r == extent + radius as real
    ensures -(radius as real) <= v && extent + radius as real < v ==> r == -(radius as real)
  {
    WrapAxis(v, -(radius as real), extent + radius as real)
  }
}
