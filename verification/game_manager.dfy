/**
  The game manager: score and high score, the combo counter with its
  decay timer, wave composition and the completion/intermission gate,
  the screen shake countdown and the pool of hit sparks. Monsters and
  particles are not owned here; the manager hears about them through
  `OnHit` and `OnMonsterKilled`.
 */
module GameManager {
  import opened Wrappers
  import opened Numeric
  import opened Lifetimes
  import Monsters

  /** Frames without a hit before the combo resets. */
  const COMBO_TIMEOUT: int := 120
  /** Frames of rest between a completed wave and the next one. */
  const INTERMISSION_DURATION: int := 180
  /** Largest size of a non-boss wave. */
  const MAX_WAVE_SIZE: int := 8
  /** Sparks spawned by a kill; their lifetimes lie in [SPARK_LIFE_MIN, SPARK_LIFE_MAX). */
  const KILL_SPARKS: nat := 50
  /** Sparks spawned by every damaging hit. */
  const HIT_SPARKS: nat := 10
  const SPARK_LIFE_MIN: int := 15
  const SPARK_LIFE_MAX: int := 30

  datatype SpawnEntry = SpawnEntry(kind: Monsters.Kind, difficulty: int)

  datatype Manager = Manager(
    score: int,
    highScore: int,
    combo: int,
    maxCombo: int,
    comboTimer: int,
    wave: int,
    monstersInWave: seq<SpawnEntry>,
    defeated: int,
    waveComplete: bool,
    intermission: int,
    sparks: seq<int>,      // remaining lifetime of each hit spark
    shakeTimer: int,
    shakeIntensity: int)

  /** A fresh manager. */
  const Init: Manager := Manager(0, 0, 0, 0, 0, 1, [], 0, false, 0, [], 0, 0)

  /**
    Invariant of every state the operations below produce from `Init`
    when fed non-negative hit counts and monsters with their stats.
   */
  predicate Valid(g: Manager) {
    && 0 <= g.score <= g.highScore
    && 0 <= g.combo <= g.maxCombo
    && 0 <= g.comboTimer <= COMBO_TIMEOUT
    && (g.combo > 0 ==> g.comboTimer >= 1)
    && 0 <= g.defeated
    && 0 <= g.intermission <= INTERMISSION_DURATION
    && AllPositive(g.sparks)
    && 0 <= g.shakeTimer
  }

  // ---------------------------------------------------------------------
  // Per-frame update

  /**
    One frame: the combo timer runs only while there is a combo and the
    combo drops to zero all at once when the timer runs out; sparks decay;
    the shake and intermission countdowns run while positive.
   */
  function Update(g: Manager): (r: Manager)
    ensures r.combo == g.combo || r.combo == 0
    ensures g.combo > 0 ==> r.comboTimer == g.comboTimer - 1 && (r.combo == 0 <==> g.comboTimer <= 1)
    ensures g.combo <= 0 ==> r.comboTimer == g.comboTimer && r.combo == g.combo
    ensures g.intermission > 0 ==> r.intermission == g.intermission - 1
    ensures g.shakeTimer > 0 ==> r.shakeTimer == g.shakeTimer - 1
    ensures g.shakeTimer <= 0 ==> r.shakeTimer == g.shakeTimer
    ensures r.shakeIntensity == g.shakeIntensity
    ensures g.intermission <= 0 ==> r.intermission == g.intermission
    ensures r.sparks == Tick(g.sparks)
    ensures r.waveComplete == g.waveComplete && r.score == g.score && r.highScore == g.highScore
    ensures r.wave == g.wave && r.defeated == g.defeated && r.monstersInWave == g.monstersInWave
    ensures r == g.(combo := r.combo, comboTimer := r.comboTimer, sparks := r.sparks,
                    shakeTimer := r.shakeTimer, intermission := r.intermission)
  {
    var timer := if g.combo > 0 then g.comboTimer - 1 else g.comboTimer;
    var combo := if g.combo > 0 && timer <= 0 then 0 else g.combo;
    g.(combo := combo,
       comboTimer := timer,
       sparks := Tick(g.sparks),
       shakeTimer := if g.shakeTimer > 0 then g.shakeTimer - 1 else g.shakeTimer,
       intermission := if g.intermission > 0 then g.intermission - 1 else g.intermission)
  }

  function UpdateN(g: Manager, n: nat): Manager
    decreases n
  {
    if n == 0 then g else UpdateN(Update(g), n - 1)
  }

  // ---------------------------------------------------------------------
  // Combo

  /** A hit of `damage` adds to the combo and restarts its timer. */
  function OnHit(g: Manager, damage: int): (r: Manager)
    ensures r.combo == g.combo + damage
    ensures r.comboTimer == COMBO_TIMEOUT
    ensures r.maxCombo == Max(g.maxCombo, g.combo + damage)
    ensures r == g.(combo := r.combo, comboTimer := r.comboTimer, maxCombo := r.maxCombo)
  {
    var combo := g.combo + damage;
    g.(combo := combo,
       comboTimer := COMBO_TIMEOUT,
       maxCombo := if combo > g.maxCombo then combo else g.maxCombo)
  }

  /** Consecutive hits inside the window accumulate additively. */
  lemma OnHitAccumulates(g: Manager, a: int, b: int, c: int)
    ensures OnHit(OnHit(OnHit(g, a), b), c).combo == g.combo + a + b + c
    ensures OnHit(OnHit(OnHit(g, a), b), c).maxCombo >= g.combo + a + b + c
  {
  }

  /**
    A running combo with timer `t >= 1` keeps its value for the next
    `t - 1` frames and is zero from frame `t` on.
   */
  lemma {:induction false} ComboCountdown(g: Manager, n: nat)
    requires g.combo > 0 && g.comboTimer >= 1
    ensures n < g.comboTimer ==> UpdateN(g, n).combo == g.combo && UpdateN(g, n).comboTimer == g.comboTimer - n
    ensures n >= g.comboTimer ==> UpdateN(g, n).combo == 0
    decreases n
  {
    if n > 0 {
      var u := Update(g);
      if g.comboTimer > 1 {
        ComboCountdown(u, n - 1);
      } else {
        ComboStaysZero(u, n - 1);
      }
    }
  }

  lemma {:induction false} ComboStaysZero(g: Manager, n: nat)
    requires g.combo == 0
    ensures UpdateN(g, n).combo == 0
    decreases n
  {
    if n > 0 {
      ComboStaysZero(Update(g), n - 1);
    }
  }

  /**
    After a hit the combo survives exactly COMBO_TIMEOUT - 1 idle frames
    and is reset to zero on frame COMBO_TIMEOUT, never gradually.
   */
  lemma ComboWindowAfterHit(g: Manager, damage: int, n: nat)
    requires g.combo + damage > 0
    ensures n < COMBO_TIMEOUT ==> UpdateN(OnHit(g, damage), n).combo == g.combo + damage
    ensures n >= COMBO_TIMEOUT ==> UpdateN(OnHit(g, damage), n).combo == 0
  {
    ComboCountdown(OnHit(g, damage), n);
  }

  // ---------------------------------------------------------------------
  // Scoring

  /**
    The score a kill earns: `int(base * (1 + combo / 10))`, computed on
    exact reals and truncated toward zero.
   */
  function KillScore(base: int, combo: int): (r: int)
    ensures base >= 0 && combo >= 0 ==> base <= r
  {
    var x := base as real * (1.0 + combo as real / 10.0);
    assert base >= 0 && combo >= 0 ==> base as real <= x by {
      if base >= 0 && combo >= 0 {
        assert x == base as real + base as real * (combo as real / 10.0);
        assert base as real * (combo as real / 10.0) >= 0.0;
      }
    }
    Trunc(x)
  }

  /**
    For non-negative base and combo the kill score is the integer
    `floor(base * (10 + combo) / 10)`, so it is never below the base and
    grows with the combo.
   */
  lemma KillScoreIsIntegerFormula(base: int, combo: int)
    requires base >= 0 && combo >= 0
    ensures KillScore(base, combo) == (base * (10 + combo)) / 10
    ensures KillScore(base, combo) >= base
  {
    var p := base * (10 + combo);
    var q := p / 10;
    var x := base as real * (1.0 + combo as real / 10.0);
    assert x == p as real / 10.0;
    assert q * 10 <= p < q * 10 + 10;
    assert q as real <= x < q as real + 1.0;
    assert p >= base * 10;
  }

  /** The shake a kill starts: (duration, intensity), stronger for a boss. */
  function KillShake(kind: Monsters.Kind): (d: (int, int))
    ensures d.0 >= 10 && d.1 >= 5
    ensures kind == Monsters.Boss <==> d.0 > 10 && d.1 > 5
  {
    if kind == Monsters.Boss then (20, 15) else (10, 5)
  }

  /** A legal draw of spark lifetimes. */
  predicate SparkLives(lives: seq<int>) {
    AllWithin(lives, SPARK_LIFE_MIN, SPARK_LIFE_MAX)
  }

  /** Add one spark per lifetime drawn. */
  function SpawnHitEffect(g: Manager, lives: seq<int>): (r: Manager)
    requires SparkLives(lives)
    ensures |r.sparks| == |g.sparks| + |lives|
    ensures r.sparks[..|g.sparks|] == g.sparks
    ensures AllWithin(r.sparks[|g.sparks|..], SPARK_LIFE_MIN, SPARK_LIFE_MAX)
    ensures AllPositive(g.sparks) ==> AllPositive(r.sparks)
    ensures r == g.(sparks := r.sparks)
  {
    g.(sparks := g.sparks + lives)
  }

  /**
    A kill: the score grows by the kill score, the high score follows
    as a running maximum, the wave's defeated count grows by exactly one,
    the screen shakes and KILL_SPARKS sparks appear. Returns the earned
    score alongside the new state.
   */
  function OnMonsterKilled(g: Manager, m: Monsters.Monster, lives: seq<int>): (r: (Manager, int))
    requires |lives| == KILL_SPARKS && SparkLives(lives)
    ensures r.1 == KillScore(m.scoreValue, g.combo)
    ensures r.0.score == g.score + r.1
    ensures r.0.highScore == Max(g.highScore, r.0.score)
    ensures r.0.defeated == g.defeated + 1
    ensures (r.0.shakeTimer, r.0.shakeIntensity) == KillShake(m.kind)
    ensures |r.0.sparks| == |g.sparks| + KILL_SPARKS
    ensures r.0.sparks[..|g.sparks|] == g.sparks
    ensures AllWithin(r.0.sparks[|g.sparks|..], SPARK_LIFE_MIN, SPARK_LIFE_MAX)
    ensures r.0 == g.(score := r.0.score, highScore := r.0.highScore, defeated := r.0.defeated,
                      shakeTimer := r.0.shakeTimer, shakeIntensity := r.0.shakeIntensity, sparks := r.0.sparks)
  {
    var earned := KillScore(m.scoreValue, g.combo);
    var score := g.score + earned;
    var shake := KillShake(m.kind);
    var g1 := g.(score := score,
                 highScore := if score > g.highScore then score else g.highScore,
                 defeated := g.defeated + 1,
                 shakeTimer := shake.0,
                 shakeIntensity := shake.1);
    (SpawnHitEffect(g1, lives), earned)
  }

  lemma {:induction false} SparksAfter(g: Manager, n: nat)
    ensures UpdateN(g, n).sparks == TickN(g.sparks, n)
    decreases n
  {
    if n > 0 {
      SparksAfter(Update(g), n - 1);
    }
  }

  /**
    After a hit effect the spark pool is empty `n >= 1` frames later
    exactly when every old spark and every new one lives at most `n`
    frames.
   */
  lemma HitSparksExpire(g: Manager, lives: seq<int>, n: nat)
    requires SparkLives(lives) && n >= 1
    ensures UpdateN(SpawnHitEffect(g, lives), n).sparks == [] <==> AllAtMost(g.sparks, n) && AllAtMost(lives, n)
  {
    var h := SpawnHitEffect(g, lives);
    assert h.sparks == g.sparks + lives;
    SparksAfter(h, n);
    EmptyAfterIffAllAtMost(h.sparks, n);
    if AllAtMost(g.sparks, n) && AllAtMost(lives, n) {
      assert forall i :: 0 <= i < |h.sparks| ==> h.sparks[i] <= n by {
        forall i | 0 <= i < |h.sparks| ensures h.sparks[i] <= n {
          if i >= |g.sparks| { assert h.sparks[i] == lives[i - |g.sparks|]; }
        }
      }
    }
    if AllAtMost(h.sparks, n) {
      assert forall i :: 0 <= i < |lives| ==> lives[i] <= n by {
        forall i | 0 <= i < |lives| ensures lives[i] <= n {
          assert lives[i] == h.sparks[|g.sparks| + i];
        }
      }
    }
  }

  /**
    Fresh sparks never outlast SPARK_LIFE_MAX - 1 frames: a pool whose
    old sparks are that young is empty that many frames after a hit.
   */
  lemma HitSparksExpireInTime(g: Manager, lives: seq<int>)
    requires SparkLives(lives) && AllAtMost(g.sparks, SPARK_LIFE_MAX - 1)
    ensures UpdateN(SpawnHitEffect(g, lives), SPARK_LIFE_MAX - 1).sparks == []
  {
    HitSparksExpire(g, lives, SPARK_LIFE_MAX - 1);
  }

  /** Shake amplitude: timer / 20 * intensity. */
  function ShakeStrength(g: Manager): real {
    g.shakeTimer as real / 20.0 * g.shakeIntensity as real
  }

  lemma ShakeStrengthNonNegative(g: Manager)
    requires g.shakeTimer >= 0 && g.shakeIntensity >= 0
    ensures ShakeStrength(g) >= 0.0
  {
    assert g.shakeTimer as real / 20.0 >= 0.0;
  }

  /** One axis of the shake: a draw from [-s, s) truncated toward zero. */
  function ShakeAxis(s: real, f: real): (o: int)
    ensures s >= 0.0 && 0.0 <= f < 1.0 ==> Abs(o) as real <= s
  {
    var v := -s + 2.0 * s * f;
    assert s >= 0.0 && 0.0 <= f < 1.0 ==> -s <= v <= s by {
      if s >= 0.0 && 0.0 <= f < 1.0 {
        FractionBelow(s, f);
      }
    }
    Trunc(v)
  }

  /**
    The screen shake offset: zero once the shake has run out; otherwise
    each axis is a uniform draw from [-s, s), s = ShakeStrength, truncated
    toward zero. `fx` and `fy` are the draws as fractions of the interval.
   */
  function ShakeOffset(g: Manager, fx: real, fy: real): (r: (int, int))
    requires 0.0 <= fx < 1.0 && 0.0 <= fy < 1.0
    ensures g.shakeTimer <= 0 ==> r == (0, 0)
    ensures g.shakeTimer > 0 && g.shakeIntensity >= 0 ==>
      Abs(r.0) as real <= ShakeStrength(g) && Abs(r.1) as real <= ShakeStrength(g)
  {
    if g.shakeTimer <= 0 then (0, 0)
    else
      assert g.shakeIntensity >= 0 ==> ShakeStrength(g) >= 0.0 by {
        if g.shakeIntensity >= 0 {
          ShakeStrengthNonNegative(g);
        }
      }
      (ShakeAxis(ShakeStrength(g), fx), ShakeAxis(ShakeStrength(g), fy))
  }

  lemma FractionBelow(s: real, f: real)
    requires s >= 0.0 && 0.0 <= f < 1.0
    ensures 0.0 <= s * f <= s
  {
    assert s * f <= s * 1.0;
  }

  // ---------------------------------------------------------------------
  // Waves

  /** Size of a non-boss wave: grows by one every second wave, capped. */
  function NormalWaveSize(n: int): (k: nat)
    ensures k <= MAX_WAVE_SIZE
    ensures n >= 0 ==> k == Min(2 + n / 2, MAX_WAVE_SIZE)
  {
    var k := Min(2 + n / 2, MAX_WAVE_SIZE);
    if k < 0 then 0 else k
  }

  /**
    The weighted type choice for one entry of wave `n` from a uniform
    draw: fast under 0.3 from wave 3 on, tank under 0.6 from wave 2 on,
    normal otherwise.
   */
  function PickKind(n: int, draw: real): (k: Monsters.Kind)
    ensures k != Monsters.Boss
    ensures k == Monsters.Fast ==> n >= 3 && draw < 0.3
    ensures k == Monsters.Tank ==> n >= 2 && draw < 0.6
    ensures n <= 1 ==> k == Monsters.Normal
    ensures n >= 3 && draw < 0.3 ==> k == Monsters.Fast
    ensures n >= 2 && draw < 0.6 && !(n >= 3 && draw < 0.3) ==> k == Monsters.Tank
    ensures !(n >= 2 && draw < 0.6) ==> k == Monsters.Normal
  {
    if n >= 3 && draw < 0.3 then Monsters.Fast
    else if n >= 2 && draw < 0.6 then Monsters.Tank
    else Monsters.Normal
  }

  /** The list of monsters wave `n` spawns, given one draw per entry. */
  function WaveList(n: int, draws: seq<real>): (w: seq<SpawnEntry>)
    requires n % 5 != 0 ==> |draws| == NormalWaveSize(n)
    ensures n % 5 == 0 ==> w == [SpawnEntry(Monsters.Boss, n / 5)]
    ensures n % 5 != 0 ==> |w| == NormalWaveSize(n)
    ensures n % 5 != 0 ==> forall i :: 0 <= i < |w| ==>
      w[i].kind != Monsters.Boss && w[i].difficulty == Max(1, n / 2) && w[i].kind == PickKind(n, draws[i])
  {
    if n % 5 == 0 then [SpawnEntry(Monsters.Boss, n / 5)]
    else seq(NormalWaveSize(n), i requires 0 <= i < NormalWaveSize(n) => SpawnEntry(PickKind(n, draws[i]), Max(1, n / 2)))
  }

  /**
    Start wave `n`: reset the wave counters and return its spawn list.
    A boss wave (every fifth) is one boss alone; any other wave has
    between one and MAX_WAVE_SIZE entries (for `n >= 1`), no boss, fast
    monsters only from wave 3 and tanks only from wave 2.
   */
  function StartWave(g: Manager, n: int, draws: seq<real>): (r: (Manager, seq<SpawnEntry>))
    requires n % 5 != 0 ==> |draws| == NormalWaveSize(n)
    ensures r.0.wave == n && r.0.defeated == 0 && !r.0.waveComplete
    ensures r.1 == WaveList(n, draws)
    ensures r.0 == g.(wave := n, defeated := 0, waveComplete := false, monstersInWave := r.1)
    ensures (exists i :: 0 <= i < |r.1| && r.1[i].kind == Monsters.Boss) <==> n % 5 == 0
    ensures n >= 1 ==> 1 <= |r.1| <= MAX_WAVE_SIZE
    ensures forall i :: 0 <= i < |r.1| && r.1[i].kind == Monsters.Fast ==> n >= 3
    ensures forall i :: 0 <= i < |r.1| && r.1[i].kind == Monsters.Tank ==> n >= 2
  {
    var w := WaveList(n, draws);
    assert n % 5 == 0 ==> w[0].kind == Monsters.Boss;
    (g.(wave := n, defeated := 0, waveComplete := false, monstersInWave := w), w)
  }

  /** Wave 1 is all normal monsters; waves 5 and 10 are a single boss. */
  lemma EarlyWaves(g: Manager, draws: seq<real>)
    requires |draws| == NormalWaveSize(1)
    ensures forall i :: 0 <= i < |StartWave(g, 1, draws).1| ==> StartWave(g, 1, draws).1[i].kind == Monsters.Normal
    ensures StartWave(g, 5, []).1 == [SpawnEntry(Monsters.Boss, 1)]
    ensures StartWave(g, 10, []).1 == [SpawnEntry(Monsters.Boss, 2)]
  {
  }

  /**
    The completion check, given the number of monsters still on the
    field: complete iff none is left and the wave's whole list has been
    defeated. The intermission starts only on the first completion.
   */
  function CheckWaveComplete(g: Manager, active: int): (r: (Manager, bool))
    ensures r.1 <==> active == 0 && g.defeated >= |g.monstersInWave|
    ensures r.1 && !g.waveComplete ==> r.0 == g.(waveComplete := true, intermission := INTERMISSION_DURATION)
    ensures !(r.1 && !g.waveComplete) ==> r.0 == g
  {
    if active == 0 && g.defeated >= |g.monstersInWave| then
      if !g.waveComplete then (g.(waveComplete := true, intermission := INTERMISSION_DURATION), true)
      else (g, true)
    else (g, false)
  }

  predicate CanSpawnNextWave(g: Manager) {
    g.waveComplete && g.intermission <= 0
  }

  /** Once complete, further checks leave the state (and its timer) alone. */
  lemma CheckWaveCompleteStable(g: Manager, active: int)
    requires g.waveComplete
    ensures CheckWaveComplete(g, active).0 == g
  {
  }

  /**
    With the wave complete and `t >= 0` frames of intermission left, the
    next wave may start after `n` frames exactly when `n >= t`.
   */
  lemma {:induction false} IntermissionCountdown(g: Manager, n: nat)
    requires g.waveComplete && g.intermission >= 0
    ensures CanSpawnNextWave(UpdateN(g, n)) <==> n >= g.intermission
    ensures UpdateN(g, n).intermission == Max(g.intermission - n, 0)
    decreases n
  {
    if n > 0 {
      IntermissionCountdown(Update(g), n - 1);
    }
  }

  /**
    From the first completion, the gate opens after exactly
    INTERMISSION_DURATION frames.
   */
  lemma WaveGate(g: Manager, n: nat)
    requires !g.waveComplete && g.defeated >= |g.monstersInWave|
    ensures CheckWaveComplete(g, 0).1
    ensures CanSpawnNextWave(UpdateN(CheckWaveComplete(g, 0).0, n)) <==> n >= INTERMISSION_DURATION
  {
    IntermissionCountdown(CheckWaveComplete(g, 0).0, n);
  }

  // ---------------------------------------------------------------------
  // Reset

  /**
    Restart: counters, wave state, sparks and shake timer go back to
    zero. The wave number becomes 0 (the caller starts wave 1 next), and
    the high score and the shake intensity are kept.
   */
  function Reset(g: Manager): (r: Manager)
    ensures r.highScore == g.highScore && r.shakeIntensity == g.shakeIntensity
    ensures r.score == 0 && r.combo == 0 && r.wave == 0 && r.monstersInWave == [] && r.sparks == []
  {
    g.(score := 0, combo := 0, maxCombo := 0, comboTimer := 0, wave := 0,
       monstersInWave := [], defeated := 0, waveComplete := false,
       intermission := 0, sparks := [], shakeTimer := 0)
  }

  /** Reset agrees with a fresh manager on everything except the wave
      number, the high score and the shake intensity. */
  lemma ResetIsFreshExceptKept(g: Manager)
    ensures Reset(g) == Init.(wave := 0, highScore := g.highScore, shakeIntensity := g.shakeIntensity)
  {
  }

  /**
    Round trip of the restart key: reset followed by starting wave 1
    gives the state a fresh manager has after starting wave 1, except
    for the kept high score and shake intensity.
   */
  lemma ResetThenFirstWave(g: Manager, draws: seq<real>)
    requires |draws| == NormalWaveSize(1)
    ensures StartWave(Reset(g), 1, draws).0
         == StartWave(Init, 1, draws).0.(highScore := g.highScore, shakeIntensity := g.shakeIntensity)
    ensures StartWave(Reset(g), 1, draws).1 == StartWave(Init, 1, draws).1
  {
  }

  // ---------------------------------------------------------------------
  // Invariant

  lemma InitValid()
    ensures Valid(Init)
  {
  }

  lemma ValidPreserved(g: Manager, damage: int, m: Monsters.Monster, lives: seq<int>, n: int, draws: seq<real>, active: int, sparks: seq<int>)
    requires Valid(g) && damage >= 0 && m.scoreValue >= 0
    requires SparkLives(sparks)
    requires |lives| == KILL_SPARKS && SparkLives(lives)
    requires n % 5 != 0 ==> |draws| == NormalWaveSize(n)
    ensures Valid(Update(g))
    ensures Valid(OnHit(g, damage))
    ensures Valid(SpawnHitEffect(g, sparks))
    ensures Valid(OnMonsterKilled(g, m, lives).0)
    ensures Valid(StartWave(g, n, draws).0)
    ensures Valid(CheckWaveComplete(g, active).0)
    ensures Valid(Reset(g))
  {
    KillScoreIsIntegerFormula(m.scoreValue, g.combo);
  }

  // ---------------------------------------------------------------------
  // A hit resolved against one monster, with the kill detected as intended

  /**
    The game loop's handling of one monster's hit count `hits` this
    frame. A dying monster is not checked at all and a zero count does
    nothing. Otherwise the monster takes the damage, the combo grows,
    HIT_SPARKS sparks appear, and the kill is credited on the frame the
    monster starts dying (Monsters.JustDied).
   */
  function ResolveHit(g: Manager, m: Monsters.Monster, hits: int, debris: seq<int>, sparks: seq<int>, lives: seq<int>): (r: (Manager, Monsters.Monster))
    requires Monsters.DeathBurst(debris)
    requires |sparks| == HIT_SPARKS && SparkLives(sparks)
    requires |lives| == KILL_SPARKS && SparkLives(lives)
    ensures m.dying || hits <= 0 ==> r == (g, m)
    ensures !m.dying && hits > 0 ==>
      && r.1 == Monsters.TakeDamage(m, hits, debris)
      && r.0.combo == g.combo + hits
      && r.0.comboTimer == COMBO_TIMEOUT
      && r.0.maxCombo == Max(g.maxCombo, g.combo + hits)
      && |g.sparks| <= |r.0.sparks|
      && r.0.sparks[..|g.sparks|] == g.sparks
      && AllWithin(r.0.sparks[|g.sparks|..], SPARK_LIFE_MIN, SPARK_LIFE_MAX)
      && r.0 == g.(combo := r.0.combo, comboTimer := r.0.comboTimer, maxCombo := r.0.maxCombo,
                   sparks := r.0.sparks, score := r.0.score, highScore := r.0.highScore,
                   defeated := r.0.defeated, shakeTimer := r.0.shakeTimer,
                   shakeIntensity := r.0.shakeIntensity)
    ensures !m.dying && hits > 0 && Monsters.JustDied(m, r.1) ==>
      && r.0.defeated == g.defeated + 1
      && r.0.score == g.score + KillScore(m.scoreValue, g.combo + hits)
      && r.0.highScore == Max(g.highScore, r.0.score)
      && (r.0.shakeTimer, r.0.shakeIntensity) == KillShake(m.kind)
      && |r.0.sparks| == |g.sparks| + HIT_SPARKS + KILL_SPARKS
    ensures !m.dying && hits > 0 && !Monsters.JustDied(m, r.1) ==>
      && r.0.defeated == g.defeated && r.0.score == g.score && |r.0.sparks| == |g.sparks| + HIT_SPARKS
      && r.0.highScore == g.highScore
      && r.0.shakeTimer == g.shakeTimer && r.0.shakeIntensity == g.shakeIntensity
  {
    if m.dying || hits <= 0 then (g, m)
    else
      var m1 := Monsters.TakeDamage(m, hits, debris);
      var g1 := SpawnHitEffect(OnHit(g, hits), sparks);
      if Monsters.JustDied(m, m1) then
        var g2 := OnMonsterKilled(g1, m1, lives).0;
        assert g2.sparks == g.sparks + sparks + lives;
        assert g2.sparks[..|g.sparks|] == g.sparks && AllWithin(g2.sparks[|g.sparks|..], SPARK_LIFE_MIN, SPARK_LIFE_MAX) by {
          AppendedWithin(g.sparks, sparks, lives, SPARK_LIFE_MIN, SPARK_LIFE_MAX);
        }
        (g2, m1)
      else (g1, m1)
  }

  /** Two appended runs within [lo, hi) leave the old prefix and a suffix within [lo, hi). */
  lemma AppendedWithin(before: seq<int>, a: seq<int>, b: seq<int>, lo: int, hi: int)
    requires AllWithin(a, lo, hi) && AllWithin(b, lo, hi)
    ensures (before + a + b)[..|before|] == before
    ensures AllWithin((before + a + b)[|before|..], lo, hi)
  {
    assert (before + a + b)[|before|..] == a + b;
  }

  /**
    Each monster of a wave is credited once: a monster that is already
    dying never adds to the defeated count again, and a living one adds
    one exactly when the hit empties its health.
   */
  lemma KillCreditedOnce(g: Manager, m: Monsters.Monster, hits: int, debris: seq<int>, sparks: seq<int>, lives: seq<int>)
    requires Monsters.Valid(m) && Monsters.DeathBurst(debris)
    requires |sparks| == HIT_SPARKS && SparkLives(sparks)
    requires |lives| == KILL_SPARKS && SparkLives(lives)
    ensures ResolveHit(g, m, hits, debris, sparks, lives).0.defeated == g.defeated + (if Monsters.IsAlive(m) && m.health <= hits then 1 else 0)
  {
  }

  /**
    The combined hit step keeps the manager invariant too, for any hit
    count and any monster whose score value is non-negative (every
    monster built from the stats table).
   */
  lemma ValidPreservedByResolveHit(g: Manager, m: Monsters.Monster, hits: int, debris: seq<int>, sparks: seq<int>, lives: seq<int>)
    requires Valid(g) && m.scoreValue >= 0
    requires Monsters.DeathBurst(debris)
    requires |sparks| == HIT_SPARKS && SparkLives(sparks)
    requires |lives| == KILL_SPARKS && SparkLives(lives)
    ensures Valid(ResolveHit(g, m, hits, debris, sparks, lives).0)
  {
    if !m.dying && hits > 0 {
      var g1 := SpawnHitEffect(OnHit(g, hits), sparks);
      assert Valid(OnHit(g, hits));
      assert Valid(g1);
      var m1 := Monsters.TakeDamage(m, hits, debris);
      if Monsters.JustDied(m, m1) {
        KillScoreIsIntegerFormula(m1.scoreValue, g1.combo);
        assert Valid(OnMonsterKilled(g1, m1, lives).0);
      }
    }
  }
}
