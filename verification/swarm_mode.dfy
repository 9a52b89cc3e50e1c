/**
  The mode machine of the particle system: the swarm's behaviour mode,
  the previous mode, and the transition effect pulse that fires once per
  actual change of mode and then counts down. The force laws that read
  these fields are not part of this model.
 */
module SwarmMode {
  import opened Wrappers

  /** Frames a transition effect lasts. */
  const EFFECT_DURATION: int := 30
  /** Simulation clock increment per frame. */
  const TIME_STEP: real := 0.02

  datatype Mode = Free | Gather | Scatter | Pointing

  datatype Effect = GatherPulse | ScatterBurst | Release

  datatype System = System(mode: Mode, prevMode: Mode, effectTimer: int, effectType: Option<Effect>, time: real)

  /** A freshly built system: free mode, no effect, clock at zero. */
  const Init: System := System(Free, Free, 0, None, 0.0)

  /** The pulse each target mode triggers. */
  function EffectFor(m: Mode): (e: Effect)
    ensures e == GatherPulse <==> m == Gather || m == Pointing
    ensures e == ScatterBurst <==> m == Scatter
    ensures e == Release <==> m == Free
  {
    match m
    case Gather => GatherPulse
    case Pointing => GatherPulse
    case Scatter => ScatterBurst
    case Free => Release
  }

  /** Start the effect pulse for a change into `newMode`. */
  function TriggerEffect(s: System, newMode: Mode): (r: System)
    ensures r.effectTimer == EFFECT_DURATION && r.effectType == Some(EffectFor(newMode))
    ensures r.mode == s.mode && r.prevMode == s.prevMode && r.time == s.time
  {
    s.(effectTimer := EFFECT_DURATION, effectType := Some(EffectFor(newMode)))
  }

  /**
    Select a mode. Re-selecting the current mode changes nothing; a real
    change remembers the old mode and (re)starts the effect pulse for the
    new one, replacing any pulse in progress.
   */
  function SetMode(s: System, m: Mode): (r: System)
    ensures r.mode == m && r.time == s.time
    ensures m == s.mode ==> r == s
    ensures m != s.mode ==> r.prevMode == s.mode && r.effectTimer == EFFECT_DURATION
    ensures m != s.mode ==> r.effectType == Some(EffectFor(m))
  {
    if m != s.mode then
      TriggerEffect(s, m).(prevMode := s.mode, mode := m)
    else
      s.(mode := m)
  }

  /** The bookkeeping part of one frame of `update`: clock and effect timer. */
  function Update(s: System): (r: System)
    ensures r.time > s.time
    ensures s.effectTimer > 0 ==> r.effectTimer == s.effectTimer - 1
    ensures s.effectTimer <= 0 ==> r.effectTimer == s.effectTimer
    ensures r.mode == s.mode && r.prevMode == s.prevMode && r.effectType == s.effectType
  {
    s.(time := s.time + TIME_STEP,
       effectTimer := if s.effectTimer > 0 then s.effectTimer - 1 else s.effectTimer)
  }

  function UpdateN(s: System, n: nat): System
    decreases n
  {
    if n == 0 then s else UpdateN(Update(s), n - 1)
  }

  /**
    Invariant of every reachable system: the timer lies in
    [0, EFFECT_DURATION]; an effect has fired iff the previous mode differs
    from the current one; a fired effect belongs to the current mode.
   */
  predicate Valid(s: System) {
    && 0 <= s.effectTimer <= EFFECT_DURATION
    && (s.effectType.None? <==> s.prevMode == s.mode)
    && (s.effectType.None? ==> s.effectTimer == 0)
    && (s.effectType.Some? ==> s.effectType.value == EffectFor(s.mode))
  }

  lemma InitValid()
    ensures Valid(Init)
  {
  }

  lemma ValidPreserved(s: System, m: Mode)
    requires Valid(s)
    ensures Valid(SetMode(s, m))
    ensures Valid(Update(s))
  {
  }

  /** Setting the same mode twice in a row fires the effect at most once. */
  lemma SetModeIdempotent(s: System, m: Mode)
    ensures SetMode(SetMode(s, m), m) == SetMode(s, m)
  {
  }

  /**
    The effect pulse after a transition runs for exactly EFFECT_DURATION
    frames: it is still active after `n` frames iff `n < EFFECT_DURATION`,
    and the timer never drops below zero.
   */
  lemma {:induction false} EffectRunsOut(s: System, n: nat)
    requires 0 <= s.effectTimer
    ensures UpdateN(s, n).effectTimer == if n < s.effectTimer then s.effectTimer - n else 0
    ensures UpdateN(s, n).effectType == s.effectType && UpdateN(s, n).mode == s.mode
    decreases n
  {
    if n > 0 {
      EffectRunsOut(Update(s), n - 1);
    }
  }

  lemma TransitionPulseLength(s: System, m: Mode, n: nat)
    requires m != s.mode
    ensures UpdateN(SetMode(s, m), n).effectTimer > 0 <==> n < EFFECT_DURATION
  {
    EffectRunsOut(SetMode(s, m), n);
  }
}
