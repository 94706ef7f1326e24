/**
 * The simulation hook: the closed-form energy and impact helpers, the per-frame
 * geometry and physics, and the run state (status, marble, collision log, step
 * index and the three hidden cursors) with its start/pause/reset controls and
 * the per-frame step.
 *
 * Math.sqrt, Math.cos and Math.sin are not defined here: they are function
 * values handed to the simulation. The square root is known only through
 * IsSqrt; cosine and sine are left unconstrained.
 */
module RubeGoldberg {
  import opened Types
  import opened Constants

  /** Seconds per frame (the hook assumes 60 frames per second). */
  const TIME_STEP: real := 1.0 / 60.0
  /** Kinetic-energy factor of a solid sphere rolling without slipping. */
  const ROLLING_ENERGY: real := 10.0 / 7.0
  /** Acceleration factor of a solid sphere rolling without slipping. */
  const ROLLING_ACCELERATION: real := 5.0 / 7.0

  ghost predicate IsSqrt(sqrt: real -> real)
  {
    forall x :: 0.0 <= x ==> 0.0 <= sqrt(x) && sqrt(x) * sqrt(x) == x
  }

  function Abs(x: real): real { if x < 0.0 then -x else x }

  function Min(a: real, b: real): real { if a <= b then a else b }

  /** a lies between b and c, whichever of b and c is the smaller. */
  predicate Between(b: real, a: real, c: real)
  {
    (b <= a <= c) || (c <= a <= b)
  }

  // ---------------------------------------------------------------------------
  // Closed-form helpers

  /** The squared speed after a drop of deltaH metres, starting from speed v0. */
  function DropEnergy(deltaH: real, v0: real): real
  {
    v0 * v0 + ROLLING_ENERGY * GRAVITY * deltaH
  }

  /** The speed of a squared speed: its root, or zero when it is negative. */
  function SpeedOfEnergy(energy: real, sqrt: real -> real): real
  {
    if energy < 0.0 then 0.0 else sqrt(energy)
  }

  /**
   * Energy conservation for a rolling sphere: the speed after dropping deltaH
   * metres; zero when the energy would be negative.
   */
  function CalcSpeedFromDrop(deltaH: real, v0: real, sqrt: real -> real): (r: real)
    requires IsSqrt(sqrt)
    ensures 0.0 <= r
    ensures DropEnergy(deltaH, v0) < 0.0 ==> r == 0.0
    ensures 0.0 <= DropEnergy(deltaH, v0) ==> r * r == DropEnergy(deltaH, v0)
  {
    SpeedOfEnergy(DropEnergy(deltaH, v0), sqrt)
  }

  lemma SquareStrictlyIncreasing(x: real, y: real)
    requires 0.0 <= x < y
    ensures x * x < y * y
  {
    assert y * y - x * x == (y - x) * (y + x);
    assert 0.0 < y - x && 0.0 < y + x;
  }

  /** Two non-negative numbers compare as their squares do. */
  lemma SquaresOrdered(a: real, b: real)
    requires 0.0 <= a && 0.0 <= b
    requires a * a <= b * b
    ensures a <= b
  {
    if b < a {
      SquareStrictlyIncreasing(b, a);
    }
  }

  lemma MulNonNegative(x: real, y: real)
    requires 0.0 <= x && 0.0 <= y
    ensures 0.0 <= x * y
  {
  }

  /** Interpolating from a towards b by a fraction t in [0, 1] stays between a and b. */
  lemma InterpolationBetween(a: real, b: real, t: real)
    ensures 0.0 <= t <= 1.0 ==> Between(a, a + (b - a) * t, b)
  {
    if 0.0 <= t <= 1.0 {
      var e := (b - a) * t;
      assert b - (a + e) == (b - a) * (1.0 - t);
      if a <= b {
        MulNonNegative(b - a, t);
        MulNonNegative(b - a, 1.0 - t);
        assert a <= a + e <= b;
      } else {
        MulNonNegative(a - b, t);
        MulNonNegative(a - b, 1.0 - t);
        assert (a - b) * t == -e;
        assert (a - b) * (1.0 - t) == -((b - a) * (1.0 - t));
        assert b <= a + e <= a;
      }
    }
  }

  /** A non-negative square root is unique. */
  lemma RootUnique(a: real, b: real)
    requires 0.0 <= a && 0.0 <= b
    requires a * a == b * b
    ensures a == b
  {
    SquaresOrdered(a, b);
    SquaresOrdered(b, a);
  }

  /**
   * The speed from the energy equation does not depend on which square-root
   * function computes it: it is the one non-negative root of the energy.
   */
  lemma SpeedFromDropIsTheRoot(deltaH: real, v0: real, sqrt: real -> real, s: real)
    requires IsSqrt(sqrt)
    requires 0.0 <= s && s * s == DropEnergy(deltaH, v0)
    ensures CalcSpeedFromDrop(deltaH, v0, sqrt) == s
  {
    RootUnique(CalcSpeedFromDrop(deltaH, v0, sqrt), s);
  }

  /** A drop never slows the marble and a rise never speeds it up. */
  lemma SpeedFromDropOrder(deltaH: real, v0: real, sqrt: real -> real)
    requires IsSqrt(sqrt)
    ensures 0.0 <= deltaH ==> Abs(v0) <= CalcSpeedFromDrop(deltaH, v0, sqrt)
    ensures deltaH <= 0.0 ==> CalcSpeedFromDrop(deltaH, v0, sqrt) <= Abs(v0)
  {
    var r := CalcSpeedFromDrop(deltaH, v0, sqrt);
    assert Abs(v0) * Abs(v0) == v0 * v0;
    if 0.0 <= deltaH {
      assert 0.0 <= ROLLING_ENERGY * GRAVITY * deltaH;
      SquaresOrdered(Abs(v0), r);
    }
    if deltaH <= 0.0 {
      assert ROLLING_ENERGY * GRAVITY * deltaH <= 0.0;
      SquaresOrdered(r, Abs(v0));
    }
  }

  /** Restitution: the speed after an impact, v * e. */
  function ApplyImpact(v: real, e: real): (r: real)
    ensures 0.0 <= v && 0.0 <= e <= 1.0 ==> 0.0 <= r <= v
    ensures 0.0 < v && 0.0 < e < 1.0 ==> 0.0 < r < v
    ensures e == 1.0 ==> r == v
  {
    FractionBounds(v, e);
    v * e
  }

  /** A fraction e in [0, 1] of a non-negative v lies in [0, v]. */
  lemma FractionBounds(v: real, e: real)
    ensures 0.0 <= v && 0.0 <= e <= 1.0 ==> 0.0 <= v * e <= v
    ensures 0.0 < v && 0.0 < e < 1.0 ==> 0.0 < v * e < v
  {
    assert v - v * e == v * (1.0 - e);
    if 0.0 <= v && 0.0 <= e <= 1.0 {
      MulNonNegative(v, e);
      MulNonNegative(v, 1.0 - e);
    }
    if 0.0 < v && 0.0 < e < 1.0 {
      MulPositive(v, e);
      MulPositive(v, 1.0 - e);
    }
  }

  lemma MulPositive(x: real, y: real)
    requires 0.0 < x && 0.0 < y
    ensures 0.0 < x * y
  {
  }

  // ---------------------------------------------------------------------------
  // Per-frame physics and geometry (the pieces of one frame, as specifications)

  function DeltaYMeters(step: Step): real { (step.end.y - step.start.y) / 100.0 }

  function LengthMeters(step: Step): real { step.length / 100.0 }

  /**
   * The acceleration along a step: full gravity on a fall; on a line or arc,
   * the rolling-sphere share of gravity along the slope, which is positive
   * going down, negative going up and zero on the level; zero on a step
   * without length.
   */
  function Acceleration(step: Step): (a: real)
    ensures step.kind == Fall ==> a == GRAVITY
    ensures step.kind != Fall && step.length <= 0.0 ==> a == 0.0
    ensures step.kind != Fall && 0.0 < step.length ==>
      a * step.length == ROLLING_ACCELERATION * GRAVITY * (step.end.y - step.start.y)
    ensures step.kind != Fall && 0.0 < step.length ==>
      && (0.0 < a <==> step.start.y < step.end.y)
      && (a < 0.0 <==> step.end.y < step.start.y)
      && (a == 0.0 <==> step.start.y == step.end.y)
  {
    if step.kind == Fall then GRAVITY
    else if 0.0 < LengthMeters(step) then
      ROLLING_ACCELERATION * GRAVITY * (DeltaYMeters(step) / LengthMeters(step))
    else 0.0
  }

  /** The fraction of the step covered, clamped above at 1. */
  function ProgressRatio(progress: real, length: real): (r: real)
    requires 0.0 < length
    ensures r <= 1.0
    ensures r == 1.0 <==> length <= progress
    ensures progress < length ==> r * length == progress
    ensures 0.0 <= progress ==> 0.0 <= r
  {
    Min(progress / length, 1.0)
  }

  /** Linear interpolation from a to b. */
  function Lerp(a: Vector, b: Vector, t: real): (r: Vector)
    ensures t == 0.0 ==> r == a
    ensures t == 1.0 ==> r == b
    ensures 0.0 <= t <= 1.0 ==> Between(a.x, r.x, b.x) && Between(a.y, r.y, b.y)
  {
    InterpolationBetween(a.x, b.x, t);
    InterpolationBetween(a.y, b.y, t);
    Vector(a.x + (b.x - a.x) * t, a.y + (b.y - a.y) * t)
  }

  /** The angle on an arc, as the hook computes it. */
  function ArcAngleAsWritten(startAngle: real, endAngle: real, anticlockwise: bool, ratio: real): (angle: real)
    ensures ratio == 0.0 ==> angle == startAngle
    ensures !anticlockwise && ratio == 1.0 ==> angle == endAngle
    ensures anticlockwise && ratio == 1.0 ==> angle == 2.0 * startAngle - endAngle
  {
    var totalAngle := if anticlockwise then startAngle - endAngle else endAngle - startAngle;
    startAngle + totalAngle * ratio
  }

  /**
   * On the reference track's anticlockwise arc (step 5, from pi to pi/2) the
   * computed angle ends at 3*pi/2 instead of at the end angle pi/2.
   */
  lemma AnticlockwiseArcOvershoots()
    ensures STEPS[4].kind == Arc && STEPS[4].anticlockwise == Some(true)
    ensures ArcAngleAsWritten(STEPS[4].startAngle.value, STEPS[4].endAngle.value, true, 1.0) == 3.0 * PI / 2.0
    ensures ArcAngleAsWritten(STEPS[4].startAngle.value, STEPS[4].endAngle.value, true, 1.0) != STEPS[4].endAngle.value
  {
  }

  /**
   * The angle on an arc, sweeping from the start angle to the end angle. The
   * sweep direction only says which way the arc is drawn; on this track's arcs
   * (steps 4 and 5) the signed difference endAngle - startAngle has the sign the
   * direction flag gives, so the marble follows the drawn arc.
   */
  function ArcAngle(startAngle: real, endAngle: real, ratio: real): (angle: real)
    ensures ratio == 0.0 ==> angle == startAngle
    ensures ratio == 1.0 ==> angle == endAngle
    ensures 0.0 <= ratio <= 1.0 ==> Between(startAngle, angle, endAngle)
  {
    InterpolationBetween(startAngle, endAngle, ratio);
    startAngle + (endAngle - startAngle) * ratio
  }

  /** The arc fields the position code needs (the sweep direction is not among them). */
  predicate HasArcGeometry(step: Step)
  {
    step.center.Some? && step.radius.Some? && step.startAngle.Some? && step.endAngle.Some?
  }

  function OnCircle(center: Vector, radius: real, angle: real, cos: real -> real, sin: real -> real): Vector
  {
    Vector(center.x + radius * cos(angle), center.y + radius * sin(angle))
  }

  /**
   * The marble's position at a progress ratio: along the segment for a line or
   * a fall, on the circle for an arc, and the previous position for an arc
   * whose fields are missing.
   */
  function PositionAt(step: Step, ratio: real, previous: Vector, cos: real -> real, sin: real -> real): (p: Vector)
    ensures step.kind != Arc && ratio == 0.0 ==> p == step.start
    ensures step.kind != Arc && ratio == 1.0 ==> p == step.end
    ensures step.kind != Arc && 0.0 <= ratio <= 1.0 ==>
      Between(step.start.x, p.x, step.end.x) && Between(step.start.y, p.y, step.end.y)
    ensures step.kind == Arc && !HasArcGeometry(step) ==> p == previous
    ensures step.kind == Arc && HasArcGeometry(step) && ratio == 0.0 ==>
      p == OnCircle(step.center.value, step.radius.value, step.startAngle.value, cos, sin)
    ensures step.kind == Arc && HasArcGeometry(step) && ratio == 1.0 ==>
      p == OnCircle(step.center.value, step.radius.value, step.endAngle.value, cos, sin)
  {
    match step.kind
    case Line | Fall =>
      Lerp(step.start, step.end, ratio)
    case Arc =>
      if HasArcGeometry(step) then
        OnCircle(step.center.value, step.radius.value,
                 ArcAngle(step.startAngle.value, step.endAngle.value, ratio), cos, sin)
      else
        previous
  }

  /** On the reference track no step has a zero length and no arc takes the fallback. */
  lemma ReferenceTrackIsWellFormed()
    ensures forall i :: 0 <= i < |STEPS| ==> 0.0 < STEPS[i].length
    ensures forall i :: 0 <= i < |STEPS| && STEPS[i].kind == Arc ==> HasArcGeometry(STEPS[i])
  {
    PositiveLengths();
    ArcsComplete();
  }

  /**
   * The drop to the Jenga block (step 2, 4 cm) entered at rest: the energy
   * equation gives about 0.749 m/s before the impact and about 0.449 m/s after it.
   */
  lemma FirstDropFromRest(sqrt: real -> real)
    requires IsSqrt(sqrt)
    ensures STEPS[1].kind == Fall
    ensures 0.7487 < CalcSpeedFromDrop(DeltaYMeters(STEPS[1]), 0.0, sqrt) < 0.7488
    ensures 0.4492 < ApplyImpact(CalcSpeedFromDrop(DeltaYMeters(STEPS[1]), 0.0, sqrt), COEFFICIENT_OF_RESTITUTION) < 0.4493
  {
    var r := CalcSpeedFromDrop(DeltaYMeters(STEPS[1]), 0.0, sqrt);
    assert DeltaYMeters(STEPS[1]) == 0.04;
    assert r * r == 981.0 / 1750.0;
    SquaresOrdered(0.7487, r);
    SquaresOrdered(r, 0.7488);
    assert 0.7487 != r && r != 0.7488;
  }

  // ---------------------------------------------------------------------------
  // The collision log

  /** The impact speeds of the transition out of step k (0-based). */
  ghost predicate ImpactSpeeds(k: int, vPre: real, vPost: real)
  {
    && 0.0 <= vPre
    && vPost == if k + 1 >= |STEPS| then 0.0 else ApplyImpact(vPre, COEFFICIENT_OF_RESTITUTION)
  }

  /**
   * A log of the steps completed so far, by the time now: entry k is for step
   * k + 1, carries the energy-equation and restitution speeds, and the entries
   * are stamped in increasing order, none later than now.
   */
  ghost predicate WellFormedLog(log: seq<CollisionEvent>, now: real)
  {
    && (forall k :: 0 <= k < |log| ==> log[k].step == k + 1)
    && (forall k :: 0 <= k < |log| ==> ImpactSpeeds(k, log[k].vPre, log[k].vPost))
    && (forall k :: 0 <= k < |log| ==> log[k].timestamp <= now)
    && (forall k :: 0 < k < |log| ==> log[k - 1].timestamp < log[k].timestamp)
  }

  /** Appending the next step's event, stamped later than everything before, keeps the log well formed. */
  lemma AppendKeepsLogWellFormed(log: seq<CollisionEvent>, e: CollisionEvent)
    requires WellFormedLog(log, e.timestamp)
    requires log != [] ==> log[|log| - 1].timestamp < e.timestamp
    requires e.step == |log| + 1
    requires ImpactSpeeds(|log|, e.vPre, e.vPost)
    ensures WellFormedLog(log + [e], e.timestamp)
  {
    var log' := log + [e];
    forall k | 0 <= k < |log'|
      ensures log'[k].step == k + 1 && ImpactSpeeds(k, log'[k].vPre, log'[k].vPost)
      ensures log'[k].timestamp <= e.timestamp
    {
      if k < |log| {
        assert log'[k] == log[k];
      }
    }
    forall k | 0 < k < |log'|
      ensures log'[k - 1].timestamp < log'[k].timestamp
    {
      if k < |log| {
        assert log'[k - 1] == log[k - 1] && log'[k] == log[k];
      } else {
        assert log'[k - 1] == log[k - 1];
      }
    }
  }

  /** Any two entries of a well-formed log are stamped in the order they were appended. */
  lemma {:induction false} LogTimestampsIncrease(log: seq<CollisionEvent>, now: real, j: int, k: int)
    requires WellFormedLog(log, now)
    requires 0 <= j < k < |log|
    ensures log[j].timestamp < log[k].timestamp
    decreases k - j
  {
    if j + 1 < k {
      LogTimestampsIncrease(log, now, j, k - 1);
    }
  }

  /** In a well-formed log no impact gains speed, and only the bell stops the marble. */
  lemma LogSpeedsInRange(log: seq<CollisionEvent>, now: real, k: int)
    requires WellFormedLog(log, now)
    requires 0 <= k < |log|
    ensures 0.0 <= log[k].vPost <= log[k].vPre
    ensures log[k].step < |STEPS| && 0.0 < log[k].vPre ==> 0.0 < log[k].vPost
  {
    assert ImpactSpeeds(k, log[k].vPre, log[k].vPost);
  }

  /** The speed carried into step k of a log: the previous entry's post-impact speed, or 0. */
  function CarriedInto(log: seq<CollisionEvent>, k: int): real
    requires 0 <= k <= |log|
  {
    if k == 0 then 0.0 else log[k - 1].vPost
  }

  /** Entry k has the energy-equation speed of step k from the speed carried into it. */
  ghost predicate EnergyEntry(log: seq<CollisionEvent>, sqrt: real -> real, k: int)
    requires 0 <= k < |log| && k < |STEPS|
  {
    log[k].vPre == SpeedOfEnergy(DropEnergy(DeltaYMeters(STEPS[k]), CarriedInto(log, k)), sqrt)
  }

  /** Entries k onwards are energy-equation speeds (see EnergyChain). */
  ghost predicate EnergyChainFrom(log: seq<CollisionEvent>, sqrt: real -> real, k: nat)
    requires |log| <= |STEPS|
    decreases |log| - k
  {
    k < |log| ==> EnergyEntry(log, sqrt, k) && EnergyChainFrom(log, sqrt, k + 1)
  }

  /**
   * The log is a chain of energy-equation speeds: each entry's pre-impact
   * speed comes from the energy equation over its step, starting from the
   * speed carried out of the previous impact (at rest for the first step).
   */
  ghost predicate EnergyChain(log: seq<CollisionEvent>, sqrt: real -> real)
  {
    |log| <= |STEPS| && EnergyChainFrom(log, sqrt, 0)
  }

  /** From entry j on, a chain holds exactly when every entry from j on has its energy-equation speed. */
  lemma {:induction false} ChainFromMeaning(log: seq<CollisionEvent>, sqrt: real -> real, j: nat)
    requires IsSqrt(sqrt)
    requires |log| <= |STEPS|
    ensures EnergyChainFrom(log, sqrt, j) <==>
              forall k :: j <= k < |log| ==>
                log[k].vPre == CalcSpeedFromDrop(DeltaYMeters(STEPS[k]), CarriedInto(log, k), sqrt)
    decreases |log| - j
  {
    if j < |log| {
      ChainFromMeaning(log, sqrt, j + 1);
    }
  }

  /**
   * A log is an energy chain exactly when each entry's pre-impact speed is
   * the energy-equation speed of its step from the speed carried into it.
   */
  lemma EnergyChainMeaning(log: seq<CollisionEvent>, sqrt: real -> real)
    requires IsSqrt(sqrt)
    requires |log| <= |STEPS|
    ensures EnergyChain(log, sqrt) <==>
              forall k :: 0 <= k < |log| ==>
                log[k].vPre == CalcSpeedFromDrop(DeltaYMeters(STEPS[k]), CarriedInto(log, k), sqrt)
  {
    ChainFromMeaning(log, sqrt, 0);
  }

  /** Appending an entry leaves the speeds carried into the earlier entries as they were. */
  lemma {:induction false} AppendKeepsChainFrom(log: seq<CollisionEvent>, sqrt: real -> real, e: CollisionEvent, k: nat)
    requires |log| < |STEPS|
    requires EnergyChainFrom(log, sqrt, k)
    requires k <= |log|
    requires EnergyEntry(log + [e], sqrt, |log|)
    ensures EnergyChainFrom(log + [e], sqrt, k)
    decreases |log| - k
  {
    var log' := log + [e];
    if k < |log| {
      assert log'[k] == log[k];
      assert CarriedInto(log', k) == CarriedInto(log, k);
      AppendKeepsChainFrom(log, sqrt, e, k + 1);
    } else {
      assert EnergyChainFrom(log', sqrt, k + 1);
    }
  }

  /** Appending the energy-equation speed from the last post-impact speed extends the chain. */
  lemma AppendKeepsEnergyChain(log: seq<CollisionEvent>, sqrt: real -> real, e: CollisionEvent)
    requires IsSqrt(sqrt)
    requires EnergyChain(log, sqrt)
    requires |log| < |STEPS|
    requires e.vPre == CalcSpeedFromDrop(DeltaYMeters(STEPS[|log|]), CarriedInto(log, |log|), sqrt)
    ensures EnergyChain(log + [e], sqrt)
  {
    var log' := log + [e];
    assert CarriedInto(log', |log|) == CarriedInto(log, |log|);
    AppendKeepsChainFrom(log, sqrt, e, 0);
  }

  /** A well-formed log stays well formed as time passes. */
  lemma LaterKeepsLogWellFormed(log: seq<CollisionEvent>, now: real, later: real)
    requires WellFormedLog(log, now)
    requires now < later
    ensures WellFormedLog(log, later)
    ensures log != [] ==> log[|log| - 1].timestamp < later
  {
  }

  // ---------------------------------------------------------------------------
  // The run state

  class Simulation {
    var status: SimulationStatus
    var marbleState: MarbleState
    var collisionLog: seq<CollisionEvent>
    var currentStepIndex: nat
    /** cm along the current step */
    var progressOnPath: real
    /** seconds */
    var simulationTime: real
    /** The speed the marble carried into the current step: the input of the energy equation. */
    var velocityAtStepStart: real
    /** Frames run since the last reset. */
    ghost var framesRun: nat
    /** Bell strikes since the last reset. */
    ghost var bellsRung: nat

    const sqrt: real -> real
    const cos: real -> real
    const sin: real -> real

    ghost predicate Valid()
      reads this
    {
      && IsSqrt(sqrt)
      && currentStepIndex <= |STEPS|
      && |collisionLog| == currentStepIndex
      && WellFormedLog(collisionLog, simulationTime)
      && EnergyChain(collisionLog, sqrt)
      && velocityAtStepStart ==
           (if collisionLog == [] then 0.0 else collisionLog[|collisionLog| - 1].vPost)
      && simulationTime == framesRun as real * TIME_STEP
      // finishing is the last transition, which leaves the marble at rest at the bell
      && (status == Finished ==> currentStepIndex == |STEPS|)
      && (currentStepIndex == |STEPS| ==>
            && progressOnPath == 0.0
            && marbleState.position == STEPS[|STEPS| - 1].end
            && marbleState.velocity == 0.0)
      && bellsRung == (if currentStepIndex == |STEPS| then 1 else 0)
    }

    /** The state the hook starts in and returns to on reset. */
    ghost predicate IsInitial()
      reads this
    {
      && status == Idle
      && marbleState == INITIAL_MARBLE_STATE
      && collisionLog == []
      && currentStepIndex == 0
      && progressOnPath == 0.0
      && simulationTime == 0.0
      && velocityAtStepStart == 0.0
      && framesRun == 0
      && bellsRung == 0
    }

    /** A frame does something only while running on a step of the track. */
    ghost predicate IsActive()
      reads this
    {
      status == Running && currentStepIndex < |STEPS|
    }

    constructor (sqrt: real -> real, cos: real -> real, sin: real -> real)
      requires IsSqrt(sqrt)
      ensures Valid() && IsInitial()
      ensures this.sqrt == sqrt && this.cos == cos && this.sin == sin
    {
      this.sqrt, this.cos, this.sin := sqrt, cos, sin;
      status := Idle;
      marbleState := INITIAL_MARBLE_STATE;
      collisionLog := [];
      currentStepIndex := 0;
      progressOnPath, simulationTime, velocityAtStepStart := 0.0, 0.0, 0.0;
      framesRun, bellsRung := 0, 0;
    }

    /** Start or resume, from any status. */
    method Start()
      requires Valid()
      modifies `status
      ensures Valid() && status == Running
    {
      status := Running;
    }

    /** Pause, from any status; everything else is kept for resuming. */
    method Pause()
      requires Valid()
      modifies `status
      ensures Valid() && status == Paused
    {
      status := Paused;
    }

    /** Back to the initial state, from any state; so resetting twice is resetting once. */
    method Reset()
      requires Valid()
      modifies this
      ensures Valid() && IsInitial()
    {
      status := Idle;
      marbleState := INITIAL_MARBLE_STATE;
      currentStepIndex := 0;
      collisionLog := [];
      progressOnPath := 0.0;
      simulationTime := 0.0;
      velocityAtStepStart := 0.0;
      framesRun, bellsRung := 0, 0;
    }

    /**
     * One animation frame. Returns true exactly when the marble strikes the
     * bell, that is on the transition out of the last step.
     */
    method Frame() returns (bell: bool)
      requires Valid()
      modifies this
      ensures Valid()
      ensures !old(IsActive()) ==> unchanged(this) && !bell
      ensures old(IsActive()) ==>
        simulationTime == old(simulationTime) + TIME_STEP && framesRun == old(framesRun) + 1
      ensures old(IsActive()) ==>
        var step := STEPS[old(currentStepIndex)];
        var v := old(marbleState.velocity) + Acceleration(step) * TIME_STEP;
        var progress := old(progressOnPath) + v * 100.0 * TIME_STEP;
        var ratio := ProgressRatio(progress, step.length);
        var position := PositionAt(step, ratio, old(marbleState.position), cos, sin);
        var height := MACHINE_HEIGHT_CM - position.y;
        if ratio < 1.0 then
          && status == Running
          && marbleState == MarbleState(position, v, height)
          && progressOnPath == progress
          && currentStepIndex == old(currentStepIndex)
          && collisionLog == old(collisionLog)
          && velocityAtStepStart == old(velocityAtStepStart)
          && bellsRung == old(bellsRung)
          && !bell
        else
          var last := old(currentStepIndex) + 1 >= |STEPS|;
          var vPre := CalcSpeedFromDrop(DeltaYMeters(step), old(velocityAtStepStart), sqrt);
          var vPost := if last then 0.0 else ApplyImpact(vPre, COEFFICIENT_OF_RESTITUTION);
          && progressOnPath == 0.0
          && currentStepIndex == old(currentStepIndex) + 1
          && collisionLog == old(collisionLog) + [CollisionEvent(old(currentStepIndex) + 1, vPre, vPost, simulationTime)]
          && marbleState == MarbleState(step.end, vPost, height)
          && velocityAtStepStart == vPost
          && status == (if last then Finished else Running)
          && bell == last
          && bellsRung == old(bellsRung) + (if last then 1 else 0)
    {
      bell := false;
      if currentStepIndex >= |STEPS| || status != Running {
        return;
      }
      var progressRatio := Advance();
      if progressRatio >= 1.0 {
        bell := CompleteStep();
      }
    }

    /** The physics and position part of a frame: integrate, move along the step, advance the clock. */
    method Advance() returns (progressRatio: real)
      requires Valid() && IsActive()
      modifies this
      ensures Valid() && IsActive()
      ensures
        var step := STEPS[old(currentStepIndex)];
        var v := old(marbleState.velocity) + Acceleration(step) * TIME_STEP;
        var progress := old(progressOnPath) + v * 100.0 * TIME_STEP;
        var position := PositionAt(step, progressRatio, old(marbleState.position), cos, sin);
        && progressRatio == ProgressRatio(progress, step.length)
        && marbleState == MarbleState(position, v, MACHINE_HEIGHT_CM - position.y)
        && progressOnPath == progress
      ensures simulationTime == old(simulationTime) + TIME_STEP && framesRun == old(framesRun) + 1
      ensures status == old(status) && currentStepIndex == old(currentStepIndex)
      ensures collisionLog == old(collisionLog) && velocityAtStepStart == old(velocityAtStepStart)
      ensures bellsRung == old(bellsRung)
      ensures collisionLog != [] ==> collisionLog[|collisionLog| - 1].timestamp < simulationTime
    {
      var currentStep := STEPS[currentStepIndex];
      ReferenceTrackIsWellFormed();

      // acceleration for the kind of step, then explicit Euler
      var velocity := marbleState.velocity + Acceleration(currentStep) * TIME_STEP;

      // progress along the step
      progressOnPath := progressOnPath + velocity * 100.0 * TIME_STEP;
      LaterKeepsLogWellFormed(collisionLog, simulationTime, simulationTime + TIME_STEP);
      simulationTime := simulationTime + TIME_STEP;
      framesRun := framesRun + 1;
      progressRatio := ProgressRatio(progressOnPath, currentStep.length);
      var newPosition := PositionAt(currentStep, progressRatio, marbleState.position, cos, sin);
      marbleState := MarbleState(newPosition, velocity, MACHINE_HEIGHT_CM - newPosition.y);
    }

    /**
     * The transition out of the current step: speed from the energy equation,
     * restitution (or rest at the bell), one log entry, snap to the step's end,
     * next step. The height is left as the position update computed it.
     */
    method CompleteStep() returns (bell: bool)
      requires Valid() && IsActive()
      requires collisionLog != [] ==> collisionLog[|collisionLog| - 1].timestamp < simulationTime
      modifies this
      ensures Valid()
      ensures
        var step := STEPS[old(currentStepIndex)];
        var last := old(currentStepIndex) + 1 >= |STEPS|;
        var vPre := CalcSpeedFromDrop(DeltaYMeters(step), old(velocityAtStepStart), sqrt);
        var vPost := if last then 0.0 else ApplyImpact(vPre, COEFFICIENT_OF_RESTITUTION);
        && progressOnPath == 0.0
        && currentStepIndex == old(currentStepIndex) + 1
        && collisionLog == old(collisionLog) + [CollisionEvent(old(currentStepIndex) + 1, vPre, vPost, simulationTime)]
        && marbleState == old(marbleState).(position := step.end, velocity := vPost)
        && velocityAtStepStart == vPost
        && status == (if last then Finished else old(status))
        && bell == last
        && bellsRung == old(bellsRung) + (if last then 1 else 0)
      ensures simulationTime == old(simulationTime) && framesRun == old(framesRun)
    {
      var currentStep := STEPS[currentStepIndex];
      bell := false;
      progressOnPath := 0.0;
      var nextStepIndex := currentStepIndex + 1;
      // the speed at the end of the step comes from the energy equation, not from the integration
      var vPre := CalcSpeedFromDrop(DeltaYMeters(currentStep), velocityAtStepStart, sqrt);
      var vPost := ApplyImpact(vPre, COEFFICIENT_OF_RESTITUTION);
      if nextStepIndex >= |STEPS| {
        bell := true;
        bellsRung := bellsRung + 1;
        status := Finished;
        vPost := 0.0;
      }
      velocityAtStepStart := vPost;
      var event := CollisionEvent(currentStepIndex + 1, vPre, vPost, simulationTime);
      AppendKeepsLogWellFormed(collisionLog, event);
      AppendKeepsEnergyChain(collisionLog, sqrt, event);
      collisionLog := collisionLog + [event];
      marbleState := marbleState.(position := currentStep.end, velocity := vPost);
      currentStepIndex := nextStepIndex;
    }
  }
}
