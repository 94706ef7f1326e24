/** The fixed machine: physics constants, the initial marble state and the ten-step track. */
module Constants {
  import opened Types

  const MACHINE_HEIGHT_CM: real := 24.0
  /** m/s^2 */
  const GRAVITY: real := 9.81
  /** Fraction of the speed kept through an impact. */
  const COEFFICIENT_OF_RESTITUTION: real := 0.6
  /** The shortest decimal literal of Math.PI, the hook's value of pi. */
  const PI: real := 3.141592653589793

  /** The marble rests at the start of the first step, 2 cm below the top of the machine. */
  const INITIAL_MARBLE_STATE: MarbleState :=
    MarbleState(Vector(2.0, 2.0), 0.0, MACHINE_HEIGHT_CM - 2.0)

  /** A line or a fall: no arc fields. */
  function Segment(kind: StepKind, start: Vector, end: Vector, length: real): Step
  {
    Step(kind, start, end, None, None, None, None, None, length)
  }

  /** An arc with all five arc fields present. */
  function Curve(start: Vector, end: Vector, center: Vector, radius: real,
                 startAngle: real, endAngle: real, anticlockwise: bool, length: real): Step
  {
    Step(Arc, start, end, Some(center), Some(radius), Some(startAngle), Some(endAngle), Some(anticlockwise), length)
  }

  /** The ten steps of the machine, in centimetres. */
  const STEPS: seq<Step> := [
    Segment(Line, Vector(2.0, 2.0), Vector(10.0, 3.0), 8.06),     // initial platform
    Segment(Fall, Vector(10.0, 3.0), Vector(10.0, 7.0), 4.0),     // drop to the Jenga block
    Segment(Line, Vector(10.0, 7.0), Vector(14.0, 7.0), 4.0),     // Jenga block surface
    Curve(Vector(14.0, 7.0), Vector(11.0, 10.0), Vector(11.0, 7.0), 3.0,
          0.0, PI / 2.0, false, 4.71),                             // left curved tube
    Curve(Vector(11.0, 10.0), Vector(14.0, 13.0), Vector(14.0, 10.0), 3.0,
          PI, PI / 2.0, true, 4.71),                               // right curved tube
    Segment(Line, Vector(14.0, 13.0), Vector(20.0, 15.0), 6.32),  // steep ramp
    Segment(Line, Vector(20.0, 15.0), Vector(27.0, 15.0), 7.0),   // U-block base
    Segment(Fall, Vector(27.0, 15.0), Vector(27.0, 19.0), 4.0),   // funnel drop
    Segment(Line, Vector(27.0, 19.0), Vector(34.0, 22.0), 7.62),  // final ramp
    Segment(Line, Vector(34.0, 22.0), Vector(35.0, 22.0), 1.0)    // bell strike
  ]

  lemma StepsCount()
    ensures |STEPS| == 10
  {
  }

  /** Each step starts where the previous one ends. */
  lemma TrackContiguous()
    ensures forall i :: 0 <= i < |STEPS| - 1 ==> STEPS[i].end == STEPS[i + 1].start
  {
  }

  /** The initial marble sits at the first step's start, at rest, with its height measured from the bottom. */
  lemma InitialAtTrackStart()
    ensures INITIAL_MARBLE_STATE.position == STEPS[0].start
    ensures INITIAL_MARBLE_STATE.velocity == 0.0
    ensures INITIAL_MARBLE_STATE.height == 22.0
    ensures INITIAL_MARBLE_STATE.height == MACHINE_HEIGHT_CM - INITIAL_MARBLE_STATE.position.y
  {
  }

  /** No step has zero length, so the progress ratio is always defined. */
  lemma PositiveLengths()
    ensures forall i :: 0 <= i < |STEPS| ==> 0.0 < STEPS[i].length
  {
  }

  /** Falls are vertical and go down (y grows downwards). */
  lemma FallsAreVerticalDrops()
    ensures forall i :: 0 <= i < |STEPS| && STEPS[i].kind == Fall ==>
      STEPS[i].start.x == STEPS[i].end.x && STEPS[i].start.y < STEPS[i].end.y
  {
  }

  /** Every arc carries all of its arc fields. */
  lemma ArcsComplete()
    ensures forall i :: 0 <= i < |STEPS| && STEPS[i].kind == Arc ==>
      && STEPS[i].center.Some? && STEPS[i].radius.Some?
      && STEPS[i].startAngle.Some? && STEPS[i].endAngle.Some?
      && STEPS[i].anticlockwise.Some?
  {
  }

  lemma PhysicsConstantsInRange()
    ensures 0.0 < GRAVITY
    ensures 0.0 < COEFFICIENT_OF_RESTITUTION < 1.0
  {
  }
}
