/** The record and enumeration types shared by the track table and the simulation hook. */
module Types {

  /** An optional field of a step record (the arc-only fields are absent on lines and falls). */
  datatype Option<+T> = None | Some(value: T)

  /** The run status shown to the controls. */
  datatype SimulationStatus = Idle | Running | Paused | Finished

  /** A point or offset in centimetres; the origin is the top-left corner and y grows downwards. */
  datatype Vector = Vector(x: real, y: real)

  /** What the display sees of the marble: position (cm), speed along the path (m/s), height above the bottom (cm). */
  datatype MarbleState = MarbleState(position: Vector, velocity: real, height: real)

  /** One entry of the collision log: the 1-based step just completed, the speeds before and after the impact, and the simulation time. */
  datatype CollisionEvent = CollisionEvent(step: int, vPre: real, vPost: real, timestamp: real)

  datatype StepKind = Line | Arc | Fall

  /** One piece of the track. The five arc fields are optional, as in the TypeScript `Step` interface. */
  datatype Step = Step(
    kind: StepKind,
    start: Vector,
    end: Vector,
    center: Option<Vector>,
    radius: Option<real>,
    startAngle: Option<real>,
    endAngle: Option<real>,
    anticlockwise: Option<bool>,
    length: real)
}
