# Rube Goldberg marble simulation — a verified model

This project models the physics core of a browser simulation of a marble
running through a fixed Rube Goldberg machine. The machine has ten steps:
straight lines, vertical falls and circular arcs. The model covers:

- the track table and physics constants (`constants.dfy`, module `Constants`);
- the record types they use (`types.dfy`, module `Types`);
- the simulation hook (`simulation.dfy`, module `RubeGoldberg`).

The hook has three parts:

- **Closed-form helpers.** `CalcSpeedFromDrop` gives the speed after a drop from
  energy conservation for a rolling sphere, `v² = v0² + (10/7)·g·Δh`, and 0 when
  the energy would be negative. `ApplyImpact` applies the restitution
  coefficient.
- **The pieces of one frame, as functions.**
  - `Acceleration`: full gravity on a fall, otherwise `(5/7)·g·sinθ`.
  - `ProgressRatio`: distance along the step over its length, clamped at 1.
  - `Lerp` and `PositionAt`: the point at that ratio. Lines and falls
    interpolate. Arcs sit on the circle. An arc with missing fields keeps the
    previous position.
- **The run state, as the class `Simulation`.** It holds the status, the marble
  state, the append-only collision log and the current step index. It also
  holds the three hidden cursors: progress along the step, simulation time, and
  the speed carried into the step. `Start` and `Pause` only set the status,
  whatever it was. `Reset` restores the initial state. `Frame` is one call of
  the animation callback, in two stages:
  1. `Advance` integrates the velocity with explicit Euler at 1/60 s, moves the
     progress cursor and the position, and advances the clock.
  2. When the ratio reaches 1, `CompleteStep` runs:
     - it recomputes the pre-impact speed from the energy equation, using the
       carried speed (not the integrated speed);
     - it applies restitution, or forces 0 on the last step and sets `Finished`;
     - it appends one log event, snaps the marble to the step's end and moves
       to the next index.

`Frame` returns `true` exactly when the marble strikes the bell. The ghost
counter `bellsRung` shows that this happens at most once between resets.

The invariant `Simulation.Valid` holds in every reachable state. It says:

- the log has one entry per completed step, numbered from 1;
- every entry's pre-impact speed is the energy-equation speed of its step,
  starting from the previous entry's post-impact speed (from rest for the
  first entry), so it is non-negative;
- every post-impact speed is restitution times the pre-impact speed, or 0 at
  the bell;
- entries are stamped in strictly increasing time, and none is later than the
  clock;
- the clock equals the number of frames run times 1/60;
- the carried speed is the last entry's post-impact speed;
- `Finished` implies that every step is done, and then the marble rests at the
  bell with speed 0.

`Start` after `Finished` sets `Running`, but the index has run past the table,
so `Frame` changes nothing. This is the hook's behaviour, and the model keeps
it.

Math.sqrt, Math.cos and Math.sin are inputs of the model. They are function
values given to the `Simulation` constructor. The square root is known only
through `IsSqrt`: its result is non-negative and squares back to the argument.
Cosine and sine are unconstrained. Math.PI is its shortest decimal literal,
3.141592653589793. Numbers are Dafny `real`.

Three behaviours of the hook (hooks/useRubeGoldberg.ts). The model keeps the
first two; the third lies outside it, because the model requires a positive
length:

- On the terminal transition the hook still advances the step index (line 175)
  and sets the carried speed to 0 (lines 163 and 166).
- After a transition the marble's height stays as line 143 computed it from the
  interpolated position: the second marble update (line 174) changes only the
  position and the velocity.
- A zero-length step (none is on the track) divides by zero at line 122. With
  positive progress the quotient is Infinity, which `Math.min` clamps to 1, so
  the transition at line 152 fires. With zero progress it is NaN: the
  comparison at line 152 is false and the position becomes NaN. A line or arc
  of zero length gets no acceleration (line 103), so a marble that enters one
  at rest keeps zero progress and stalls there. With negative progress the
  quotient is −Infinity, and the step does not end on that frame.

## Model

| member | source | states |
|---|---|---|
| `Constants.StepsCount` | constants.ts:33-127 | the track has exactly 10 steps |
| `Constants.TrackContiguous` | constants.ts:36-127 | every step starts where the previous one ends |
| `Constants.InitialAtTrackStart` | constants.ts:25-29 | the initial marble is at the first step's start, at rest, height 22 = machine height minus its y |
| `Constants.PositiveLengths` | constants.ts:36-127 | every step has a positive length |
| `Constants.FallsAreVerticalDrops` | constants.ts:46-110 | every fall has equal x at both ends and goes downwards |
| `Constants.ArcsComplete` | constants.ts:61-86 | every arc has center, radius, both angles and the direction flag |
| `Constants.PhysicsConstantsInRange` | constants.ts:18-22 | gravity is positive and restitution lies strictly between 0 and 1 |
| `RubeGoldberg.CalcSpeedFromDrop` | hooks/useRubeGoldberg.ts:14-22 | result is non-negative; 0 when v0² + (10/7)·g·Δh < 0, otherwise its square is that energy |
| `RubeGoldberg.SpeedFromDropIsTheRoot` | hooks/useRubeGoldberg.ts:14-22 | the result is the unique non-negative root of the energy, whatever square-root function computes it |
| `RubeGoldberg.SpeedFromDropOrder` | hooks/useRubeGoldberg.ts:15-21 | a drop (Δh ≥ 0) gives at least abs(v0); a rise (Δh ≤ 0) gives at most abs(v0) |
| `RubeGoldberg.ApplyImpact` | hooks/useRubeGoldberg.ts:31-33 | for v ≥ 0 and e in [0, 1] the result lies in [0, v], strictly inside for 0 < e < 1, and equals v when e = 1 |
| `RubeGoldberg.Acceleration` | hooks/useRubeGoldberg.ts:96-109 | g on a fall; 0 on a non-fall without length; otherwise a·length = (5/7)·g·Δy, so positive going down, negative going up, zero on the level |
| `RubeGoldberg.ProgressRatio` | hooks/useRubeGoldberg.ts:122 | never above 1; equals 1 exactly when progress reaches the length; below that it is progress/length; non-negative for non-negative progress |
| `RubeGoldberg.Lerp` | hooks/useRubeGoldberg.ts:124-128 | start at ratio 0, end at ratio 1, and between the two ends coordinate-wise for ratios in [0, 1] |
| `RubeGoldberg.ArcAngleAsWritten` | hooks/useRubeGoldberg.ts:132-133 | start angle at ratio 0; at ratio 1 the end angle when clockwise, but 2·start − end when anticlockwise |
| `RubeGoldberg.AnticlockwiseArcOvershoots` | hooks/useRubeGoldberg.ts:132-133 | on the track's anticlockwise arc (step 5) the computed end angle is 3π/2, not the step's end angle π/2 |
| `RubeGoldberg.ArcAngle` | hooks/useRubeGoldberg.ts:132-133 | corrected sweep: start angle at ratio 0, end angle at ratio 1, between them for ratios in [0, 1] |
| `RubeGoldberg.PositionAt` | hooks/useRubeGoldberg.ts:121-141 | lines and falls give start at 0, end at 1, points between the ends otherwise; complete arcs give the circle point at the start angle (ratio 0) and the end angle (ratio 1); an incomplete arc keeps the previous position; anticlockwise arcs use the corrected angle, not the one of lines 132-133 (see Left out) |
| `RubeGoldberg.ReferenceTrackIsWellFormed` | constants.ts:36-127 | on the reference track the ratio's division is always defined and the arc fallback never fires |
| `RubeGoldberg.FirstDropFromRest` | hooks/useRubeGoldberg.ts:157-158 | the 4 cm drop of step 2 entered at rest gives 0.7487 < v_pre < 0.7488 and 0.4492 < v_post < 0.4493 |
| `RubeGoldberg.EnergyChainMeaning` | hooks/useRubeGoldberg.ts:157-166 | a log is an energy chain exactly when each entry's pre-impact speed is the energy-equation speed of its step from the previous entry's post-impact speed, or from rest for the first entry |
| `RubeGoldberg.AppendKeepsEnergyChain` | hooks/useRubeGoldberg.ts:157-171 | appending the next step's event whose pre-impact speed comes from the last post-impact speed keeps the log an energy chain |
| `RubeGoldberg.AppendKeepsLogWellFormed` | hooks/useRubeGoldberg.ts:168-171 | appending the next step's event, stamped after the last one, keeps the log well formed |
| `RubeGoldberg.LaterKeepsLogWellFormed` | hooks/useRubeGoldberg.ts:119 | advancing the clock keeps the log well formed and puts every entry strictly in the past |
| `RubeGoldberg.LogTimestampsIncrease` | hooks/useRubeGoldberg.ts:168-171 | any earlier log entry has a strictly smaller timestamp than any later one |
| `RubeGoldberg.LogSpeedsInRange` | hooks/useRubeGoldberg.ts:157-166 | no impact gains speed, and before the bell a moving marble keeps moving after the impact |
| `RubeGoldberg.Simulation.constructor` | hooks/useRubeGoldberg.ts:55-63 | the initial state: Idle, initial marble, empty log, index 0, all cursors 0 |
| `RubeGoldberg.Simulation.Start` | hooks/useRubeGoldberg.ts:65-67 | from any status, the status becomes Running and nothing else changes |
| `RubeGoldberg.Simulation.Pause` | hooks/useRubeGoldberg.ts:69-71 | from any status, the status becomes Paused and nothing else changes |
| `RubeGoldberg.Simulation.Reset` | hooks/useRubeGoldberg.ts:73-84 | from any state, the fully determined initial state, so resetting twice equals resetting once |
| `RubeGoldberg.Simulation.Frame` | hooks/useRubeGoldberg.ts:86-179 | no-op unless Running on a step; otherwise clock +1/60, Euler velocity, clamped ratio, new position and height; on reaching the end: progress 0, index +1, one event appended with the energy-equation speed from the carried speed, restitution or 0 and Finished at the bell, marble snapped to the step's end; keeps `Valid` |
| `RubeGoldberg.Simulation.Advance` | hooks/useRubeGoldberg.ts:92-149 | velocity v_old + a/60, progress + v·100/60, ratio and position from them, clock + 1/60, log, index and status untouched; anticlockwise arcs use the corrected angle, not the one of lines 132-133 (see Left out) |
| `RubeGoldberg.Simulation.CompleteStep` | hooks/useRubeGoldberg.ts:152-176 | progress 0, index + 1, exactly one event {old index + 1, v_pre, v_post, clock} appended, carried speed v_post, marble at the step's end with v_post; terminal: Finished, v_post 0, bell |

## Left out

- playBellSound (Web Audio) is not modelled. `Frame` returns a bell flag, and the ghost counter `bellsRung` counts the strikes.
- requestAnimationFrame, cancelAnimationFrame and the effect loop are left out. One call of `Frame` is one frame. React's batching and stale callbacks are left out too.
- Floating-point rounding is not modelled: all numbers are exact reals.
- Math.sqrt, Math.cos and Math.sin are parameters. Math.PI is a decimal literal.
- The model does not claim that arc endpoints reach the step's start and end points, because cosine and sine are unconstrained. It does not claim that the stored lengths are the true path lengths either: they are rounded values.
- There are no termination or timing claims, such as finishing within so many frames. Those depend on the numerical integration.
- `RubeGoldberg.ProgressRatio` requires a positive length. On a zero-length step the hook's division gives Infinity for positive progress (clamped to 1, so the step ends), NaN for zero progress (no transition, and the position is NaN) and −Infinity for negative progress. No step of the track has zero length (`Constants.PositiveLengths`).
- `RubeGoldberg.PositionAt` uses the corrected arc angle `ArcAngle`, so on an anticlockwise arc (step 5) it does not give the position the hook computes at lines 132-133. The as-written angle is `ArcAngleAsWritten`; see Findings.
- `RubeGoldberg.Simulation.Advance` moves the marble with `PositionAt`, so on an anticlockwise arc its new position is the corrected one, not the hook's (lines 132-136).
- `RubeGoldberg.Simulation.Frame` runs `Advance`, and so shares its corrected arc angle.
- Rendering, controls, the event table, the display clamp and number formatting are left out. They are UI.
- The scaling constants, canvas sizes, marble mass and radius, and the step descriptions are left out. The core does not use them.

## Findings

| source | as written | input that shows it | evidently intended | confidence | as-written member | corrected member |
|---|---|---|---|---|---|---|
| hooks/useRubeGoldberg.ts:132-133 | for an anticlockwise arc the sweep is startAngle − endAngle, added to startAngle, so at ratio 1 the angle is 2·startAngle − endAngle | step 5 of the track (start π, end π/2, anticlockwise). The angle at ratio 1 is 3π/2, so the marble reaches (14, 7), above the arc, instead of (14, 13). The drawing at App.tsx:28 sweeps that arc from π down to π/2. `RubeGoldberg.AnticlockwiseArcOvershoots` proves the 3π/2. | the angle moves from startAngle to endAngle, startAngle + (endAngle − startAngle)·ratio, in both directions | high; not executed | `RubeGoldberg.ArcAngleAsWritten` | `RubeGoldberg.ArcAngle` |
