/** The lander's per-tick state machine (`Lander.update`) and its landing
    decision (`Lander.land`) as pure functions. A lander is HELD until its first
    Down signal, then FLYING, and RESOLVED once its controller is cleared. */
module Flight {
  import opened Wrappers
  import opened JsNumbers
  import opened Geometry
  import opened Controllers

  const DryMass: real := 6000.0
  /** `DEFAULT_DELTA_FUEL`: fuel burnt per thrusting tick. */
  const FuelStep: int := 8
  /** `Math.PI / 180` as the double the game computes. */
  const OneDegree: real := 0.017453292519943295

  /** `Math.sin` and `Math.cos`, supplied rather than modelled. */
  datatype Trig = Trig(sin: real -> real, cos: real -> real)

  /** The constants a lander is built with that its physics reads. */
  datatype Physics = Physics(gravity: real, thrust: real, trig: Trig)

  /** The lander state that `update` and `land` change; `attached` is
      "the controller is not null". */
  datatype Craft = Craft(position: Vec, velocity: Vec, angle: real, fuel: int,
                         held: bool, engineOn: bool, attached: bool)

  /** `gamespeed * (now - last) / 1000`. */
  function Delta(gamespeed: real, last: int, now: int): real {
    gamespeed * (now - last) as real / 1000.0
  }

  /** `thrust * delta / (dryMass + fuel)`; JavaScript yields an infinity when the
      mass is exactly zero, which the model replaces by no acceleration. */
  function Accel(thrust: real, delta: real, fuel: int): real {
    var mass := DryMass + fuel as real;
    if mass == 0.0 then 0.0 else thrust * delta / mass
  }

  /** The first lines of the flying branch of `update`: the position moves
      with the OLD velocity, then gravity is added to the vertical velocity. */
  function Drift(c: Craft, delta: real, p: Physics): Craft {
    c.(position := Vec(c.position.x + c.velocity.x * delta, c.position.y + c.velocity.y * delta),
       velocity := Vec(c.velocity.x, c.velocity.y + p.gravity * delta))
  }

  /** Right turns clockwise, then Left anti-clockwise, each only while the
      fuel is truthy, i.e. `fuel != 0`. */
  function Rotate(c: Craft, f: Flags): Craft {
    var a1 := if f.right && c.fuel != 0 then c.angle + OneDegree else c.angle;
    c.(angle := if f.left && c.fuel != 0 then a1 - OneDegree else a1)
  }

  /** The engine: with Up and truthy fuel, thrust along the (new) angle and
      burn `(fuel - 8) | 0`; otherwise the engine is off. */
  function Fire(c: Craft, f: Flags, delta: real, p: Physics): Craft {
    if f.up && c.fuel != 0 then
      var accel := Accel(p.thrust, delta, c.fuel);
      c.(velocity := Vec(c.velocity.x + accel * p.trig.sin(c.angle), c.velocity.y - accel * p.trig.cos(c.angle)),
         engineOn := true, fuel := Wrap32(c.fuel - FuelStep))
    else
      c.(engineOn := false)
  }

  /** The flying branch of `update`, in the order `lander.js` applies it. */
  function Fly(c: Craft, f: Flags, delta: real, p: Physics): Craft {
    Fire(Rotate(Drift(c.(held := false), delta, p), f), f, delta, p)
  }

  /** One call of `update` after the controller hook ran, reading signals f.
      A held lander must still have its controller (`update` dereferences it). */
  function Step(c: Craft, f: Flags, delta: real, p: Physics): (r: Craft)
    requires c.held ==> c.attached
    ensures r.attached == c.attached && (r.held ==> r.attached)
  {
    if c.held && !f.down then c
    else if !c.attached then c
    else Fly(c, f, delta, p)
  }

  /** The flying branch does not read the held flag, so releasing a lander
      and flying it in the same tick is flying it from where it was held. */
  lemma FlyIgnoresHeld(c: Craft, f: Flags, delta: real, p: Physics)
    ensures Fly(c.(held := false), f, delta, p) == Fly(c, f, delta, p)
  {
  }

  /** The signals and elapsed time seen by one tick. */
  datatype Tick = Tick(flags: Flags, delta: real)

  /** A sequence of ticks with no controller change in between. */
  function Run(c: Craft, ticks: seq<Tick>, p: Physics): (r: Craft)
    requires c.held ==> c.attached
    ensures r.attached == c.attached && (r.held ==> r.attached)
    decreases |ticks|
  {
    if ticks == [] then c
    else Run(Step(c, ticks[0].flags, ticks[0].delta, p), ticks[1..], p)
  }

  /** `land(line)` succeeds iff a line is given, it is the pad, the component
      sum of the velocity is under the limit and the tilt is under the limit. */
  predicate LandingOk(line: Option<Line>, velocity: Vec, angle: real,
                      velLimit: real, angLimit: real)
  {
    line.Some? && line.value.IsPad()
    && velocity.x + velocity.y < velLimit
    && (if angle < 0.0 then -angle else angle) < angLimit
  }

  /** The landing outcome, and the state `land` leaves: controller cleared,
      engine off, nothing else touched. */
  function Land(c: Craft): (r: Craft)
    ensures !r.attached && !r.engineOn
    ensures r.position == c.position && r.velocity == c.velocity && r.angle == c.angle
    ensures r.fuel == c.fuel && r.held == c.held
  {
    c.(attached := false, engineOn := false)
  }

  /** Calling `land()` without a line never succeeds, and any one failed
      condition makes a landing fail. */
  lemma LandingNeedsEveryCondition(line: Option<Line>, v: Vec, angle: real, vl: real, al: real)
    ensures !LandingOk(None, v, angle, vl, al)
    ensures line.Some? && !line.value.IsPad() ==> !LandingOk(line, v, angle, vl, al)
    ensures v.x + v.y >= vl ==> !LandingOk(line, v, angle, vl, al)
    ensures angle >= al || -angle >= al ==> !LandingOk(line, v, angle, vl, al)
    ensures line.Some? && line.value.IsPad() && v.x + v.y < vl && -al < angle < al
            ==> LandingOk(line, v, angle, vl, al)
  {
  }

  /** The speed test sums the components, so it bounds no speed: an upright
      lander falling onto the pad at any speed k lands whenever it drifts left
      at 2k, and the sum, not the speed, decides. */
  lemma ComponentSumMasksSpeed(pad: Line, k: real, vl: real, al: real)
    requires pad.IsPad() && k >= 0.0 && vl > 0.0 && al > 0.0
    ensures LandingOk(Some(pad), Vec(-2.0 * k, k), 0.0, vl, al)
    ensures forall v: Vec :: LandingOk(Some(pad), v, 0.0, vl, al) <==> v.x + v.y < vl
  {
  }

  /** While held without a Down signal nothing moves, and a resolved lander
      never changes again. */
  lemma HeldOrResolvedIsFrozen(c: Craft, f: Flags, delta: real, p: Physics)
    requires c.held ==> c.attached
    ensures c.held && !f.down ==> Step(c, f, delta, p) == c
    ensures !c.attached ==> Step(c, f, delta, p) == c
    ensures c.held && f.down ==> !Step(c, f, delta, p).held
  {
  }

  /** On every flying tick: position uses the previous velocity, gravity is
      always applied, and the engine fires exactly when Up is set and the fuel
      is non-zero, burning `(fuel - 8) | 0`. */
  lemma FlyingTick(c: Craft, f: Flags, delta: real, p: Physics)
    requires c.attached && (c.held ==> f.down)
    ensures var r := Step(c, f, delta, p);
      && !r.held
      && r.position == Vec(c.position.x + c.velocity.x * delta, c.position.y + c.velocity.y * delta)
      && (r.engineOn <==> f.up && c.fuel != 0)
      && r.fuel == (if r.engineOn then Wrap32(c.fuel - FuelStep) else c.fuel)
      && (!r.engineOn ==> r.velocity == Vec(c.velocity.x, c.velocity.y + p.gravity * delta))
  {
  }

  /** How a flying tick turns and pushes the lander: one degree per turn
      signal while there is fuel (opposite signals cancel), and thrust along
      the angle reached after this tick's turn. */
  lemma TurnThenThrust(c: Craft, f: Flags, delta: real, p: Physics)
    requires c.attached && (c.held ==> f.down)
    ensures var r := Step(c, f, delta, p);
      && (c.fuel == 0 || f.left == f.right ==> r.angle == c.angle)
      && (c.fuel != 0 && f.right && !f.left ==> r.angle == c.angle + OneDegree)
      && (c.fuel != 0 && f.left && !f.right ==> r.angle == c.angle - OneDegree)
    ensures var r := Step(c, f, delta, p);
      var a := Accel(p.thrust, delta, c.fuel);
      r.engineOn ==> r.velocity == Vec(c.velocity.x + a * p.trig.sin(r.angle),
                                       c.velocity.y + p.gravity * delta - a * p.trig.cos(r.angle))
  {
  }

  /** A lander that never sees Down never leaves the held state, however many
      ticks pass. */
  lemma {:induction false} NeverLaunched(c: Craft, ticks: seq<Tick>, p: Physics)
    requires c.held && c.attached
    requires forall i :: 0 <= i < |ticks| ==> !ticks[i].flags.down
    ensures Run(c, ticks, p) == c
    decreases |ticks|
  {
    if ticks != [] {
      assert Step(c, ticks[0].flags, ticks[0].delta, p) == c;
      NeverLaunched(c, ticks[1..], p);
    }
  }

  /** A resolved lander stays put for any number of ticks. */
  lemma {:induction false} ResolvedStaysResolved(c: Craft, ticks: seq<Tick>, p: Physics)
    requires !c.attached && !c.held
    ensures Run(c, ticks, p) == c
    decreases |ticks|
  {
    if ticks != [] {
      ResolvedStaysResolved(c, ticks[1..], p);
    }
  }

  /** Fuel that starts as a non-negative multiple of 8 stays one and never
      grows; with `FlyingTick` this means thrust stops for good at exactly 0. */
  lemma {:induction false} FuelStaysOnTheLadder(c: Craft, ticks: seq<Tick>, p: Physics)
    requires c.held ==> c.attached
    requires 0 <= c.fuel < TwoTo31 && c.fuel % FuelStep == 0
    ensures var r := Run(c, ticks, p);
      0 <= r.fuel <= c.fuel && r.fuel % FuelStep == 0
    decreases |ticks|
  {
    if ticks != [] {
      var n := Step(c, ticks[0].flags, ticks[0].delta, p);
      assert 0 <= n.fuel <= c.fuel && n.fuel % FuelStep == 0 by {
        if n.fuel != c.fuel {
          assert c.fuel != 0 && n.fuel == Wrap32(c.fuel - FuelStep);
          assert c.fuel >= FuelStep;
        }
      }
      FuelStaysOnTheLadder(n, ticks[1..], p);
    }
  }

  /** A tick either leaves the fuel alone or burns one step from non-zero fuel. */
  lemma StepFuel(c: Craft, f: Flags, delta: real, p: Physics)
    requires c.held ==> c.attached
    ensures var n := Step(c, f, delta, p);
      n.fuel == c.fuel || (c.fuel != 0 && n.fuel == Wrap32(c.fuel - FuelStep))
  {
  }

  lemma SubtractStepKeepsResidue(x: int)
    ensures (x - FuelStep) % FuelStep == x % FuelStep
  {
  }

  /** With fuel that is not a multiple of 8 the truthiness gate never closes:
      the remainder modulo 8 survives every tick (even across 32-bit
      wrap-around), so the fuel is never 0 and thrust and rotation stay enabled. */
  lemma {:induction false} UnevenFuelNeverRunsOut(c: Craft, ticks: seq<Tick>, p: Physics)
    requires c.held ==> c.attached
    requires c.fuel % FuelStep != 0
    ensures Run(c, ticks, p).fuel % FuelStep == c.fuel % FuelStep
    ensures Run(c, ticks, p).fuel != 0
    decreases |ticks|
  {
    if ticks != [] {
      var n := Step(c, ticks[0].flags, ticks[0].delta, p);
      StepFuel(c, ticks[0].flags, ticks[0].delta, p);
      if n.fuel != c.fuel {
        Wrap32KeepsResidue(c.fuel - FuelStep);
        SubtractStepKeepsResidue(c.fuel);
      }
      UnevenFuelNeverRunsOut(n, ticks[1..], p);
    }
  }

  /** Firing for N flying ticks with enough fuel burns exactly 8 per tick and
      leaves the engine on. */
  lemma {:induction false} ThrustBurnsEightPerTick(c: Craft, ticks: seq<Tick>, p: Physics)
    requires c.attached && !c.held
    requires forall i :: 0 <= i < |ticks| ==> ticks[i].flags.up
    requires FuelStep * |ticks| <= c.fuel < TwoTo31
    ensures Run(c, ticks, p).fuel == c.fuel - FuelStep * |ticks|
    ensures ticks != [] ==> Run(c, ticks, p).engineOn
    decreases |ticks|
  {
    if ticks != [] {
      var n := Step(c, ticks[0].flags, ticks[0].delta, p);
      assert n.fuel == c.fuel - FuelStep && n.engineOn && !n.held;
      ThrustBurnsEightPerTick(n, ticks[1..], p);
    }
  }
}
