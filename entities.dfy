/** The entities of the display list: the immutable terrain lines and centre
    point, and the objects whose fields change in place (texts, circles, landers). */
module Entities {
  import opened Wrappers
  import opened Geometry
  import opened Controllers
  import opened Flight

  /** `DEFAULT_DELAY`: how long messages and successful landers stay. */
  const Delay: int := 2000

  /** The lander's draw mode; only drawing depends on it. */
  datatype Display = Full | PointOnly | NoDisplay

  /** A message. Its expiry is set at creation when a duration is given, and a
      lander may force its intro message to expire early. */
  class Text {
    const x: real
    const y: real
    const text: string
    var expireAt: Option<int>

    constructor (x: real, y: real, text: string, duration: int, now: int)
      ensures this.x == x && this.y == y && this.text == text
      ensures expireAt == if duration != 0 then Some(now + duration) else None
    {
      this.x, this.y, this.text := x, y, text;
      expireAt := if duration != 0 then Some(now + duration) else None;
    }
  }

  /** The crash burst; nothing about it changes after creation. */
  class Circle {
    const x: real
    const y: real
    const startRadius: real
    const endRadius: real
    const expireAt: Option<int>

    constructor (x: real, y: real, startRadius: real, endRadius: real, duration: int, now: int)
      ensures this.x == x && this.y == y
      ensures this.startRadius == startRadius && this.endRadius == endRadius
      ensures expireAt == if duration != 0 then Some(now + duration) else None
    {
      this.x, this.y := x, y;
      this.startRadius, this.endRadius := startRadius, endRadius;
      expireAt := if duration != 0 then Some(now + duration) else None;
    }
  }

  /** A lander. `controller` is the controller variable of `lander.js`: the
      controller it was built with (`pilot`) until `land` clears it. */
  class Lander {
    const pilot: Controller
    const intro: Text?
    const target: Option<Vec>
    const display: Display
    const gravity: real
    const thrust: real
    const gamespeed: real
    const size: real
    const velLimit: real
    const angLimit: real
    const baseFuel: int

    var controller: Controller?
    var position: Vec
    var velocity: Vec
    var angle: real
    var fuel: int
    var held: bool
    var engineOn: bool
    var last: int
    var expireAt: Option<int>

    ghost predicate Valid()
      reads this`controller
    {
      controller == null || controller == pilot
    }

    /** The state `update` and `land` change, as a value. */
    function State(): Craft
      reads this`position, this`velocity, this`angle, this`fuel, this`held, this`engineOn, this`controller
    {
      Craft(position, velocity, angle, fuel, held, engineOn, controller != null)
    }

    function Physics(trig: Trig): Physics {
      Flight.Physics(gravity, thrust, trig)
    }

    constructor (pilot: Controller, intro: Text?, target: Option<Vec>, display: Display,
                 pos: Vec, fuel: int, gravity: real, thrust: real, gamespeed: real,
                 size: real, angLimit: real, velLimit: real, now: int)
      ensures Valid() && this.pilot == pilot && this.intro == intro && this.target == target
      ensures this.display == display && this.gravity == gravity && this.thrust == thrust
      ensures this.gamespeed == gamespeed && this.size == size
      ensures this.angLimit == angLimit && this.velLimit == velLimit && baseFuel == fuel
      ensures State() == Craft(pos, Vec(0.0, 0.0), 0.0, fuel, true, false, true)
      ensures last == now && expireAt == None
    {
      this.pilot, this.intro, this.target, this.display := pilot, intro, target, display;
      this.gravity, this.thrust, this.gamespeed, this.size := gravity, thrust, gamespeed, size;
      this.angLimit, this.velLimit, this.baseFuel := angLimit, velLimit, fuel;
      controller := pilot;
      position, velocity, angle := pos, Vec(0.0, 0.0), 0.0;
      this.fuel, held, engineOn := fuel, true, false;
      last, expireAt := now, None;
    }

    /** `toWorld`: lander coordinates rotated by the angle and moved to the position. */
    function ToWorld(trig: Trig, x: real, y: real): Vec
      reads this`angle, this`position
    {
      WorldPoint(trig, position, angle, x, y)
    }

    /** `getBounds`: left leg tip, nose, right leg tip, in that order. The leg
        tips are mirror images across the hull's axis through the position. */
    function Bounds(trig: Trig): (pts: seq<Vec>)
      reads this`angle, this`position
      ensures |pts| == 3
      ensures var legX, legY := size * 0.75 / 2.0 + size * 0.75 / 4.0, size * 0.75 / 3.0;
        pts[0] == ToWorld(trig, -legX, legY) && pts[1] == ToWorld(trig, 0.0, -size)
        && pts[2] == ToWorld(trig, legX, legY)
      ensures var third := size * 0.75 / 3.0;
        (pts[0].x + pts[2].x) / 2.0 == position.x - third * trig.sin(angle) &&
        (pts[0].y + pts[2].y) / 2.0 == position.y + third * trig.cos(angle)
    {
      BoundsAt(size, trig, position, angle)
    }

    /** `land(line)`: reports whether the landing succeeds and always clears
        the controller and stops the engine. */
    method Land(line: Option<Line>) returns (ok: bool)
      requires Valid()
      modifies this
      ensures Valid()
      ensures ok == LandingOk(line, old(velocity), old(angle), velLimit, angLimit)
      ensures State() == Flight.Land(old(State()))
      ensures controller == null && last == old(last) && expireAt == old(expireAt)
    {
      var vel := velocity.x + velocity.y;
      var ang := if angle < 0.0 then -angle else angle;
      controller := null;
      engineOn := false;
      ok := line.Some? && line.value.IsPad() && vel < velLimit && ang < angLimit;
    }

    /** `update(now)`. The controller's hook (scripted controllers only) runs
        first with the draw r; a Down signal releases a held lander and forces
        its intro message to expire; the rest is `Step`. */
    method Update(now: int, trig: Trig, r: real)
      requires Valid() && (held ==> controller != null)
      requires controller != null && pilot.scripted ==> 0.0 <= r < 1.0
      modifies this, pilot, intro
      ensures Valid() && controller == old(controller)
      ensures last == now && expireAt == old(expireAt)
      ensures pilot.flags == if old(controller) != null && pilot.scripted
                             then old(pilot.flags).Toggle(ScriptedKey(r)) else old(pilot.flags)
      ensures State() == Step(old(State()), pilot.flags, Delta(gamespeed, old(last), now), Physics(trig))
      ensures intro != null ==>
                intro.expireAt == if old(held) && pilot.flags.down then Some(0) else old(intro.expireAt)
    {
      ghost var c0 := State();
      var delta := gamespeed * (now - last) as real / 1000.0;
      assert delta == Delta(gamespeed, last, now);
      last := now;
      if controller != null && controller.scripted {
        controller.Update(r);
      }
      ghost var f := pilot.flags;
      if held {
        if controller.flags.down {
          held := false;
          if intro != null {
            intro.expireAt := Some(0);
          }
        } else {
          assert State() == c0;
          return;
        }
      }
      if controller != null {
        ghost var c1 := State();
        assert c1 == c0.(held := false);
        Fly(delta, trig);
        FlyIgnoresHeld(c0, f, delta, Physics(trig));
        assert State() == Flight.Fly(c0, f, delta, Physics(trig));
      } else {
        assert State() == c0;
      }
    }

    /** The `if (controller)` block of `update`, for a lander that is flying. */
    method Fly(delta: real, trig: Trig)
      requires controller != null && !held
      modifies this
      ensures controller == old(controller) && last == old(last) && expireAt == old(expireAt)
      ensures State() == Flight.Fly(old(State()), controller.flags, delta, Physics(trig))
    {
      ghost var c0 := State();
      var f := controller.flags;
      position := Vec(position.x + velocity.x * delta, position.y + velocity.y * delta);
      velocity := velocity.(y := velocity.y + gravity * delta);
      assert State() == Drift(c0.(held := false), delta, Physics(trig));
      Turn(f);
      FireEngine(f, delta, trig);
    }

    /** The rotation lines of the flying branch. */
    method Turn(f: Flags)
      modifies this
      ensures controller == old(controller) && last == old(last) && expireAt == old(expireAt)
      ensures State() == Rotate(old(State()), f)
    {
      if f.right && fuel != 0 {
        angle := angle + OneDegree;
      }
      if f.left && fuel != 0 {
        angle := angle - OneDegree;
      }
    }

    /** The engine lines of the flying branch. */
    method FireEngine(f: Flags, delta: real, trig: Trig)
      modifies this
      ensures controller == old(controller) && last == old(last) && expireAt == old(expireAt)
      ensures State() == Fire(old(State()), f, delta, Physics(trig))
    {
      ghost var r := Fire(State(), f, delta, Physics(trig));
      if f.up && fuel != 0 {
        var accel := Accel(thrust, delta, fuel);
        velocity := Vec(velocity.x + accel * trig.sin(angle), velocity.y - accel * trig.cos(angle));
        assert velocity == r.velocity;
        engineOn := true;
        fuel := JsNumbers.Wrap32(fuel - FuelStep);
      } else {
        engineOn := false;
      }
    }
  }

  /** `toWorld` for a lander at `position` turned by `angle`. */
  function WorldPoint(trig: Trig, position: Vec, angle: real, x: real, y: real): Vec {
    Vec(x * trig.cos(angle) - y * trig.sin(angle) + position.x,
        x * trig.sin(angle) + y * trig.cos(angle) + position.y)
  }

  /** `getBounds` for a lander of the given size at `position` turned by `angle`. */
  function BoundsAt(size: real, trig: Trig, position: Vec, angle: real): seq<Vec> {
    var width := size * 0.75;
    var halfW, thirdW, quarterW := width / 2.0, width / 3.0, width / 4.0;
    [WorldPoint(trig, position, angle, 0.0 - halfW - quarterW, thirdW),
     WorldPoint(trig, position, angle, 0.0, -size),
     WorldPoint(trig, position, angle, halfW + quarterW, thirdW)]
  }

  /** An entry of the display list, tagged by kind. */
  datatype Entity =
    | LineEntity(line: Line)
    | PointEntity(point: Point)
    | TextEntity(text: Text)
    | CircleEntity(circle: Circle)
    | LanderEntity(lander: Lander)
  {
    /** Kinds that can carry `expireAt`; lines and points never do. */
    predicate Expirable() {
      TextEntity? || CircleEntity? || LanderEntity?
    }
  }

  /** The objects an entity's update may change: a lander, its controller and
      its intro message. */
  function UpdateFrame(e: Entity): set<object> {
    if e.LanderEntity? then
      {e.lander, e.lander.pilot} + (if e.lander.intro == null then {} else {e.lander.intro})
    else {}
  }

  /** `hasOwnProperty('expireAt') && now >= expireAt`. */
  predicate ExpiredAt(e: Entity, now: int)
    reads if e.TextEntity? then {e.text} else if e.LanderEntity? then {e.lander} else {}
  {
    match e
    case LineEntity(_) => false
    case PointEntity(_) => false
    case TextEntity(t) => t.expireAt.Some? && now >= t.expireAt.value
    case CircleEntity(c) => c.expireAt.Some? && now >= c.expireAt.value
    case LanderEntity(l) => l.expireAt.Some? && now >= l.expireAt.value
  }
}
