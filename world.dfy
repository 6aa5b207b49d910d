/** The game: its settings, the display list, and the per-frame update that
    moves landers, resolves collisions and deletes expired entities. */
module World {
  import opened Wrappers
  import opened JsNumbers
  import opened Geometry
  import opened Terrain
  import opened Controllers
  import opened Flight
  import opened Entities
  import opened DisplayList
  import opened Collision

  /** The properties the settings panel exposes and may change at any time. */
  datatype Settings = Settings(gravity: real, thrust: real, fuel: int, gamespeed: real,
                               size: real, display: Display, landers: nat,
                               angleLimit: real, speedLimit: real, divisions: nat,
                               groundHeight: real, mountainHeight: real)

  /** The `DEFAULT_*` values a game starts with. */
  const Defaults := Settings(1.62, 45000.0, 8000, 2.0, 20.0, Full, 0, 0.1, 2.0, 10, 10.0, 100.0)

  /** Thickness of the centre marker. */
  const CentreThickness: int := 4
  /** Messages are shown this far below the centre. */
  const MessageDrop: real := 20.0
  /** The crash burst: radii and lifetime. */
  const BurstStart: real := 5.0
  const BurstEnd: real := 50.0
  const BurstDuration: int := 500

  /** Each outcome's message. */
  function MessageFor(o: Outcome): string {
    match o
    case Landed => "Landed OK"
    case Crashed => "Crashed!"
    case Offscreen => "Offscreen!"
  }

  /** The terrain lines as display-list entries. */
  function LineEntities(ls: seq<Line>): (es: seq<Entity>)
    ensures |es| == |ls|
    ensures forall k :: 0 <= k < |ls| ==> es[k] == LineEntity(ls[k])
  {
    if ls == [] then [] else LineEntities(ls[..|ls| - 1]) + [LineEntity(ls[|ls| - 1])]
  }

  /** No text, circle or lander object is listed twice. */
  predicate DistinctExpirable(s: seq<Entity>) {
    forall i :: 0 <= i < |s| && s[i].Expirable() ==> multiset(s)[s[i]] == 1
  }

  /** The landers listed in s. */
  function Landers(s: seq<Entity>): set<Lander> {
    set k | 0 <= k < |s| && s[k].LanderEntity? :: s[k].lander
  }

  /** Everything an update pass over s may change besides the game itself. */
  function Frame(s: seq<Entity>): set<object> {
    set k, o | 0 <= k < |s| && o in UpdateFrame(s[k]) :: o
  }

  class Game {
    const width: real
    const height: real
    const centre: Vec
    /** The keyboard controller every new game's lander shares. */
    const player: Controller
    var settings: Settings
    var target: Vec
    var clearDraw: bool
    var entities: seq<Entity>
    /** The lines the last `buildScene` laid down. */
    ghost var terrain: seq<Line>

    /** The display list starts with the terrain lines, one per division,
        which is what lets `collide` index it by segment; no object is listed
        twice; every lander's controller is its own or cleared. */
    ghost predicate Valid()
      reads this, Landers(entities)
    {
      width > 0.0 && |terrain| == settings.divisions <= |entities|
      && (forall k :: 0 <= k < settings.divisions ==> entities[k] == LineEntity(terrain[k]))
      && DistinctExpirable(entities)
      && (forall k :: 0 <= k < |entities| && entities[k].LanderEntity? ==> entities[k].lander.Valid())
    }

    function Scene(): Scene
      reads this
    {
      Terrain.Scene(settings.divisions, width, height, settings.groundHeight, settings.mountainHeight)
    }

    /** The scene `buildScene` lays down for the given draws. */
    function SceneEntities(draws: seq<real>): seq<Entity>
      requires Supplies(Scene(), draws) && settings.divisions < TwoTo31
      reads this
    {
      LineEntities(TerrainLines(Scene(), draws, Pad(Scene(), draws), settings.divisions))
      + [PointEntity(Point(centre.x, centre.y, CentreThickness))]
    }

    /** `new Game()`: default settings and a first scene. */
    constructor (width: real, height: real, draws: seq<real>)
      requires width > 0.0
      requires Supplies(Terrain.Scene(Defaults.divisions, width, height,
                                      Defaults.groundHeight, Defaults.mountainHeight), draws)
      ensures Valid() && settings == Defaults && fresh(player) && !player.scripted
      ensures this.width == width && this.height == height && centre == Vec(width / 2.0, height / 2.0)
      ensures entities == SceneEntities(draws) && clearDraw
      ensures target == Target(Scene(), draws, Pad(Scene(), draws))
    {
      this.width, this.height := width, height;
      centre := Vec(width / 2.0, height / 2.0);
      player := new Controller(false);
      settings := Defaults;
      target := Vec(width / 2.0, height / 2.0);
      clearDraw := true;
      entities := [];
      terrain := [];
      new;
      BuildScene(draws);
      ghost var centrePoint := Point(centre.x, centre.y, CentreThickness);
      assert entities == LineEntities(terrain) + [PointEntity(centrePoint)] by {
        assert [] + SceneEntities(draws) == SceneEntities(draws);
      }
      PlainScene(terrain, centrePoint);
    }

    /** `buildScene`: appends one line per division and the centre point. The
        pad index is the first draw; every other line takes the next draw for
        its end height, and the pad keeps the height it starts at. */
    method BuildScene(draws: seq<real>)
      requires Supplies(Scene(), draws) && settings.divisions < TwoTo31
      modifies this
      ensures settings == old(settings)
      ensures entities == old(entities) + SceneEntities(draws)
      ensures terrain == TerrainLines(Scene(), draws, Pad(Scene(), draws), settings.divisions)
      ensures target == if settings.divisions >= 1 then Target(Scene(), draws, Pad(Scene(), draws))
                        else old(target)
      ensures clearDraw == (settings.display != NoDisplay)
    {
      clearDraw := settings.display != NoDisplay;
      var pad := PadIndex(settings.divisions, draws[0]);
      assert pad == Pad(Scene(), draws);
      var lines, t := LayTerrain(Scene(), draws, pad, target);
      entities := entities + LineEntities(lines) + [PointEntity(Point(centre.x, centre.y, CentreThickness))];
      target := t;
      terrain := lines;
    }

    /** `reset`: a fresh display list holding only the new scene. */
    method Reset(draws: seq<real>)
      requires width > 0.0 && Supplies(Scene(), draws) && settings.divisions < TwoTo31
      modifies this
      ensures Valid() && settings == old(settings)
      ensures entities == SceneEntities(draws)
      ensures target == if settings.divisions >= 1 then Target(Scene(), draws, Pad(Scene(), draws))
                        else old(target)
      ensures clearDraw == (settings.display != NoDisplay)
    {
      entities := [];
      BuildScene(draws);
      ghost var centrePoint := Point(centre.x, centre.y, CentreThickness);
      assert entities == LineEntities(terrain) + [PointEntity(centrePoint)] by {
        assert [] + SceneEntities(draws) == SceneEntities(draws);
      }
      PlainScene(terrain, centrePoint);
    }

    /** A lander built from the current settings, at the centre, held. */
    ghost predicate FromSettings(l: Lander, now: int)
      reads this, l
    {
      l.Valid() && l.gravity == settings.gravity && l.thrust == settings.thrust
      && l.gamespeed == settings.gamespeed && l.size == settings.size
      && l.angLimit == settings.angleLimit && l.velLimit == settings.speedLimit
      && l.baseFuel == settings.fuel
      && l.State() == Craft(centre, Vec(0.0, 0.0), 0.0, settings.fuel, true, false, true)
      && l.last == now && l.expireAt == None
    }

    /** `new game`: appends the "Press Down to start" message, then a lander
        flown by the keyboard that will make that message expire on launch. */
    method NewGame(now: int)
      requires Valid()
      modifies this
      ensures Valid() && settings == old(settings) && terrain == old(terrain)
      ensures target == old(target) && clearDraw == old(clearDraw)
      ensures |entities| == |old(entities)| + 2 && entities[..|old(entities)|] == old(entities)
      ensures var t, l := entities[|old(entities)|], entities[|old(entities)| + 1];
        t.TextEntity? && fresh(t.text) && t.text.text == "Press Down to start"
        && t.text.x == centre.x && t.text.y == centre.y + MessageDrop
        && t.text.expireAt == Some(now + Delay)
        && l.LanderEntity? && fresh(l.lander) && FromSettings(l.lander, now)
        && l.lander.pilot == player && l.lander.intro == t.text
        && l.lander.target == None && l.lander.display == Full
    {
      var t := new Text(centre.x, centre.y + MessageDrop, "Press Down to start", Delay, now);
      AppendDistinct(entities, TextEntity(t));
      entities := entities + [TextEntity(t)];
      var l := new Lander(player, t, None, Full, centre, settings.fuel, settings.gravity,
                          settings.thrust, settings.gamespeed, settings.size,
                          settings.angleLimit, settings.speedLimit, now);
      AppendDistinct(entities, LanderEntity(l));
      entities := entities + [LanderEntity(l)];
    }

    /** `deploy`: appends `landers` held landers, each with its own scripted
        controller, aiming at the stored target. */
    method Deploy(now: int)
      requires Valid()
      modifies this
      ensures Valid() && settings == old(settings) && terrain == old(terrain)
      ensures target == old(target) && clearDraw == old(clearDraw)
      ensures |entities| == |old(entities)| + settings.landers
      ensures entities[..|old(entities)|] == old(entities)
      ensures forall k :: |old(entities)| <= k < |entities| ==>
                entities[k].LanderEntity? && fresh(entities[k].lander)
                && FromSettings(entities[k].lander, now)
                && fresh(entities[k].lander.pilot) && entities[k].lander.pilot.scripted
                && entities[k].lander.intro == null && entities[k].lander.target == Some(target)
                && entities[k].lander.display == settings.display
    {
      if settings.landers != 0 {
        var j := 0;
        while j < settings.landers
          invariant 0 <= j <= settings.landers
          invariant Valid() && settings == old(settings) && terrain == old(terrain)
          invariant target == old(target) && clearDraw == old(clearDraw)
          invariant |entities| == |old(entities)| + j && entities[..|old(entities)|] == old(entities)
          invariant forall k :: |old(entities)| <= k < |entities| ==>
                      entities[k].LanderEntity? && fresh(entities[k].lander)
                      && FromSettings(entities[k].lander, now)
                      && fresh(entities[k].lander.pilot) && entities[k].lander.pilot.scripted
                      && entities[k].lander.intro == null && entities[k].lander.target == Some(target)
                      && entities[k].lander.display == settings.display
        {
          var c := new Controller(true);
          var l := new Lander(c, null, Some(target), settings.display, centre, settings.fuel,
                              settings.gravity, settings.thrust, settings.gamespeed, settings.size,
                              settings.angleLimit, settings.speedLimit, now);
          AppendDistinct(entities, LanderEntity(l));
          entities := entities + [LanderEntity(l)];
          j := j + 1;
        }
      }
    }

    /** `message(text)`: appends a text at the centre, 20 below it, that
        expires after the default delay. */
    method Message(text: string, now: int) returns (t: Text)
      requires Valid()
      modifies this
      ensures Valid() && fresh(t) && IsMessage(TextEntity(t), text, now)
      ensures entities == old(entities) + [TextEntity(t)]
      ensures settings == old(settings) && terrain == old(terrain)
      ensures target == old(target) && clearDraw == old(clearDraw)
    {
      t := new Text(centre.x, centre.y + MessageDrop, text, Delay, now);
      AppendDistinct(entities, TextEntity(t));
      entities := entities + [TextEntity(t)];
    }

    /** A message entry as `message` builds it. */
    ghost predicate IsMessage(e: Entity, text: string, now: int)
      reads this, if e.TextEntity? then {e.text} else {}
    {
      e.TextEntity? && e.text.text == text && e.text.x == centre.x
      && e.text.y == centre.y + MessageDrop && e.text.expireAt == Some(now + Delay)
    }

    /** The crash burst `collide` appends at the point p. */
    ghost predicate IsBurst(e: Entity, p: Vec, now: int)
      reads if e.CircleEntity? then {e.circle} else {}
    {
      e.CircleEntity? && e.circle.x == p.x && e.circle.y == p.y
      && e.circle.startRadius == BurstStart && e.circle.endRadius == BurstEnd
      && e.circle.expireAt == Some(now + BurstDuration)
    }

    /** The entries `collide` appends after the list `before` for the outcome
        o at the point p: the outcome's message, then for a crash the burst. */
    ghost predicate Reported(before: seq<Entity>, o: Outcome, p: Vec, now: int)
      reads this, Texts(entities), Circles(entities)
    {
      && |entities| == |before| + (if o == Crashed then 2 else 1)
      && entities[..|before|] == before
      && IsMessage(entities[|before|], MessageFor(o), now)
      && (o == Crashed ==> IsBurst(entities[|before| + 1], p, now))
    }

    /** `collide(lander)`: a lander that already has an expiry is skipped.
        Otherwise its bounds points are walked in order and the first one that
        resolves it decides how it lands and when it expires. `now` is the
        frame's clock reading, a positive timestamp, so the expiry is always
        truthy and ends the walk. */
    method Collide(l: Lander, now: int, trig: Trig)
      requires Valid() && now > 0 && l.Valid()
      modifies this, l
      ensures Valid() && l.Valid()
      ensures settings == old(settings) && terrain == old(terrain)
      ensures target == old(target) && clearDraw == old(clearDraw)
      ensures l.last == old(l.last)
      ensures var r := Resolution(terrain, width, old(l.Bounds(trig)), old(l.velocity), old(l.angle),
                                  l.velLimit, l.angLimit);
        if old(l.expireAt).Some? || r.None? then
          entities == old(entities) && l.State() == old(l.State()) && l.expireAt == old(l.expireAt)
        else
          var (p, o) := r.value;
          && l.State() == Flight.Land(old(l.State()))
          && l.expireAt == Some(if o == Landed then now + Delay else now)
          && Reported(old(entities), o, p, now)
          && fresh(entities[|old(entities)|].text)
          && (o == Crashed ==> fresh(entities[|old(entities)| + 1].circle))
      ensures forall k :: |old(entities)| <= k < |entities| ==>
                Notice(entities[k])
    {
      if l.expireAt.Some? {
        return;
      }
      var points := l.Bounds(trig);
      Scan(l, points, now);
    }

    /** The walk of `collide` over the bounds points of a lander without an
        expiry: it stops at the first point that resolves the lander. */
    method Scan(l: Lander, points: seq<Vec>, now: int)
      requires Valid() && now > 0 && l.Valid()
      modifies this, l
      ensures Valid() && l.Valid()
      ensures settings == old(settings) && terrain == old(terrain)
      ensures target == old(target) && clearDraw == old(clearDraw)
      ensures l.last == old(l.last)
      ensures var r := Resolution(terrain, width, points, old(l.velocity), old(l.angle),
                                  l.velLimit, l.angLimit);
        if r.None? then
          entities == old(entities) && l.State() == old(l.State()) && l.expireAt == old(l.expireAt)
        else
          var (p, o) := r.value;
          && l.State() == Flight.Land(old(l.State()))
          && l.expireAt == Some(if o == Landed then now + Delay else now)
          && Reported(old(entities), o, p, now)
          && fresh(entities[|old(entities)|].text)
          && (o == Crashed ==> fresh(entities[|old(entities)| + 1].circle))
      ensures forall k :: |old(entities)| <= k < |entities| ==>
                Notice(entities[k])
    {
      ghost var velocity, angle := l.velocity, l.angle;
      var expire: Option<int> := None;
      var i := 0;
      while i < |points|
        invariant 0 <= i <= |points|
        invariant FirstContact(terrain, width, points, i) == FirstContact(terrain, width, points, 0)
        invariant expire == None && unchanged(this, l)
      {
        expire := ProbePoint(l, points[i], now);
        FirstContactStep(terrain, width, points, i);
        if expire.Some? && expire.value != 0 {
          ResolutionAt(terrain, width, points, velocity, angle, l.velLimit, l.angLimit, i);
          return;
        }
        i := i + 1;
      }
      ResolutionAt(terrain, width, points, velocity, angle, l.velLimit, l.angLimit, i);
    }

    /** The body of the walk in `collide` for one bounds point, up to the
        expiry test: the point's segment index is `((divisions * x) / width) | 0`;
        on or below an in-range segment the lander lands on it, reports
        "Landed OK" or "Crashed!" (leaving a burst at the point), and off the
        index range it lands without a line and reports "Offscreen!". */
    method ProbePoint(l: Lander, point: Vec, now: int) returns (expire: Option<int>)
      requires Valid() && l.Valid()
      modifies this, l
      ensures Valid() && l.Valid()
      ensures settings == old(settings) && terrain == old(terrain)
      ensures target == old(target) && clearDraw == old(clearDraw)
      ensures l.last == old(l.last) && l.expireAt == if expire.Some? then expire else old(l.expireAt)
      ensures expire.Some? <==> Resolves(terrain, width, point)
      ensures expire.Some? ==> expire.value >= now
      ensures expire.None? ==> unchanged(this, l)
      ensures Resolves(terrain, width, point) ==>
        var o := Contact(terrain, width, point, old(l.velocity), old(l.angle), l.velLimit, l.angLimit);
        && expire == Some(if o == Landed then now + Delay else now)
        && l.State() == Flight.Land(old(l.State()))
        && Reported(old(entities), o, point, now)
        && fresh(entities[|old(entities)|].text)
        && (o == Crashed ==> fresh(entities[|old(entities)| + 1].circle))
      ensures forall k :: |old(entities)| <= k < |entities| ==>
                Notice(entities[k])
    {
      expire := None;
      var segment := SegmentIndex(settings.divisions, width, point.x);
      if 0 <= segment < settings.divisions {
        var line := entities[segment].line;
        if line.PointBelow(point.x, point.y) {
          expire := Settle(l, Some(line), point, now);
        }
      } else {
        expire := Settle(l, None, point, now);
      }
    }

    /** What `collide` does once a point has resolved the lander: `land` with
        the segment's line (or none off-screen), then the outcome's message,
        then for a crash a burst at the point; the expiry is two seconds away
        after a landing and immediate otherwise. */
    method Settle(l: Lander, line: Option<Line>, point: Vec, now: int) returns (expire: Option<int>)
      requires Valid() && l.Valid()
      modifies this, l
      ensures Valid() && l.Valid()
      ensures settings == old(settings) && terrain == old(terrain)
      ensures target == old(target) && clearDraw == old(clearDraw)
      ensures l.last == old(l.last) && l.expireAt == expire
      ensures var o := Judge(line, old(l.velocity), old(l.angle), l.velLimit, l.angLimit);
        && expire == Some(if o == Landed then now + Delay else now)
        && l.State() == Flight.Land(old(l.State()))
        && Reported(old(entities), o, point, now)
        && fresh(entities[|old(entities)|].text)
        && (o == Crashed ==> fresh(entities[|old(entities)| + 1].circle))
      ensures forall k :: |old(entities)| <= k < |entities| ==>
                Notice(entities[k])
    {
      var ok := l.Land(line);
      var o := if line.None? then Offscreen else if ok then Landed else Crashed;
      expire := Some(if o == Landed then now + Delay else now);
      l.expireAt := expire;
      Announce(o, point, now);
    }

    /** The entries `collide` appends for an outcome: its message, and for a
        crash a burst at the point that lasts half a second. */
    method Announce(o: Outcome, point: Vec, now: int)
      requires Valid()
      modifies this
      ensures Valid()
      ensures settings == old(settings) && terrain == old(terrain)
      ensures target == old(target) && clearDraw == old(clearDraw)
      ensures Reported(old(entities), o, point, now)
      ensures fresh(entities[|old(entities)|].text)
      ensures o == Crashed ==> fresh(entities[|old(entities)| + 1].circle)
      ensures forall k :: |old(entities)| <= k < |entities| ==>
                Notice(entities[k])
    {
      var _ := Message(MessageFor(o), now);
      if o == Crashed {
        var c := new Circle(point.x, point.y, BurstStart, BurstEnd, BurstDuration, now);
        AppendDistinct(entities, CircleEntity(c));
        entities := entities + [CircleEntity(c)];
      }
    }

    /** `update()`: the walk over the display list, then the deletion of
        the entries it found expired. `pass` is the list the walk saw and
        `expired` the flag it recorded for each entry; the survivors are the
        unflagged entries, in their order. */
    method Update(now: int, trig: Trig, rng: seq<real>)
      returns (ghost pass: seq<Entity>, ghost expired: seq<bool>, ghost read: seq<Flags>)
      requires Valid() && now > 0 && Draws(rng)
      requires forall k :: 0 <= k < |entities| && entities[k].LanderEntity? ==>
                 Launchable(entities[k].lander)
      modifies this, Frame(entities)
      ensures Valid()
      ensures settings == old(settings) && terrain == old(terrain)
      ensures target == old(target) && clearDraw == old(clearDraw)
      ensures |expired| == |pass| >= |old(entities)| && pass[..|old(entities)|] == old(entities)
      ensures forall k :: |old(entities)| <= k < |pass| ==> Notice(pass[k])
      ensures ExpiryFlags(pass, expired, now)
      ensures |read| == |pass|
      ensures forall k :: 0 <= k < |old(entities)| && old(entities)[k].LanderEntity? ==>
                (old(Status(entities[k].lander)).craft.held ==> old(Status(entities[k].lander)).craft.attached)
                && Status(old(entities)[k].lander)
                   == Visited(old(entities)[k].lander, old(Status(entities[k].lander)), read[k],
                              terrain, width, trig, now)
      ensures entities == Pick(pass, expired, false)
    {
      var toDelete;
      toDelete, expired, read := Walk(now, trig, rng);
      pass := entities;
      Sweep(pass, toDelete, expired, now);
    }

    /** The `delEntities(toDelete)` call that ends `update`: the entries the
        walk flagged go, the others stay in order, and the flags the walk
        recorded still describe the entries it saw. */
    method Sweep(ghost pass: seq<Entity>, toDelete: seq<Entity>, ghost expired: seq<bool>, ghost now: int)
      requires Valid() && entities == pass && |expired| == |pass|
      requires toDelete == Pick(pass, expired, true)
      requires ExpiryFlags(pass, expired, now)
      modifies this
      ensures Valid()
      ensures settings == old(settings) && terrain == old(terrain)
      ensures target == old(target) && clearDraw == old(clearDraw)
      ensures entities == Pick(pass, expired, false)
      ensures ExpiryFlags(pass, expired, now)
    {
      assert forall k :: 0 <= k < |pass| && pass[k].TextEntity? ==> pass[k].text as object != this;
      assert forall k :: 0 <= k < |pass| && pass[k].LanderEntity? ==> pass[k].lander as object != this;
      DelEntities(toDelete);
      SurvivorsKeepListing(pass, expired, terrain);
      DeletingPickedKeepsRest(pass, expired);
    }

    /** The loop of `update`: every entry is visited in order, including the
        messages and bursts appended while the walk runs; the entries found
        expired on their visit are collected in `toDelete`. The lander at
        position j draws `rng[j]` for its controller's hook. */
    method Walk(now: int, trig: Trig, rng: seq<real>)
      returns (toDelete: seq<Entity>, ghost expired: seq<bool>, ghost read: seq<Flags>)
      requires Valid() && now > 0 && Draws(rng)
      requires forall k :: 0 <= k < |entities| && entities[k].LanderEntity? ==>
                 Launchable(entities[k].lander)
      modifies this, Frame(entities)
      ensures Valid()
      ensures settings == old(settings) && terrain == old(terrain)
      ensures target == old(target) && clearDraw == old(clearDraw)
      ensures |expired| == |entities| >= |old(entities)| && entities[..|old(entities)|] == old(entities)
      ensures forall k :: |old(entities)| <= k < |entities| ==> Notice(entities[k])
      ensures toDelete == Pick(entities, expired, true)
      ensures ExpiryFlags(entities, expired, now)
      ensures |read| == |expired|
      ensures forall k :: 0 <= k < |old(entities)| && old(entities)[k].LanderEntity? ==>
                (old(Status(entities[k].lander)).craft.held ==> old(Status(entities[k].lander)).craft.attached)
                && Status(old(entities)[k].lander)
                   == Visited(old(entities)[k].lander, old(Status(entities[k].lander)), read[k],
                              terrain, width, trig, now)
    {
      ghost var es0 := entities;
      ghost var before := Snapshot(entities);
      toDelete := [];
      expired, read := [], [];
      var j := 0;
      assert entities[..0] == [];
      while j < |entities|
        invariant Walked(es0, before, read, j, toDelete, expired, now, trig)
        invariant settings == old(settings) && terrain == old(terrain)
        invariant target == old(target) && clearDraw == old(clearDraw)
        decreases if j < |es0| then |es0| - j else 0, |entities| - j
      {
        var r := if j < |rng| then rng[j] else 0.0;
        toDelete, expired, read := Advance(es0, before, read, j, toDelete, expired, now, trig, r);
        j := j + 1;
      }
      WalkedAll(es0, before, read, toDelete, expired, now, trig);
    }

    /** A walk that has visited every entry has established `Walk`'s promise. */
    lemma WalkedAll(es0: seq<Entity>, before: seq<Standing>, read: seq<Flags>, toDelete: seq<Entity>,
                    expired: seq<bool>, now: int, trig: Trig)
      requires Walked(es0, before, read, |entities|, toDelete, expired, now, trig)
      ensures |expired| == |entities| >= |es0| && entities[..|es0|] == es0
      ensures forall k :: |es0| <= k < |entities| ==> Notice(entities[k])
      ensures toDelete == Pick(entities, expired, true)
      ensures ExpiryFlags(entities, expired, now)
      ensures |read| == |expired| && |before| == |es0|
      ensures forall k :: 0 <= k < |es0| && es0[k].LanderEntity? ==>
                (before[k].craft.held ==> before[k].craft.attached)
                && Status(es0[k].lander) == Visited(es0[k].lander, before[k], read[k], terrain, width, trig, now)
    {
      assert entities[..|entities|] == entities;
    }

    /** What the walk has established after visiting the first j entries of
        a list that started as es0: the list only grew, by messages and
        bursts; toDelete holds the visited entries flagged expired, in order;
        the flags mean what `ExpiryFlags` says; the landers visited so far
        have been updated at `now` and the rest can still be. */
    ghost predicate Walked(es0: seq<Entity>, before: seq<Standing>, read: seq<Flags>, j: nat,
                           toDelete: seq<Entity>, expired: seq<bool>, now: int, trig: Trig)
      reads this, Landers(entities), Texts(entities)
    {
      && Valid() && j <= |entities| && |expired| == j
      && |entities| >= |es0| && entities[..|es0|] == es0
      && (forall k :: |es0| <= k < |entities| ==> Notice(entities[k]))
      && toDelete == Pick(entities[..j], expired, true)
      && (forall k :: 0 <= k < j && expired[k] ==> ExpiredAt(entities[k], now))
      && (forall k :: 0 <= k < j && !entities[k].TextEntity? ==> expired[k] == ExpiredAt(entities[k], now))
      && |before| == |es0| && |read| == j
      && (forall k :: 0 <= k < |es0| && es0[k].LanderEntity? ==>
            if k < j then
              (before[k].craft.held ==> before[k].craft.attached)
              && Status(es0[k].lander) == Visited(es0[k].lander, before[k], read[k], terrain, width, trig, now)
            else Launchable(es0[k].lander) && Status(es0[k].lander) == before[k])
    }

    /** One iteration of the loop of `update`: visit entry j and record
        whether it expired. */
    method Advance(ghost es0: seq<Entity>, ghost before: seq<Standing>, ghost read: seq<Flags>, j: nat,
                   toDelete: seq<Entity>, ghost expired: seq<bool>, now: int, trig: Trig, r: real)
      returns (toDelete': seq<Entity>, ghost expired': seq<bool>, ghost read': seq<Flags>)
      requires Walked(es0, before, read, j, toDelete, expired, now, trig)
      requires j < |entities| && now > 0 && 0.0 <= r < 1.0
      modifies this, UpdateFrame(entities[j])
      ensures Walked(es0, before, read', j + 1, toDelete', expired', now, trig)
      ensures settings == old(settings) && terrain == old(terrain)
      ensures target == old(target) && clearDraw == old(clearDraw)
      ensures |entities| >= |old(entities)| && entities[..|old(entities)|] == old(entities)
      ensures !old(entities)[j].LanderEntity? ==> entities == old(entities)
    {
      ghost var before := entities;
      var isExpired := Visit(j, now, trig, r);
      TakeOfExtension(before, entities, |es0|);
      TakeOfExtension(before, entities, j);
      toDelete' := if isExpired then toDelete + [entities[j]] else toDelete;
      PickExtend(entities, expired, j, isExpired, true);
      expired' := expired + [isExpired];
      read' := read + [if entities[j].LanderEntity? then entities[j].lander.pilot.flags else NoFlags];
    }

    /** One pass of the loop of `update` over entry j: a lander is updated
        and then collided; the entry is reported expired when it has an
        expiry and `now` has reached it. r is the draw its controller's
        hook would consume. */
    method Visit(j: nat, now: int, trig: Trig, r: real) returns (isExpired: bool)
      requires Valid() && now > 0 && j < |entities| && 0.0 <= r < 1.0
      requires entities[j].LanderEntity? ==> Launchable(entities[j].lander)
      modifies this, UpdateFrame(entities[j])
      ensures Valid()
      ensures settings == old(settings) && terrain == old(terrain)
      ensures target == old(target) && clearDraw == old(clearDraw)
      ensures |entities| >= |old(entities)| && entities[..|old(entities)|] == old(entities)
      ensures forall k :: |old(entities)| <= k < |entities| ==> Notice(entities[k])
      ensures isExpired == ExpiredAt(entities[j], now)
      ensures entities[j].LanderEntity? ==> entities[j].lander.last == now
      ensures old(entities[j]).LanderEntity? ==> var l := old(entities[j].lander);
        && l.pilot.flags == (if old(l.controller) != null && l.pilot.scripted
                             then old(l.pilot.flags).Toggle(ScriptedKey(r)) else old(l.pilot.flags))
        && Status(l) == Visited(l, old(Status(l)), l.pilot.flags, terrain, width, trig, now)
      ensures !entities[j].LanderEntity? ==> entities == old(entities)
      ensures forall k :: 0 <= k < |old(entities)| && k != j && old(entities)[k].LanderEntity? ==>
                unchanged(old(entities)[k].lander)
      ensures forall k :: 0 <= k < |old(entities)| && k != j && !entities[k].TextEntity? ==>
                ExpiredAt(entities[k], now) == old(ExpiredAt(entities[k], now))
      ensures forall k :: 0 <= k < |old(entities)| && k != j && old(ExpiredAt(entities[k], now)) ==>
                ExpiredAt(entities[k], now)
    {
      var entity := entities[j];
      if entity.LanderEntity? {
        VisitLander(j, now, trig, r);
      }
      isExpired := ExpiredAt(entity, now);
    }

    /** The lander case of `Visit`: update, then collide. The controller's
        hook toggles the signal its draw selects (scripted controllers only),
        and the lander ends where `Visited` puts it with those signals. */
    method VisitLander(j: nat, now: int, trig: Trig, r: real)
      requires Valid() && now > 0 && j < |entities| && 0.0 <= r < 1.0
      requires entities[j].LanderEntity? && Launchable(entities[j].lander)
      modifies this, UpdateFrame(entities[j])
      ensures Valid()
      ensures settings == old(settings) && terrain == old(terrain)
      ensures target == old(target) && clearDraw == old(clearDraw)
      ensures |entities| >= |old(entities)| && entities[..|old(entities)|] == old(entities)
      ensures forall k :: |old(entities)| <= k < |entities| ==> Notice(entities[k])
      ensures entities[j].lander.last == now
      ensures var l := old(entities[j].lander);
        l.pilot.flags == if old(l.controller) != null && l.pilot.scripted
                         then old(l.pilot.flags).Toggle(ScriptedKey(r)) else old(l.pilot.flags)
      ensures var l := old(entities[j].lander);
        Status(l) == Visited(l, old(Status(l)), l.pilot.flags, terrain, width, trig, now)
      ensures forall k :: 0 <= k < |old(entities)| && k != j && old(entities)[k].LanderEntity? ==>
                unchanged(old(entities)[k].lander)
      ensures forall k :: 0 <= k < |old(entities)| && k != j && !old(entities)[k].TextEntity? ==>
                ExpiredAt(old(entities)[k], now) == old(ExpiredAt(entities[k], now))
      ensures forall k :: 0 <= k < |old(entities)| && k != j && old(ExpiredAt(entities[k], now)) ==>
                ExpiredAt(old(entities)[k], now)
    {
      var l := entities[j].lander;
      OtherLanders(entities, j);
      l.Update(now, trig, r);
      Collide(l, now, trig);
    }

    /** `delEntities(toDelete)`: each entry is looked up with `indexOf` and,
        when present, spliced out. */
    method DelEntities(toDelete: seq<Entity>)
      modifies this
      ensures entities == Without(old(entities), toDelete)
      ensures settings == old(settings) && terrain == old(terrain)
      ensures target == old(target) && clearDraw == old(clearDraw)
    {
      var j := 0;
      ghost var done: seq<Entity> := [];
      while j < |toDelete|
        invariant 0 <= j <= |toDelete| && done == toDelete[..j]
        invariant entities == Without(old(entities), done)
        invariant settings == old(settings) && terrain == old(terrain)
        invariant target == old(target) && clearDraw == old(clearDraw)
      {
        var entity := toDelete[j];
        ghost var cur := entities;
        var index := IndexOf(entities, entity);
        if index != -1 {
          entities := entities[..index] + entities[index + 1..];
        }
        RemoveFirstSplices(cur, entity, index);
        WithoutLast(old(entities), done, entity);
        TakeOneMore(toDelete, j);
        done := done + [entity];
        j := j + 1;
      }
      assert toDelete[..j] == toDelete;
    }

    /** `draw`: whether the canvas is cleared first, and the order the
        entries are drawn in: from the last entry to the first. */
    method Draw() returns (cleared: bool, order: seq<Entity>)
      ensures cleared == clearDraw && order == Reversed(entities)
    {
      cleared := clearDraw;
      order := [];
      if |entities| != 0 {
        var j := |entities| - 1;
        while j >= 0
          invariant -1 <= j < |entities|
          invariant |order| == |entities| - 1 - j
          invariant forall k :: 0 <= k < |order| ==> order[k] == entities[|entities| - 1 - k]
        {
          order := order + [entities[j]];
          j := j - 1;
        }
      }
    }
  }

  /** What a visit of `update` changes on a lander besides its controller's
      signals and its intro message: its flight state, its clock and its expiry. */
  datatype Standing = Standing(craft: Craft, last: int, expireAt: Option<int>)

  function Status(l: Lander): Standing
    reads l
  {
    Standing(l.State(), l.last, l.expireAt)
  }

  /** A placeholder standing for entries that are not landers. */
  const Idle := Standing(Craft(Vec(0.0, 0.0), Vec(0.0, 0.0), 0.0, 0, false, false, false), 0, None)

  /** The standing of every lander in s, position by position. */
  function Snapshot(s: seq<Entity>): (r: seq<Standing>)
    reads Landers(s)
    ensures |r| == |s|
    ensures forall k :: 0 <= k < |s| && s[k].LanderEntity? ==> r[k] == Status(s[k].lander)
  {
    seq(|s|, k requires 0 <= k < |s| reads Landers(s) =>
      if s[k].LanderEntity? then Status(s[k].lander) else Idle)
  }

  /** One visit of `update` to the lander l standing at b, whose controller
      shows the signals f once its hook has run: `Lander.update` steps it by
      the time since its last update, then `collide` resolves it at the
      bounds of the stepped lander, unless it already has an expiry. */
  function Visited(l: Lander, b: Standing, f: Flags, terrain: seq<Line>, width: real,
                   trig: Trig, now: int): Standing
    requires width > 0.0 && (b.craft.held ==> b.craft.attached)
  {
    var c := Step(b.craft, f, Delta(l.gamespeed, b.last, now), l.Physics(trig));
    if b.expireAt.Some? then Standing(c, now, b.expireAt)
    else match Resolution(terrain, width, BoundsAt(l.size, trig, c.position, c.angle),
                          c.velocity, c.angle, l.velLimit, l.angLimit)
      case None => Standing(c, now, None)
      case Some((_, o)) => Standing(Flight.Land(c), now, Some(if o == Landed then now + Delay else now))
  }

  /** A visit resolves a lander at most once. It always stamps the clock. An
      expiry already set stays, and then the lander is only stepped. A lander
      given an expiry on this visit is landed (controller cleared, engine
      off) and expires no earlier than now, and it expires two seconds later
      exactly when the first bounds point of the stepped lander that
      resolves it lands it. */
  lemma VisitResolvesOnce(l: Lander, b: Standing, f: Flags, terrain: seq<Line>, width: real,
                          trig: Trig, now: int)
    requires width > 0.0 && (b.craft.held ==> b.craft.attached)
    ensures var r := Visited(l, b, f, terrain, width, trig, now);
      var c := Step(b.craft, f, Delta(l.gamespeed, b.last, now), l.Physics(trig));
      && r.last == now
      && (b.expireAt.Some? ==> r.expireAt == b.expireAt && r.craft == c)
      && (r.expireAt != b.expireAt ==>
            r.expireAt.Some? && r.expireAt.value >= now && !r.craft.attached && !r.craft.engineOn)
      && (r.expireAt == b.expireAt ==> r.craft == c)
      && (b.expireAt.None? ==>
            (r.expireAt == Some(now + Delay) <==>
               var res := Resolution(terrain, width, BoundsAt(l.size, trig, c.position, c.angle),
                                     c.velocity, c.angle, l.velLimit, l.angLimit);
               res.Some? && res.value.1 == Landed))
  {
    var c := Step(b.craft, f, Delta(l.gamespeed, b.last, now), l.Physics(trig));
    var res := Resolution(terrain, width, BoundsAt(l.size, trig, c.position, c.angle),
                          c.velocity, c.angle, l.velLimit, l.angLimit);
    if b.expireAt.None? && res.Some? {
      assert Delay > 0;
    }
  }

  /** A lander `update` may be called on: a held lander still has its
      controller, since `update` reads the controller's Down flag. */
  ghost predicate Launchable(l: Lander)
    reads l
  {
    l.held ==> l.controller != null
  }

  /** The flags a walk records: an entry flagged expired has expired, and
      every entry but a text is flagged exactly when it has expired (a text
      may still be made to expire by a lander visited after it). */
  ghost predicate ExpiryFlags(es: seq<Entity>, expired: seq<bool>, now: int)
    reads set k | 0 <= k < |es| && es[k].TextEntity? :: es[k].text
    reads set k | 0 <= k < |es| && es[k].LanderEntity? :: es[k].lander
  {
    && |expired| == |es|
    && (forall k :: 0 <= k < |es| && expired[k] ==> ExpiredAt(es[k], now))
    && (forall k :: 0 <= k < |es| && !es[k].TextEntity? ==> expired[k] == ExpiredAt(es[k], now))
  }

  /** The texts listed in s. */
  function Texts(s: seq<Entity>): set<Text> {
    set k | 0 <= k < |s| && s[k].TextEntity? :: s[k].text
  }

  /** The bursts listed in s. */
  function Circles(s: seq<Entity>): set<Circle> {
    set k | 0 <= k < |s| && s[k].CircleEntity? :: s[k].circle
  }

  /** The kind of entry `collide` appends: a message or a burst. */
  predicate Notice(e: Entity) {
    e.TextEntity? || e.CircleEntity?
  }

  /** The loop of `buildScene`, for a pad index within the divisions: every
      line but the pad takes the next draw for its end height, and the pad
      keeps the height it starts at. When the loop reaches the pad it stores
      the target. The lines come out in the order the loop pushes them. */
  method LayTerrain(s: Terrain.Scene, draws: seq<real>, pad: int, target0: Vec)
    returns (lines: seq<Line>, target: Vec)
    requires Supplies(s, draws) && (s.divisions >= 1 ==> 1 <= pad <= s.divisions)
    ensures lines == TerrainLines(s, draws, pad, s.divisions)
    ensures target == if s.divisions >= 1 then Target(s, draws, pad) else target0
  {
    var d, g, m := s.divisions, s.groundHeight, s.mountainHeight;
    var y := s.height - g;
    var prevX, prevY := 0.0, y;
    var next := 1;
    var i := 1;
    lines, target := [], target0;
    while i <= d
      invariant 1 <= i <= d + 1 && next <= i && y == prevY
      invariant Laid(s, draws, pad, i, next, prevX, prevY, lines, target, target0)
    {
      ghost var before := next;
      var x := (s.width / d as real) * i as real;
      if i != pad {
        y := s.height - g - draws[next] * m;
        next := next + 1;
      }
      var line := Line(prevX, prevY, x, y, if i == pad then PadThickness else DefaultThickness);
      LayStep(s, draws, pad, i, before, prevX, prevY, lines, target, target0, x, y);
      if i == pad {
        target := Vec((x - prevX) / 2.0, y);
      }
      lines := lines + [line];
      prevX, prevY := x, y;
      i := i + 1;
    }
  }

  /** What the terrain loop knows before the iteration with index i. */
  ghost predicate Laid(s: Terrain.Scene, ds: seq<real>, pad: int, i: int, next: int,
                       prevX: real, prevY: real, lines: seq<Line>, target: Vec, target0: Vec)
  {
    1 <= i <= s.divisions + 1 && s.divisions < |ds|
    && next == (if 1 <= pad < i then i - 1 else i)
    && (s.divisions > 0 ==> prevX == SliceX(s, i - 1))
    && prevY == EndY(s, ds, pad, i - 1)
    && lines == TerrainLines(s, ds, pad, i - 1)
    && target == (if 1 <= pad < i then Target(s, ds, pad) else target0)
  }

  /** One iteration of the terrain loop keeps what it knows. */
  lemma LayStep(s: Terrain.Scene, ds: seq<real>, pad: int, i: int, next: int,
                prevX: real, prevY: real, lines: seq<Line>, target: Vec, target0: Vec,
                x: real, y: real)
    requires Laid(s, ds, pad, i, next, prevX, prevY, lines, target, target0) && i <= s.divisions
    requires s.divisions >= 1 ==> 1 <= pad <= s.divisions
    requires x == (s.width / s.divisions as real) * i as real
    requires y == if i == pad then prevY
                  else s.height - s.groundHeight - ds[next] * s.mountainHeight
    ensures Laid(s, ds, pad, i + 1, if i == pad then next else next + 1, x, y,
                 lines + [Line(prevX, prevY, x, y, if i == pad then PadThickness else DefaultThickness)],
                 if i == pad then Vec((x - prevX) / 2.0, y) else target, target0)
  {
    assert i != pad ==> next == DrawFor(pad, i);
    LineStep(s, ds, pad, i, prevX, prevY, x, y);
  }

  /** One step of the terrain loop lays down the next terrain line and, at
      the pad, stores the target. */
  lemma LineStep(s: Terrain.Scene, ds: seq<real>, pad: int, i: nat,
                 prevX: real, prevY: real, x: real, y: real)
    requires 1 <= i <= s.divisions < |ds|
    requires prevX == SliceX(s, i - 1) && prevY == EndY(s, ds, pad, i - 1)
    requires x == (s.width / s.divisions as real) * i as real
    requires y == if i == pad then prevY
                  else s.height - s.groundHeight - ds[DrawFor(pad, i)] * s.mountainHeight
    ensures x == SliceX(s, i) && y == EndY(s, ds, pad, i)
    ensures TerrainLines(s, ds, pad, i)
         == TerrainLines(s, ds, pad, i - 1)
            + [Line(prevX, prevY, x, y, if i == pad then PadThickness else DefaultThickness)]
    ensures i == pad ==> Target(s, ds, pad) == Vec((x - prevX) / 2.0, y)
  {
    EndYStep(s, ds, pad, i);
  }

  /** A freshly built scene starts with its lines and holds neither a lander
      nor anything that expires. */
  lemma PlainScene(ls: seq<Line>, p: Point)
    ensures var es := LineEntities(ls) + [PointEntity(p)];
      && (forall k :: 0 <= k < |ls| ==> es[k] == LineEntity(ls[k]))
      && (forall k :: 0 <= k < |es| ==> !es[k].Expirable() && !es[k].LanderEntity?)
      && DistinctExpirable(es)
  {
  }

  /** Appending an object not yet listed keeps the list free of repeats. */
  lemma AppendDistinct(s: seq<Entity>, e: Entity)
    requires DistinctExpirable(s) && e !in s
    ensures DistinctExpirable(s + [e])
  {
    var t := s + [e];
    assert multiset(t) == multiset(s) + multiset{e};
    forall i | 0 <= i < |t| && t[i].Expirable()
      ensures multiset(t)[t[i]] == 1
    {
      if i < |s| {
        assert t[i] == s[i] != e;
      }
    }
  }

  /** Two positions never hold the same text, circle or lander. */
  lemma DistinctApart(s: seq<Entity>, i: nat, k: nat)
    requires DistinctExpirable(s) && i < |s| && k < |s| && i != k && s[i].Expirable()
    ensures s[i] != s[k]
  {
    if i < k {
      CountTwice(s, i, k);
    } else {
      CountTwice(s, k, i);
    }
  }

  /** An entry that also occurs earlier is counted at least twice. */
  lemma CountTwice<T>(s: seq<T>, lo: nat, hi: nat)
    requires lo < hi < |s|
    ensures s[lo] == s[hi] ==> multiset(s)[s[hi]] >= 2
  {
    assert s == s[..hi] + [s[hi]] + s[hi + 1..];
    assert multiset(s) == multiset(s[..hi]) + multiset{s[hi]} + multiset(s[hi + 1..]);
    assert s[..hi][lo] == s[lo];
  }

  /** The lander at position j is listed nowhere else. */
  lemma OtherLanders(s: seq<Entity>, j: nat)
    requires DistinctExpirable(s) && j < |s| && s[j].LanderEntity?
    ensures forall k :: 0 <= k < |s| && k != j && s[k].LanderEntity? ==> s[k].lander != s[j].lander
  {
    forall k | 0 <= k < |s| && k != j && s[k].LanderEntity?
      ensures s[k].lander != s[j].lander
    {
      DistinctApart(s, j, k);
    }
  }

  /** Deleting the entries flagged expired keeps the terrain prefix (lines
      never expire), keeps every text, circle and lander listed once, and
      adds nothing. */
  lemma SurvivorsKeepListing(pass: seq<Entity>, expired: seq<bool>, terrain: seq<Line>)
    requires |expired| == |pass| && DistinctExpirable(pass) && |terrain| <= |pass|
    requires forall k :: 0 <= k < |terrain| ==> pass[k] == LineEntity(terrain[k])
    requires forall k :: 0 <= k < |pass| && expired[k] ==> pass[k].Expirable()
    ensures FlaggedOnce(pass, expired)
    ensures var kept := Pick(pass, expired, false);
      && |terrain| <= |kept| && (forall k :: 0 <= k < |terrain| ==> kept[k] == LineEntity(terrain[k]))
      && DistinctExpirable(kept) && (forall k :: 0 <= k < |kept| ==> kept[k] in pass)
  {
    KeptTerrain(pass, expired, terrain);
    PickPartitions(pass, expired);
    KeptFromPass(pass, expired);
    KeptDistinct(pass, expired);
  }

  lemma KeptTerrain(pass: seq<Entity>, expired: seq<bool>, terrain: seq<Line>)
    requires |expired| == |pass| && |terrain| <= |pass|
    requires forall k :: 0 <= k < |terrain| ==> pass[k] == LineEntity(terrain[k])
    requires forall k :: 0 <= k < |pass| && expired[k] ==> pass[k].Expirable()
    ensures var kept := Pick(pass, expired, false);
      |terrain| <= |kept| && forall k :: 0 <= k < |terrain| ==> kept[k] == LineEntity(terrain[k])
  {
    var kept := Pick(pass, expired, false);
    PickKeepsPrefix(pass, expired, |terrain|);
    assert forall k :: 0 <= k < |terrain| ==> kept[k] == kept[..|terrain|][k];
  }

  lemma KeptFromPass(pass: seq<Entity>, expired: seq<bool>)
    requires |expired| == |pass|
    requires multiset(Pick(pass, expired, true)) + multiset(Pick(pass, expired, false)) == multiset(pass)
    ensures var kept := Pick(pass, expired, false);
      multiset(kept) <= multiset(pass) && forall k :: 0 <= k < |kept| ==> kept[k] in pass
  {
    var kept := Pick(pass, expired, false);
    assert multiset(kept) <= multiset(pass);
    forall k | 0 <= k < |kept|
      ensures kept[k] in pass
    {
      assert kept[k] in multiset(kept);
      assert kept[k] in multiset(pass);
    }
  }

  lemma KeptDistinct(pass: seq<Entity>, expired: seq<bool>)
    requires |expired| == |pass| && DistinctExpirable(pass)
    requires var kept := Pick(pass, expired, false);
      multiset(kept) <= multiset(pass) && forall k :: 0 <= k < |kept| ==> kept[k] in pass
    ensures DistinctExpirable(Pick(pass, expired, false))
  {
    var kept := Pick(pass, expired, false);
    forall i | 0 <= i < |kept| && kept[i].Expirable()
      ensures multiset(kept)[kept[i]] == 1
    {
      var x := kept[i];
      assert x in multiset(kept);
      var m :| 0 <= m < |pass| && pass[m] == x;
    }
  }
}
