# Moon lander — a Dafny model of the game core

The game keeps one display list of entities. It begins with one terrain line per
division, then a centre marker, then whatever else has been added: landers,
messages and crash bursts. A settings panel exposes the physics and terrain
parameters.

Each frame has two phases:
- **Update.** The loop walks the display list. It updates every lander, collides
  every lander with the ground and collects the entries whose expiry time has
  passed. It then deletes those entries one by one with `indexOf`/`splice`.
- **Draw.** The entries are drawn from the last to the first.

A lander's life has three states:
- **Held** until its controller first signals Down.
- **Flying** while its controller is attached. Each tick moves it with its old
  velocity, adds gravity, turns it one degree per Left/Right signal and fires
  the engine on Up. Fuel must be truthy for turning and firing. A firing tick
  burns `(fuel - 8) | 0`.
- **Resolved** once `land` clears its controller. Landing on the pad slowly and
  upright enough is a success; anything else is a crash or off-screen. A
  resolved lander expires two seconds later after a landing. After a crash or
  going off-screen it expires at the time `collide` read. `update` compares the
  expiry with its own earlier clock reading, so the lander is deleted in the
  same frame only when both readings agree, and otherwise one frame later.

The project has ten modules, one file each:

| file | module | what it holds |
|---|---|---|
| `wrappers.dfy` | `Wrappers` | `Option` |
| `js_numbers.dfy` | `JsNumbers` | the `x \| 0` conversion: truncation toward zero, then 32-bit wrap-around |
| `geometry.dfy` | `Geometry` | vectors, terrain lines and the `pointBelow` test |
| `terrain.dfy` | `Terrain` | what `buildScene` generates, as functions of the random draws, with lemmas about it |
| `controllers.dfy` | `Controllers` | the keyboard controller and the scripted (random) controller, as a class with a `flags` field |
| `flight.dfy` | `Flight` | the lander's tick (`update`) and landing test (`land`) as pure functions on a `Craft` value, with lemmas about fuel, the held state and resolution |
| `entities.dfy` | `Entities` | the classes `Text`, `Circle` and `Lander`, whose methods update their fields in place. `Lander.Update` is proved against `Flight.Step` |
| `display_list.dfy` | `DisplayList` | `indexOf`, `splice`, batch deletion and the split of a pass into deleted entries and survivors, on sequences |
| `collision.dfy` | `Collision` | segment lookup and the first-contact rule of `collide`, as functions |
| `world.dfy` | `World` | the `Game` class: `buildScene`, `reset`, `new game`, `deploy`, `message`, `collide`, `update`, `delEntities` and `draw`, each proved against the functions above |

Two things are parameters rather than part of the model:
- **The clock.** Each call takes `now`. One frame uses a single clock reading.
- **Randomness.** Each call takes a sequence of draws in `[0, 1)`.

The lander physics takes `Math.sin` and `Math.cos` as a supplied `Trig` value.

### Behaviour of the code that is easy to misread

`lander.js` behaves as follows in places where a reader might expect otherwise:
- **Pad index.** It is `(1 + r * (divisions - 1)) | 0` in 1-based loop indices.
  The pad can therefore be the first line (index 1). It is never the last one
  when there are two or more divisions (`Terrain.PadIndexRange`).
- **Pad height.** The pad need not sit at the baseline. It is level at the
  height where the previous line ends, because the loop does not resample `y`
  for it. That height is the baseline only when the pad is the first line
  (`Terrain.PadHeight`).
- **Target.** The stored `target` is `((x - prev.x) / 2, y)`. That is half a
  slice width from the left edge. It is the pad's midpoint only when the pad is
  the first line, and lies left of the pad otherwise
  (`Terrain.TargetIsHalfASegment`).
- **Segment index.** `((divisions * x) / width) | 0` truncates toward zero, so
  points up to one slice left of the screen are looked up in the first segment
  (`Collision.JustLeftMapsToFirst`).
- **Bounds order.** The bounds points are left leg, nose, right leg.
- **Fuel gate.** The fuel test is truthiness (`fuel != 0`). Fuel that is not a
  multiple of 8 never turns the engine off (`Flight.UnevenFuelNeverRunsOut`).
- **Speed test.** The landing test compares `velocity.x + velocity.y` with the
  limit (`Flight.ComponentSumMasksSpeed`).

## Model

| member | source | states |
|---|---|---|
| JsNumbers.Trunc | public/lander.js:305 | truncation toward zero: for v >= 0 the result is the largest integer <= v; for v < 0 the smallest integer >= v |
| JsNumbers.Wrap32 | public/lander.js:538 | the result lies in the signed 32-bit range, is congruent to the input modulo 2^32, and equals the input when the input is already in range |
| JsNumbers.ToInt32 | public/lander.js:239 | `v \| 0` is a signed 32-bit integer, and is the truncation of v whenever v lies strictly inside the 32-bit range |
| JsNumbers.Wrap32KeepsResidue | public/lander.js:538 | the 32-bit wrap of the fuel never changes its remainder modulo 8 |
| Geometry.PointsOnLineAreBelow | public/lander.js:77-79 | both endpoints, and every point on the segment's line, count as below |
| Geometry.OrientationDecidesSide | public/lander.js:77-79 | reversing a segment negates the cross product, so a point strictly on one side is below exactly one of the two orientations |
| Geometry.BelowMeansUnderTheLine | public/lander.js:77-79 | for a left-to-right segment, `pointBelow` holds iff y is at least the line's height at x (on or under the line on screen) |
| Geometry.Line.PointBelow | public/lander.js:77-79 | `pointBelow` as the sign of a cross product; what it means is proved in `PointsOnLineAreBelow`, `OrientationDecidesSide` and `BelowMeansUnderTheLine` |
| Controllers.Flags.With | public/lander.js:137 | setting a signal changes it to the given value and leaves the other three signals as they were |
| Controllers.Flags.Toggle | public/lander.js:153 | flips one signal; `ToggleChangesOneSignal` proves it flips exactly that one and that toggling twice restores the flags |
| Controllers.KeyForCode | public/lander.js:129-134 | the arrow-key map; `ArrowKeysOnly` and `KeyCodesRoundTrip` prove that only codes 37..40 drive a signal and that the map is one-to-one |
| Controllers.ScriptedKey | public/lander.js:150-152 | `keys[(r * 4) \| 0]`; `ScriptedKeyQuarters` proves each key is chosen on exactly its quarter of [0, 1) |
| Controllers.ArrowKeysOnly | public/lander.js:129-136 | a key code drives a signal iff it is one of 37..40, and distinct mapped codes drive distinct signals |
| Controllers.KeyCodesRoundTrip | public/lander.js:129-134 | the key map and its inverse round-trip in both directions |
| Controllers.ScriptedKeyQuarters | public/lander.js:150-152 | the scripted key is `keys[i]` iff the draw lies in [i/4, (i+1)/4), for each of the four keys |
| Controllers.ToggleChangesOneSignal | public/lander.js:153 | a toggle flips exactly the chosen signal, and toggling twice restores the flags |
| Controllers.Controller.constructor | public/lander.js:127-155 | a new controller has every signal false (undefined) |
| Controllers.Controller.KeyDown | public/lander.js:135-139 | an arrow key raises exactly its own signal; any other key changes nothing |
| Controllers.Controller.KeyUp | public/lander.js:140-144 | an arrow key lowers exactly its own signal; any other key changes nothing |
| Controllers.Controller.Update | public/lander.js:151-154 | the scripted hook toggles the signal that the draw selects |
| Terrain.PadIndexRange | public/lander.js:239 | with two or more divisions the pad's loop index lies in 1..divisions-1, so the pad is never the last line; with one division it is that line |
| Terrain.PadIndex | public/lander.js:239 | `(1 + r * (divisions - 1)) \| 0`; `PadIndexRange` bounds it |
| Terrain.Pad | public/lander.js:239 | the pad index drawn from the first draw lies in 1..divisions, and below divisions when there are two or more |
| Terrain.EndY | public/lander.js:240-248 | the height where segment i ends; `HeightsWithinMountainRange` bounds it and `ExactlyOnePad` shows the pad is level |
| Terrain.TerrainLine | public/lander.js:244-255 | the k-th pushed line; `TerrainIsContiguous`, `LinesMeet` and `ExactlyOnePad` state where it lies and which one is the pad |
| Terrain.Target | public/lander.js:250-252 | the stored target; `TargetIsHalfASegment` states where it lies |
| Terrain.TerrainLines | public/lander.js:244-256 | the loop produces exactly one line per division |
| Terrain.TerrainLinesAt | public/lander.js:244-256 | the k-th pushed line is the line built on loop index k+1 |
| Terrain.TerrainIsContiguous | public/lander.js:244-256 | the terrain starts at (0, baseline); each line starts where the previous one ends; line k ends at (width/divisions)*(k+1); the last line ends at the full width |
| Terrain.LinesMeet | public/lander.js:254-255 | consecutive lines share their joint point (`prev` carries the end of one line to the start of the next) |
| Terrain.LastSliceEnds | public/lander.js:245 | the last slice ends exactly at the screen width |
| Terrain.PadCountIs | public/lander.js:249 | among the first n lines the pad occurs once if its index is within n, else not at all |
| Terrain.ExactlyOnePad | public/lander.js:239-256 | exactly one generated line is the pad, namely line padIndex-1; it is never the last line when there are two or more; it is level (both endpoints at the same height) |
| Terrain.PadHeight | public/lander.js:244-249 | the pad is level at the height where the previous line ends: the baseline when it is the first line |
| Terrain.TargetIsHalfASegment | public/lander.js:250-252 | the stored target is at x = width/(2*divisions), at the pad's height; it is the pad's midpoint when the pad is the first line and lies left of the pad otherwise |
| Terrain.HeightsWithinMountainRange | public/lander.js:240-248 | every end height lies between baseline - mountainHeight and the baseline |
| Flight.Step | public/lander.js:500-543 | one tick keeps the controller's attachment, and a held lander keeps its controller |
| Flight.FlyIgnoresHeld | public/lander.js:507-517 | releasing a lander and flying it in the same tick is the same as flying it from where it was held |
| Flight.Run | public/lander.js:500-543 | any number of ticks keeps the controller's attachment and the held-implies-attached invariant |
| Flight.Land | public/lander.js:487-495 | `land` clears the controller and stops the engine, and leaves position, velocity, angle, fuel and held unchanged |
| Flight.LandingNeedsEveryCondition | public/lander.js:487-495 | `land()` without a line fails; failing any one of pad, speed sum or tilt makes the landing fail; meeting all of them succeeds |
| Flight.ComponentSumMasksSpeed | public/lander.js:488-492 | with no tilt, `land` on a pad succeeds iff the velocity's component sum is under the limit, so a lander falling at any speed k lands while drifting left at 2k |
| Flight.HeldOrResolvedIsFrozen | public/lander.js:507-517 | a held lander without Down does not change; a lander without a controller does not change; Down releases a held lander |
| Flight.FlyingTick | public/lander.js:517-541 | a flying tick moves the position by the old velocity times delta; the engine fires iff Up is set and fuel != 0; a firing tick burns `(fuel-8)\|0`; otherwise velocity gains only gravity |
| Flight.TurnThenThrust | public/lander.js:523-538 | a flying tick turns one degree per turn signal while the fuel is non-zero, opposite signals cancelling, and a firing tick pushes along the angle reached after that turn |
| Flight.Delta | public/lander.js:502 | `gamespeed * (now - last) / 1000`; `Entities.Lander.Update` and `World.Visited` step the lander by it |
| Flight.Accel | public/lander.js:533-534 | `thrust * delta / (dryMass + fuel)`; `TurnThenThrust` states how a firing tick applies it |
| Flight.Drift | public/lander.js:519-522 | the position moves by the old velocity and gravity is added; stated in `FlyingTick`, and `Entities.Lander.Fly` is proved against it |
| Flight.Rotate | public/lander.js:523-530 | the fuel-gated turn; stated in `TurnThenThrust`, and `Entities.Lander.Turn` is proved against it |
| Flight.Fire | public/lander.js:531-541 | the fuel-gated engine; stated in `FlyingTick` and `TurnThenThrust`, and `Entities.Lander.FireEngine` is proved against it |
| Flight.Fly | public/lander.js:517-541 | the flying branch; `FlyingTick`, `TurnThenThrust` and `FlyIgnoresHeld` state it, and `Entities.Lander.Fly` is proved against it |
| Flight.LandingOk | public/lander.js:487-495 | the success test of `land`; `LandingNeedsEveryCondition` proves every condition is needed and together they suffice |
| Flight.NeverLaunched | public/lander.js:507-516 | a held lander that never sees Down is unchanged after any number of ticks |
| Flight.ResolvedStaysResolved | public/lander.js:487-517 | a lander whose controller was cleared is unchanged after any number of ticks |
| Flight.FuelStaysOnTheLadder | public/lander.js:531-538 | fuel that starts as a non-negative multiple of 8 stays a non-negative multiple of 8 and never grows |
| Flight.StepFuel | public/lander.js:531-541 | a tick either leaves the fuel alone or burns one step from non-zero fuel |
| Flight.UnevenFuelNeverRunsOut | public/lander.js:523-538 | fuel that is not a multiple of 8 keeps its remainder modulo 8 through every tick, even across 32-bit wrap-around, so it is never 0 and the engine never cuts out |
| Flight.ThrustBurnsEightPerTick | public/lander.js:531-538 | N thrusting flying ticks from at least 8*N fuel burn exactly 8*N fuel and leave the engine on |
| Entities.Text.constructor | public/lander.js:90-101 | a text gets an expiry only when it has a (non-zero) duration, namely now + duration |
| Entities.Circle.constructor | public/lander.js:103-124 | a burst gets an expiry only when it has a (non-zero) duration, namely now + duration |
| Entities.Lander.constructor | public/lander.js:372-405 | a new lander is at pos with zero velocity and angle, has the given fuel, is held with its engine off, has its controller attached, and has no expiry |
| Entities.Lander.Bounds | public/lander.js:480-482 | there are three bounds points: the left leg tip, the nose at (0, -size) and the right leg tip, each mapped by `toWorld`; the leg tips are mirror images, so their midpoint lies on the hull's axis at thirdW below the position |
| Entities.Lander.ToWorld | public/lander.js:474-477 | `toWorld` of the lander's current position and angle; `Bounds` states the three points through it |
| Entities.WorldPoint | public/lander.js:474-477 | rotation by the angle followed by a move to the position; `Entities.Lander.Bounds` and `World.Visited` use it through `BoundsAt` |
| Entities.BoundsAt | public/lander.js:480-482 | `getBounds` for a given size, position and angle; `Entities.Lander.Bounds` states its three points |
| Entities.ExpiredAt | public/lander.js:287 | `hasOwnProperty('expireAt') && now >= expireAt`; `World.Game.Visit` proves an entry is flagged exactly when it holds |
| Entities.Lander.Land | public/lander.js:487-495 | the result is the landing test on the velocity and angle before the call; the new state is `Flight.Land` of the old one |
| Entities.Lander.Update | public/lander.js:500-543 | the scripted hook toggles its drawn signal; the new state is `Flight.Step` of the old state with the controller's signals and delta = gamespeed*(now-last)/1000; `last` becomes now; Down on a held lander sets the intro's expiry to 0 |
| Entities.Lander.Fly | public/lander.js:517-541 | the flying block in place equals `Flight.Fly` of the old state |
| Entities.Lander.Turn | public/lander.js:523-530 | the rotation lines in place equal `Flight.Rotate` of the old state |
| Entities.Lander.FireEngine | public/lander.js:531-541 | the engine lines in place equal `Flight.Fire` of the old state |
| DisplayList.IndexOf | public/lander.js:352 | `indexOf` is -1 iff the entry is absent; otherwise it is a position holding the entry, with no earlier occurrence |
| DisplayList.RemoveFirst | public/lander.js:352-355 | removing an absent entry changes nothing; removing a present one shortens the list by one and removes exactly one occurrence from its multiset |
| DisplayList.Without | public/lander.js:349-357 | `delEntities` on a sequence; `DeletingPickedKeepsRest` proves that deleting the flagged entries leaves exactly the others, in order |
| DisplayList.Pick | public/lander.js:287-291 | the entries with a given flag, in order; `PickPartitions` and `PickContains` prove the two sides split the pass |
| DisplayList.Reversed | public/lander.js:339-342 | the draw order visits entry \|s\|-1-k at step k |
| DisplayList.RemoveFirstAfter | public/lander.js:352-355 | an entry not in the prefix is spliced out right after it |
| DisplayList.PickAppend | public/lander.js:279-290 | collecting over two stretches of the list is collecting over each in turn |
| DisplayList.PickPartitions | public/lander.js:287-291 | the entries to delete and the survivors together are exactly the pass (lengths and multisets add up) |
| DisplayList.PickOnlyFrom | public/lander.js:287-289 | collecting never adds an entry that was not visited |
| DisplayList.PickContains | public/lander.js:287-289 | every visited entry lands on the side its expiry flag names |
| DisplayList.PickAll | public/lander.js:287-289 | a stretch in which every entry has the same flag is collected whole onto that side |
| DisplayList.PickKeepsPrefix | public/lander.js:287-291 | survivors keep, in order, a prefix of the list in which nothing was flagged |
| DisplayList.DeletingPickedKeepsRest | public/lander.js:349-357 | deleting the flagged entries one by one with indexOf/splice leaves exactly the unflagged ones, in order, when each flagged entry occurs once |
| DisplayList.DeletingBefore | public/lander.js:349-357 | the same for a list with an untouched tail after the flagged stretch |
| Collision.SegmentHoldsPoint | public/lander.js:305-309 | for an on-screen x the index lies in 0..divisions-1 and names the slice whose x-span holds x |
| Collision.JustLeftMapsToFirst | public/lander.js:305-309 | a point less than one slice left of the screen is looked up in the first segment |
| Collision.OffscreenIsOutOfRange | public/lander.js:305-309 | a point right of the screen, or at least one slice left of it, gets an out-of-range index and is treated as off-screen |
| Collision.SegmentIndex | public/lander.js:305 | `((divisions * x) / width) \| 0`; `SegmentHoldsPoint`, `JustLeftMapsToFirst` and `OffscreenIsOutOfRange` state which segment it names |
| Collision.Resolves | public/lander.js:309-311 | out of range or on/below its segment; `FirstContact` stops at the first point for which it holds |
| Collision.FirstContact | public/lander.js:303-329 | the result is the first bounds point from `from` on that is out of range or on/below its segment; no earlier point resolves; None means none does |
| Collision.Judge | public/lander.js:311-323 | `land` with the line or without one decides the outcome; `LandedMeansOnThePad` states when it is a landing and when a crash |
| Collision.Contact | public/lander.js:305-324 | the outcome for one resolving point; `World.Game.ProbePoint` is proved against it |
| Collision.Resolution | public/lander.js:303-329 | the point that resolves a lander and its outcome; `ResolutionAt`, `LandedMeansOnThePad` and `NoContactNoResolution` state it |
| Collision.ResolutionAt | public/lander.js:303-329 | the walk stops at the first resolving point with that point's outcome, or passes the end with no resolution |
| Collision.LandedMeansOnThePad | public/lander.js:309-318 | a reported landing comes from a point on or below the pad, with speed sum and tilt under the limits; below a segment, a crash happens iff the landing test fails |
| Collision.NoContactNoResolution | public/lander.js:303-329 | a lander with no point touching ground or off-screen is not resolved |
| World.LineEntities | public/lander.js:253 | the terrain lines become display-list entries, one per line, in order |
| World.MessageFor | public/lander.js:312-323 | the three outcome messages; `World.Game.Collide` states which one is appended |
| World.Visited | public/lander.js:281-330 | one visit to a lander: `update` steps it, then `collide` resolves it at the bounds of the stepped lander unless it already expires; `VisitResolvesOnce` states its promises |
| World.VisitResolvesOnce | public/lander.js:281-330 | a visit always stamps the clock; an existing expiry is kept and the lander is only stepped; a new expiry comes with the controller cleared and the engine off, is no earlier than now, and is two seconds away exactly when the first resolving bounds point of the stepped lander lands it |
| World.Game.constructor | public/lander.js:160-190 | a new game has the default settings, a keyboard controller, the centre at (width/2, height/2), the target of the first scene and a display list holding exactly that scene |
| World.Game.BuildScene | public/lander.js:236-258 | appends the generated lines and then the centre point; the target becomes the generated target; the canvas is cleared iff display is not 'none' |
| World.Game.Reset | public/lander.js:231-234 | the display list becomes exactly the new scene |
| World.Game.NewGame | public/lander.js:192-208 | appends the "Press Down to start" message (expiring after 2 s) and then a held keyboard lander built from the settings whose intro is that message |
| World.Game.Deploy | public/lander.js:210-229 | appends `landers` fresh held landers built from the settings, each with its own fresh scripted controller, aiming at the stored target; the list before them is unchanged |
| World.Game.Message | public/lander.js:362-366 | appends a fresh text 20 below the centre that expires after 2 s, and returns it |
| World.Game.Collide | public/lander.js:297-330 | a lander with an expiry is skipped. Otherwise, if a bounds point resolves it, the first such point decides: the lander is landed (controller cleared, engine off); it expires in 2 s when landed and now otherwise; "Landed OK", "Crashed!" or "Offscreen!" is appended, followed by a burst at the point on a crash. With no resolving point nothing changes |
| World.Game.Scan | public/lander.js:303-329 | the walk over the bounds points ends with exactly the resolution of the first resolving point, or changes nothing |
| World.Game.ProbePoint | public/lander.js:304-324 | one point resolves the lander iff it is out of range or on/below its segment, with the outcome `Contact` names |
| World.Game.Settle | public/lander.js:310-326 | land with the line (or none), then the outcome's message and the crash burst; the expiry is 2 s away after a landing and `now` otherwise |
| World.Game.Announce | public/lander.js:312-316 | appends the outcome's message and, on a crash, a 500 ms burst of radius 5 to 50 at the point |
| World.Game.Update | public/lander.js:276-292 | the loop visits the whole list, including entries appended during the pass; every lander of the old list ends where `Visited` puts it (stepped from its old standing with the signals it read, then collided); the list ends as exactly the unflagged entries of the pass, in order; every flagged entry has expired and every non-text entry is flagged iff it has expired |
| World.Game.Sweep | public/lander.js:291 | deleting the collected entries leaves exactly the survivors of the pass, in order |
| World.Game.Walk | public/lander.js:279-290 | the walk only appends messages and bursts; toDelete holds the flagged entries in order; the flags match expiry; every lander of the old list ends where `Visited` puts it from its old standing with the signals it read |
| World.Game.Visit | public/lander.js:280-289 | an entry is flagged iff it has an expiry that now has reached; only a lander changes anything, other landers are untouched; a visited lander's hook toggles the drawn signal (scripted controllers only) and the lander ends where `Visited` puts it |
| World.Game.VisitLander | public/lander.js:281-286 | the lander is updated and then collided, touching no other lander: its controller's hook toggles the drawn signal when it is scripted, and its flight state, clock and expiry end as `Visited` of its old standing with those signals |
| World.Game.DelEntities | public/lander.js:349-357 | the list becomes the old list with each given entry's first occurrence removed in turn (absent entries are skipped) |
| World.Game.Draw | public/lander.js:335-344 | the canvas is cleared iff clearDraw, and the entries are drawn from the last to the first |
| World.LayTerrain | public/lander.js:239-256 | the terrain loop produces exactly `TerrainLines` and the target `Target` |
| World.PlainScene | public/lander.js:236-258 | a fresh scene starts with its lines and contains no lander and nothing that expires |
| World.AppendDistinct | public/lander.js:362-366 | appending a fresh object keeps every text, circle and lander listed once |
| World.DistinctApart | public/lander.js:352-354 | two positions never hold the same text, circle or lander, so `indexOf` finds the entry that was visited |
| World.OtherLanders | public/lander.js:279-286 | the lander being updated is listed at no other position |
| World.SurvivorsKeepListing | public/lander.js:287-291 | deleting the expired entries keeps the terrain prefix, keeps every object listed once, and adds nothing |
| World.KeptTerrain | public/lander.js:241-243 | the terrain lines never expire, so they stay at the head of the list |
| World.KeptFromPass | public/lander.js:287-291 | every survivor was in the pass |
| World.KeptDistinct | public/lander.js:287-291 | survivors are still listed once each |

## Left out

- Drawing, the canvas, colours, the flame and the level-of-detail modes, the
  settings panel and the animation loop are not modelled. `draw` is modelled
  only as its clear flag and its visiting order.
- Time is a parameter. `update` and `collide` both take the frame's single `now`.
  In `lander.js` they read the clock separately, so their readings may differ by
  a tick.
- Randomness is a parameter. The scripted controller of the lander at list
  position j consumes `rng[j]`, or 0.0 when the supply is shorter.
- The arguments `lander.js` passes to a controller's `update` hook are left out.
  The scripted controller ignores them.
- `Math.sin`, `Math.cos` and `Math.PI` are not modelled. `sin` and `cos` are a
  supplied `Trig` value, and one degree is the double constant.
- Doubles are reals. NaN, infinities and rounding are not modelled.
- `vectorFactory`'s `|| 0` only matters for NaN or missing values, so the model
  omits it.
- Flight.Accel: when dry mass plus fuel is exactly 0, the game divides by zero
  and gets an infinity. The model uses no acceleration instead.
- Entities.Lander.Update requires that a held lander still has its controller.
  Without one the game would throw when it reads `controller.Down`.
- World.Game.Collide requires `now > 0`. `collide` tests the expiry for
  truthiness, so at `now == 0` a crash would not stop the walk. The model also
  sets the lander's expiry before appending the messages, where `lander.js` sets
  it after them. The two writes touch different objects, so the final state is
  the same.
- World.Game.Update: the flags for texts are stated one way only. A flagged text
  has expired, but a text can be made to expire by a lander visited after it, so
  an unflagged text may have expired too. The freshness of the appended messages
  and bursts is stated in `Collide` and `Announce`, not in `Update`.
- World.Game.Update and World.Game.Collide are split into helper methods
  (`Walk`, `Advance`, `Visit`, `VisitLander`, `Sweep`, `Scan`, `ProbePoint`,
  `Settle`, `Announce`). Their bodies together are the loop bodies of `lander.js`.
- The game requires a positive canvas width. The number of divisions is assumed
  to stay as it was when the scene was built: `Valid` ties the terrain to
  `settings.divisions`, and changing it from the panel without a `reset` is not
  modelled.
- The `Point` centre marker is only a value, since it only draws.
- Flight.Fire, Entities.Lander.constructor and World.Settings: fuel is an
  integer, and `divisions` and `landers` are natural numbers. The panel's
  sliders have no step (lander.js:40, 44, 48), so they can set fractions, which
  the model does not cover:
  - Fractional fuel such as 0.5 is truthy, so the engine fires. The burn
    `(fuel - 8) | 0` then truncates it to -7, and it never reaches 0 again.
  - Fractional divisions such as 7.5 lay 7 lines. The test
    `segment < divisions` then accepts segment 7, the centre point, which has no
    `pointBelow`.
  - Fractional landers such as 2.5 deploy 3 landers.
- World.Game.Deploy: always gives each lander a new scripted random
  controller. The optional `Controller` argument of `Game` (lander.js:160, used
  at line 217) is not modelled. The game's only construction, `new Game()` at
  line 34, passes none.
- World.Game.Update and World.Game.Walk: the signals each lander read are a
  ghost sequence returned by the walk. That they are the old signals toggled by
  the controller's hook is stated per visit, in `VisitLander` and `Visit`.
  Landers may share a controller (every `new game` lander uses the keyboard
  controller), and the walk does not track which ones do.
- World.Visited describes a lander's flight state, clock and expiry. The intro
  message it releases and the messages and bursts `collide` appends are stated
  in `Entities.Lander.Update`, `Collide` and `Announce`.
