# Arcade scene rules, modelled in Dafny

A model of the game rules in `rpg/src/components/Scene.jsx`. The file
describes a small 3D arcade scene. A blue sphere (the player) is steered
with the arrow keys and jumps with the space bar. Clicking a coin adds
points, and every second alive adds a point. Two red spheres (enemies)
are meant to chase the player. Each enemy runs two 100 ms timers: one is
meant to steer it towards the player and one to test for contact, and every
contact reported is meant to take 20 points, with the score never dropping
below zero. As the file is written, the player's position cannot be read
by these timers, so enemies neither steer nor report contact (see
"## Findings"); the model states both the code as written and the
intended behaviour.

The model has four modules, one per component of the file:

- `Score` (`score.dfy`) is the score state machine. `Penalized` is the
  contact updater handed to `setScore`; `Step` applies whichever of the
  three updaters (contact, survival tick, coin click) an event stands for,
  and `Run` applies a sequence of events in order. A `Scoreboard` class
  has one method per updater and updates its `score` field in place.
- `Controls` (`controls.dfy`) is the player's `handleKeyDown` as a pure
  function `KeyDown` on integer velocity triples. A `Character` class keeps
  the requested velocity and the list of velocities sent to the physics
  body.
- `Enemy` (`enemy.dfy`) holds the contact test and the steering decision
  over exact reals, compared on squared lengths. It also models how the
  player's position is read through `targetRef`. The pursuit timer is a
  method that normalises a fresh three-element array in place, as the
  source does. It takes the value of `Math.sqrt` as an input.
- `Scene` (`scene.dfy`) wires one 100 ms round of every enemy's contact
  timer to the score.

Things the code does that the model makes explicit:

- The jump test reads the *requested* velocity, and no key ever sets its
  vertical part back to 0. So only the first space bar press of a session
  changes the request. After it, every key press, arrow or not, sends y = 6 to
  the physics body again (`Controls.JumpIsPermanent`,
  `Controls.OnlyFirstJump`).
- Each key press stores a fresh array with `setVelocity`, so the effect at
  lines 116-118 runs after every press, even an ignored key. The model
  sends a velocity command for every key press.
- With the player's position read as intended (`Enemy.ReadPlayer`), the
  contact timer reports a contact on every round the player stays in
  contact, and contacts from both enemies add up in one model round
  (`Scene.TwoEnemiesInContact`; timer restarts: see "## Left out"). As
  written, no contact is ever reported (see "## Findings").
- The coin stays clickable after a click. Its `onClick` adds 10 every time,
  so the model allows any number of `Collect` events. It does not treat the
  coin as collectable only once.

## Model

| member | source | states |
|---|---|---|
| Score.Penalized | rpg/src/components/Scene.jsx:140-142 | A contact gives the least non-negative score not below `prev - 20`, so 15 becomes 0, not -5 |
| Score.Step | rpg/src/components/Scene.jsx:140-154 | A coin click or survival tick strictly raises the score; a contact never raises a non-negative score; no transition takes a non-negative score below zero |
| Score.RunLast | rpg/src/components/Scene.jsx:141-154 | `Score.Run`, the score after a sequence of events, is the last event's updater applied to the score left by all the earlier ones, as React applies queued updaters in order |
| Score.RunNonNegative | rpg/src/components/Scene.jsx:137-154 | From 0 (or any non-negative score), the score stays non-negative under any sequence of clicks, ticks and contacts |
| Score.RunBounds | rpg/src/components/Scene.jsx:140-154 | The score after any events is at most start + 10 per click + 1 per tick, and at least that minus 20 per contact |
| Score.RunWithoutContact | rpg/src/components/Scene.jsx:152-154 | With no contacts, the score is exactly start + 10 per coin click + 1 per survival tick |
| Score.SurvivalOnly | rpg/src/components/Scene.jsx:120-125 | With only the one-second timer running, the score after n ticks is n (5 after five ticks; the ticks are not exactly one second apart, see "## Left out") |
| Score.RepeatedContact | rpg/src/components/Scene.jsx:140-142 | n contacts in a row take 20 each, floored at zero as a whole |
| Score.Scoreboard.constructor | rpg/src/components/Scene.jsx:137 | The score starts at 0 and the invariant score >= 0 holds |
| Score.Scoreboard.Collect | rpg/src/components/Scene.jsx:154 | A coin click adds exactly 10 and keeps score >= 0 |
| Score.Scoreboard.AddScore | rpg/src/components/Scene.jsx:152 | `addScore(points)` adds exactly `points` and keeps score >= 0 |
| Score.Scoreboard.SurvivalTick | rpg/src/components/Scene.jsx:120-125 | The one-second timer adds exactly 1 and keeps score >= 0 |
| Score.Scoreboard.Collide | rpg/src/components/Scene.jsx:140-142 | A contact sets the score to max(0, score - 20) and keeps score >= 0 |
| Controls.KeyDown | rpg/src/components/Scene.jsx:103-111 | `handleKeyDown`: the vertical request becomes 6 only for the space bar from a vertical request of 0 and is otherwise kept; only an arrow key changes the horizontal request, and it leaves exactly one horizontal axis moving |
| Controls.PressesLast | rpg/src/components/Scene.jsx:103-114 | Key presses are applied in order: the request after one more key is `KeyDown` of that key on the request the earlier presses left (`Controls.Presses`), since each press re-registers the listener with the latest request |
| Controls.ArrowKey | rpg/src/components/Scene.jsx:105-108 | An arrow key gives exactly one non-zero horizontal component, of magnitude 3 (Up z=-3, Down z=3, Left x=-3, Right x=3), and keeps the vertical component |
| Controls.SpaceKey | rpg/src/components/Scene.jsx:109 | Space changes the request if and only if its vertical component is 0, and then only sets it to 6, keeping x and z |
| Controls.OtherKey | rpg/src/components/Scene.jsx:104-110 | Any key other than the four arrows and " " leaves the request unchanged |
| Controls.JumpIsPermanent | rpg/src/components/Scene.jsx:104-109 | Once the vertical request is non-zero, no sequence of keys changes it again |
| Controls.VerticalRequest | rpg/src/components/Scene.jsx:100-109 | From [0,0,0], the vertical request is 6 if and only if the space bar has been pressed, and 0 otherwise |
| Controls.OnlyFirstJump | rpg/src/components/Scene.jsx:109 | After one space bar press, every later space bar press leaves the request unchanged |
| Controls.HorizontalRequest | rpg/src/components/Scene.jsx:100-108 | From [0,0,0], at most one horizontal component is non-zero, and it is 3 or -3 |
| Controls.Character.constructor | rpg/src/components/Scene.jsx:100-118 | The request starts at [0,0,0] and the mount effect sends it to the body |
| Controls.Character.OnKeyDown | rpg/src/components/Scene.jsx:103-118 | Each key press replaces the request with `KeyDown` of the old one and sends the new request to the body; a non-zero vertical request is kept |
| Enemy.Touching | rpg/src/components/Scene.jsx:77-79 | The contact test on squared planar distance: bodies one above the other are in contact whatever their heights, and bodies in contact are less than 0.6 apart along each ground axis |
| Enemy.DeadZoneInsideContact | rpg/src/components/Scene.jsx:63-64 | The steering test `length > 0.1` (`Enemy.OutsideDeadZone`, on squared planar distance) against the contact test at line 79: an enemy inside the dead zone is always in contact, and one outside it is not directly above or below the player |
| Enemy.ReadPlayerAsWritten | rpg/src/components/Scene.jsx:53-54 | The player read as written (`targetRef.current.position` on the stored ref object, lines 54, 77 and 98) never yields a position: it waits while the slot is empty and faults as soon as the ref object is stored |
| Enemy.ContactTick | rpg/src/components/Scene.jsx:75-83 | The contact timer skips exactly when a ref is not ready, throws exactly on a faulty player read, and calls `onCollide` exactly when both positions are known and the bodies touch |
| Enemy.ReadPlayer | rpg/src/components/Scene.jsx:53-55 | The intended player read never faults; it yields a position exactly when the player's ref object holds a mounted mesh |
| Enemy.PursuitTick | rpg/src/components/Scene.jsx:52-69 | The tick skips when a ref is not ready, throws on a faulty read, and otherwise commands a velocity if and only if the planar distance exceeds 0.1; that velocity has y = 0 and is the offset scaled by speed / length |
| Enemy.PursuitVelocity | rpg/src/components/Scene.jsx:63-67 | A pursuit command is horizontal, has length `speed`, is parallel to the offset to the player, and for speed >= 0 points towards the player |
| Enemy.Steering | rpg/src/components/Scene.jsx:65-67 | Normalising the offset by its length and scaling by speed gives a vector of length speed, parallel to the offset and pointing the same way |
| Enemy.DefaultPursuit | rpg/src/components/Scene.jsx:155-156 | With the intended read, the two enemies mounted at speeds 1.5 and 2 are commanded at exactly that speed (squared 2.25 and 4), towards the player |
| Enemy.ContactIffCloser | rpg/src/components/Scene.jsx:77-79 | The squared-distance test agrees with `Math.sqrt(dx*dx + dz*dz) < 0.6` for every distance |
| Enemy.DeadZoneIffLonger | rpg/src/components/Scene.jsx:63-64 | The squared-distance test agrees with `length > 0.1` |
| Enemy.ContactFires | rpg/src/components/Scene.jsx:76-81 | Contact fires if and only if both refs are ready and the planar distance is below 0.6; the intended read never throws |
| Enemy.ContactThreshold | rpg/src/components/Scene.jsx:79 | With the intended read, planar distance exactly 0.6 gives no contact; 0.59 does, whatever the heights |
| Enemy.AsWrittenNeverTouches | rpg/src/components/Scene.jsx:76-81 | With the player read as written, no contact is ever reported |
| Enemy.AsWrittenMissesOverlap | rpg/src/components/Scene.jsx:98 | Player and enemy mounted at the same point: the read as written throws, while the intended read reports contact |
| Scene.ContactEvents | rpg/src/components/Scene.jsx:155-156 | One round of the contact timers at lines 75-83 of every enemy, all wired to `handleCollision`: it emits only contacts, at most one per enemy |
| Scene.ContactsOfRound | rpg/src/components/Scene.jsx:155-156 | A round emits exactly one contact for each enemy touching the player |
| Scene.RoundPenalty | rpg/src/components/Scene.jsx:140-156 | A round costs 20 per touching enemy, floored at zero |
| Scene.TwoEnemiesInContact | rpg/src/components/Scene.jsx:155-156 | With the intended read, two enemies touching on the same round take 40, floored at zero |
| Scene.EnemyAtHalfUnit | rpg/src/components/Scene.jsx:75-82 | With the intended read, a still player with an enemy 0.5 away loses 20, floored at zero, on the next round |
| Scene.NoPositionNoContact | rpg/src/components/Scene.jsx:76 | A round without a readable player position emits no contact |
| Scene.AsWrittenRoundKeepsScore | rpg/src/components/Scene.jsx:98 | As written, a round of enemy timers never changes the score |

## Left out

- Rendering and UI are not modelled: `ScoreBoard`, `Ground`, `Obstacle`, the coin mesh, `Canvas`, the lights and `OrbitControls`. They draw things and hold no rules. The coin's only effect is the +10 transition.
- The physics engine is not modelled: `usePlane`, `useSphere`, `useBox`, position integration, gravity and `api.velocity.set`. It is a foreign library. Positions are inputs, and a velocity command is a returned value (`Enemy.PursuitTick`) or a list entry (`Controls.Character.sent`).
- `Math.sqrt` is replaced by an input. `Enemy.PursuitTick` receives the planar length as the parameter `length`, and its precondition ties it to the squared distance.
- Floating-point rounding is not modelled. Distances are exact reals, and the tests compare squared lengths against 0.36 and 0.01. This is an idealisation of the IEEE doubles the code uses.
- Timer scheduling is not modelled: `setInterval`/`clearInterval` at 100 ms and 1000 ms, listener registration and cleanup, and React's effect and dependency rules. One timer firing is one call. The lag between physics integration and the timers that read positions is outside the model. In particular, `handleCollision` (line 140) and the `addScore` arrow (line 152) are new functions on every render, and every score change renders again; that restarts each enemy's contact timer (dependencies at line 85) and the survival timer (dependencies at line 125). Each survival tick is itself a score change, so the one-second interval restarts after every tick and tick k fires somewhat later than k seconds after mounting; frequent clicks or contacts can hold off survival ticks further, and a second enemy's contact in the same 100 ms window can be deferred to a later one. The model's round, in which every contact timer fires once, and its one-second tick do not capture this.
- Controls.Character.OnKeyDown: assumes React re-renders between two key presses, so each press reads the latest request. Two presses handled before a re-render would both read the older request.
- Score.Scoreboard.AddScore: takes `points` as a natural number, because its only caller passes 1. The source's `addScore` accepts any number.
- Enemy.PursuitTick: states the commanded velocity relative to the `length` it is given. Its length and direction are proved separately in `Enemy.PursuitVelocity`.
- `rpg/src/components/PontosBrilhantes.jsx` is not part of this model. It only places decorative particles at random.

## Findings

| source | as written | input that shows it | evidently intended | confidence | as-written member | corrected member |
|---|---|---|---|---|---|---|
| rpg/src/components/Scene.jsx:98 | `playerRef.current = ref` stores the player's ref object, not its mesh. The enemy timers then read `targetRef.current.position` (lines 54 and 77). A ref object has no `position`, so reading `.x` of `undefined` throws on every tick after the guard passes. Enemies never steer and never report contact. | Player and enemy both mounted at the same point: the read as written throws instead of reporting contact (`Enemy.AsWrittenMissesOverlap`); no round ever changes the score (`Scene.AsWrittenRoundKeepsScore`) | The timers read the mesh through the ref (`targetRef.current.current.position`) and skip the tick while it is not mounted | high, assuming `useSphere` returns a ref object whose only field is `current`; not executed | Enemy.AsWrittenMissesOverlap | Enemy.ReadPlayer |
