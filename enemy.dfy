/** The two 100 ms timers of each `Enemy` (rpg/src/components/Scene.jsx):
    pursuit steering and the contact test. Positions are read from the
    physics world and are inputs here; distances are exact reals. */
module Enemy {

  datatype Option<T> = None | Some(value: T)

  datatype Vector3 = Vector3(x: real, y: real, z: real)

  /** Contact when the planar distance is strictly below this. */
  const ContactDistance: real := 0.6
  /** No steering while the planar distance is at most this. */
  const DeadZone: real := 0.1
  /** The speeds of the two enemies the scene mounts. */
  const DefaultSpeeds: seq<real> := [1.5, 2.0]

  /** `dx * dx + dz * dz` for `d = target - enemy`: the y axis plays no part. */
  function PlanarDistanceSquared(target: Vector3, enemy: Vector3): (d: real)
    ensures d >= 0.0
  {
    var dx := target.x - enemy.x;
    var dz := target.z - enemy.z;
    SquareNonNegative(dx);
    SquareNonNegative(dz);
    dx * dx + dz * dz
  }

  /** The contact test `Math.sqrt(dx * dx + dz * dz) < 0.6`, without sqrt.
      Bodies one above the other are in contact whatever their heights, and
      bodies in contact are less than 0.6 apart along each ground axis. */
  predicate Touching(target: Vector3, enemy: Vector3)
    ensures target.x == enemy.x && target.z == enemy.z ==> Touching(target, enemy)
    ensures Touching(target, enemy) ==>
      -ContactDistance < target.x - enemy.x < ContactDistance
      && -ContactDistance < target.z - enemy.z < ContactDistance
  {
    var d, bound := PlanarDistanceSquared(target, enemy), ContactDistance;
    PlanarBelow(target, enemy, bound);
    d < bound * bound
  }

  /** The steering test `length > 0.1`, without sqrt. */
  predicate OutsideDeadZone(target: Vector3, enemy: Vector3)
  {
    PlanarDistanceSquared(target, enemy) > DeadZone * DeadZone
  }

  /** The dead zone lies inside the contact range: an enemy that stops
      steering is always in contact, and one that steers is not directly
      above or below the player. */
  lemma DeadZoneInsideContact(target: Vector3, enemy: Vector3)
    ensures !OutsideDeadZone(target, enemy) ==> Touching(target, enemy)
    ensures OutsideDeadZone(target, enemy) ==> target.x != enemy.x || target.z != enemy.z
  {
  }

  /** What an enemy finds in `targetRef.current`: nothing before the player
      has rendered, afterwards the player's ref object, whose own `current`
      is the mounted mesh (with its position) or still empty. */
  datatype PlayerSlot = Unset | RefObject(current: Option<Vector3>)

  /** Reading the player's position for a tick. */
  datatype Read = NotReady | Fault | At(position: Vector3)

  /** The read as the enemy does it: `targetRef.current` is tested, then its
      `position` is taken. A ref object has no `position`, so that is
      undefined and the next `.x` throws. */
  function ReadPlayerAsWritten(slot: PlayerSlot): (r: Read)
    ensures !r.At?
    ensures r.Fault? <==> slot.RefObject?
  {
    match slot
    case Unset => NotReady
    case RefObject(_) => Fault
  }

  /** The read the timers evidently intend: through the ref object to the
      mesh, skipping the tick while either is still empty. */
  function ReadPlayer(slot: PlayerSlot): (r: Read)
    ensures !r.Fault?
    ensures r.At? <==> slot.RefObject? && slot.current.Some?
    ensures r.At? ==> r.position == slot.current.value
  {
    match slot
    case Unset => NotReady
    case RefObject(None) => NotReady
    case RefObject(Some(p)) => At(p)
  }

  /** How one timer callback ends: skipped by the readiness guard, stopped
      by an exception, or run to completion with a result. */
  datatype Outcome<T> = Skipped | Threw | Done(value: T)

  /** The contact timer: the guard `targetRef.current && ref.current`, then
      the distance test; `Done(true)` is a call of `onCollide`. */
  function ContactTick(player: Read, enemy: Option<Vector3>): (r: Outcome<bool>)
    ensures r.Skipped? <==> enemy.None? || player.NotReady?
    ensures r.Threw? <==> enemy.Some? && player.Fault?
    ensures r == Done(true) <==> player.At? && enemy.Some? && Touching(player.position, enemy.value)
  {
    if enemy.None? then Skipped
    else match player
      case NotReady => Skipped
      case Fault => Threw
      case At(p) => Done(Touching(p, enemy.value))
  }

  /** `velocity` is the planar offset from `enemy` to `target`, scaled by
      `speed / length`, with no vertical part. */
  predicate Toward(velocity: Vector3, target: Vector3, enemy: Vector3, speed: real, length: real)
  {
    && velocity.y == 0.0
    && velocity.x * length == (target.x - enemy.x) * speed
    && velocity.z * length == (target.z - enemy.z) * speed
  }

  /** The pursuit timer. `length` is the value `Math.sqrt` returns for this
      tick's planar offset. As in the source, the direction is a fresh
      three-element array normalised in place, and `Done(Some(v))` is the
      call `api.velocity.set(v)`. */
  method PursuitTick(player: Read, enemy: Option<Vector3>, speed: real, length: real)
    returns (r: Outcome<Option<Vector3>>)
    requires player.At? && enemy.Some? ==>
      length >= 0.0 && length * length == PlanarDistanceSquared(player.position, enemy.value)
    ensures r.Skipped? <==> enemy.None? || player.NotReady?
    ensures r.Threw? <==> enemy.Some? && player.Fault?
    ensures r.Done? && r.value.Some? <==>
      player.At? && enemy.Some? && OutsideDeadZone(player.position, enemy.value)
    ensures r.Done? && r.value.Some? ==>
      length > DeadZone && Toward(r.value.value, player.position, enemy.value, speed, length)
  {
    if enemy.None? || player.NotReady? {
      return Skipped;
    }
    if player.Fault? {
      return Threw;
    }
    var target, self := player.position, enemy.value;
    var direction := new real[3];
    direction[0], direction[1], direction[2] := target.x - self.x, 0.0, target.z - self.z;
    ghost var dx, dz := target.x - self.x, target.z - self.z;
    assert length > DeadZone <==> OutsideDeadZone(target, self) by {
      LengthAgainstSquare(length, DeadZone, PlanarDistanceSquared(target, self));
    }
    if length > DeadZone {
      direction[0] := direction[0] / length;
      direction[2] := direction[2] / length;
      var v := Vector3(direction[0] * speed, 0.0, direction[2] * speed);
      assert v.x * length == dx * speed && v.z * length == dz * speed by {
        DivideThenScale(dx, length, speed);
        DivideThenScale(dz, length, speed);
      }
      return Done(Some(v));
    }
    return Done(None);
  }

  /** What a pursuit command is: a horizontal velocity of length `speed`
      along the line to the player, pointing at the player when `speed` is
      not negative. */
  lemma PursuitVelocity(velocity: Vector3, target: Vector3, enemy: Vector3, speed: real, length: real)
    requires length > DeadZone && length * length == PlanarDistanceSquared(target, enemy)
    requires Toward(velocity, target, enemy, speed, length)
    ensures velocity.y == 0.0
    ensures velocity.x * velocity.x + velocity.z * velocity.z == speed * speed
    ensures velocity.x * (target.z - enemy.z) == velocity.z * (target.x - enemy.x)
    ensures speed >= 0.0 ==>
      velocity.x * (target.x - enemy.x) >= 0.0 && velocity.z * (target.z - enemy.z) >= 0.0
  {
    Steering(target.x - enemy.x, target.z - enemy.z, length, speed, velocity.x, velocity.z);
  }

  /** The contact test on squares agrees with the source's test on the
      square root: contact exactly when the planar distance is below 0.6. */
  lemma ContactIffCloser(target: Vector3, enemy: Vector3, distance: real)
    requires distance >= 0.0 && distance * distance == PlanarDistanceSquared(target, enemy)
    ensures ContactTick(At(target), Some(enemy)) == Done(distance < ContactDistance)
  {
    LengthAgainstSquare(distance, ContactDistance, PlanarDistanceSquared(target, enemy));
  }

  /** The dead-zone test on squares agrees with `length > 0.1`. */
  lemma DeadZoneIffLonger(target: Vector3, enemy: Vector3, length: real)
    requires length >= 0.0 && length * length == PlanarDistanceSquared(target, enemy)
    ensures OutsideDeadZone(target, enemy) <==> length > DeadZone
  {
    LengthAgainstSquare(length, DeadZone, PlanarDistanceSquared(target, enemy));
  }

  /** Contact fires exactly when both refs are ready and the bodies are
      closer than 0.6 in the ground plane; it never throws. */
  lemma ContactFires(slot: PlayerSlot, enemy: Option<Vector3>)
    ensures ContactTick(ReadPlayer(slot), enemy) == Done(true) <==>
      slot.RefObject? && slot.current.Some? && enemy.Some? && Touching(slot.current.value, enemy.value)
    ensures ContactTick(ReadPlayer(slot), enemy) != Threw
  {
  }

  /** With the player's position known (the intended read), the threshold
      is strict: planar distance exactly 0.6 is no contact, 0.59 is; and the
      height difference does not matter. */
  lemma ContactThreshold()
    ensures ContactTick(At(Vector3(0.6, 0.0, 0.0)), Some(Vector3(0.0, 0.0, 0.0))) == Done(false)
    ensures ContactTick(At(Vector3(0.0, 0.0, 0.59)), Some(Vector3(0.0, 5.0, 0.0))) == Done(true)
  {
  }

  /** As written, no contact is ever reported, whatever the positions. */
  lemma AsWrittenNeverTouches(slot: PlayerSlot, enemy: Option<Vector3>)
    ensures ContactTick(ReadPlayerAsWritten(slot), enemy) != Done(true)
  {
  }

  /** The input that shows it: player and enemy both mounted at the same
      place. The intended read reports contact; the read as written throws. */
  lemma AsWrittenMissesOverlap()
    ensures var slot, enemy := RefObject(Some(Vector3(0.0, 1.0, 0.0))), Some(Vector3(0.0, 1.0, 0.0));
      ContactTick(ReadPlayerAsWritten(slot), enemy) == Threw
      && ContactTick(ReadPlayer(slot), enemy) == Done(true)
  {
  }

  /** A velocity that is the planar offset `(dx, dz)` scaled by
      `speed / length`, where `length` is the offset's length, has length
      `speed`, is parallel to the offset and, for a non-negative speed,
      points the same way. */
  lemma Steering(dx: real, dz: real, length: real, speed: real, vx: real, vz: real)
    requires length > 0.0 && length * length == dx * dx + dz * dz
    requires vx * length == dx * speed && vz * length == dz * speed
    ensures vx * vx + vz * vz == speed * speed
    ensures vx * dz == vz * dx
    ensures speed >= 0.0 ==> vx * dx >= 0.0 && vz * dz >= 0.0
  {
    calc {
      (vx * vx + vz * vz) * (length * length);
      { ExpandScaled(vx, vz, length); }
      (vx * length) * (vx * length) + (vz * length) * (vz * length);
      { SumOfSquaresEq(vx * length, vz * length, dx * speed, dz * speed); }
      (dx * speed) * (dx * speed) + (dz * speed) * (dz * speed);
      { ExpandScaled(dx, dz, speed); }
      (dx * dx + dz * dz) * (speed * speed);
      { MulEq(dx * dx + dz * dz, length * length, speed * speed); }
      (length * length) * (speed * speed);
      (speed * speed) * (length * length);
    }
    CancelSquare(vx * vx + vz * vz, speed * speed, length);
    Parallel(dx, dz, length, speed, vx, vz);
    if speed >= 0.0 {
      SameWay(dx, length, speed, vx);
      SameWay(dz, length, speed, vz);
    }
  }

  /** With the player's position known (the intended read), both enemies
      of the scene, at speeds 1.5 and 2, are commanded at exactly their own
      speed and towards the player. */
  lemma DefaultPursuit(velocity: Vector3, target: Vector3, enemy: Vector3, speed: real, length: real)
    requires speed in DefaultSpeeds
    requires length > DeadZone && length * length == PlanarDistanceSquared(target, enemy)
    requires Toward(velocity, target, enemy, speed, length)
    ensures speed == 1.5 ==> velocity.x * velocity.x + velocity.z * velocity.z == 2.25
    ensures speed == 2.0 ==> velocity.x * velocity.x + velocity.z * velocity.z == 4.0
    ensures velocity.x * (target.x - enemy.x) >= 0.0 && velocity.z * (target.z - enemy.z) >= 0.0
  {
    PursuitVelocity(velocity, target, enemy, speed, length);
  }

  // Arithmetic helpers. Each step is its own lemma: the solver's nonlinear
  // real arithmetic only copes with a few products at a time.

  lemma SquareNonNegative(a: real)
    ensures a * a >= 0.0
  {
  }

  /** A number whose square is below `bound * bound` lies strictly between
      `-bound` and `bound`. */
  lemma SquareBelow(a: real, bound: real)
    requires bound > 0.0
    ensures a * a < bound * bound ==> -bound < a < bound
  {
    if a >= bound {
      var aa, ab, bb := a * a, a * bound, bound * bound;
      assert aa >= ab && ab >= bb;
    } else if a <= -bound {
      var aa, ab, bb := a * a, -a * bound, bound * bound;
      assert aa >= ab && ab >= bb;
    }
  }

  /** Bodies one above the other are at planar distance 0, and bodies less
      than `bound` apart in the plane are less than it apart on each axis. */
  lemma PlanarBelow(target: Vector3, enemy: Vector3, bound: real)
    requires bound > 0.0
    ensures target.x == enemy.x && target.z == enemy.z ==> PlanarDistanceSquared(target, enemy) == 0.0
    ensures PlanarDistanceSquared(target, enemy) < bound * bound ==>
      -bound < target.x - enemy.x < bound && -bound < target.z - enemy.z < bound
  {
    var dx, dz := target.x - enemy.x, target.z - enemy.z;
    var xx, zz, bb := dx * dx, dz * dz, bound * bound;
    assert PlanarDistanceSquared(target, enemy) == xx + zz;
    SquareNonNegative(dx);
    SquareNonNegative(dz);
    if xx + zz < bb {
      assert xx < bb && zz < bb;
      SquareBelow(dx, bound);
      SquareBelow(dz, bound);
    }
  }

  lemma SquarePositive(a: real)
    requires a > 0.0
    ensures a * a > 0.0
  {
  }

  /** `(d / length) * speed`, times `length`, is `d * speed`. */
  lemma DivideThenScale(d: real, length: real, speed: real)
    requires length > 0.0
    ensures (d / length * speed) * length == d * speed
  {
  }

  lemma ExpandScaled(a: real, b: real, k: real)
    ensures (a * a + b * b) * (k * k) == (a * k) * (a * k) + (b * k) * (b * k)
  {
  }

  lemma SumOfSquaresEq(p: real, q: real, p': real, q': real)
    requires p == p' && q == q'
    ensures p * p + q * q == p' * p' + q' * q'
  {
  }

  lemma MulEq(x: real, y: real, k: real)
    requires x == y
    ensures x * k == y * k
  {
  }

  lemma CancelSquare(p: real, r: real, l: real)
    requires p * (l * l) == r * (l * l) && l > 0.0
    ensures p == r
  {
    SquarePositive(l);
  }

  lemma Cancel(p: real, r: real, l: real)
    requires p * l == r * l && l > 0.0
    ensures p == r
  {
  }

  lemma Parallel(dx: real, dz: real, length: real, speed: real, vx: real, vz: real)
    requires length > 0.0 && vx * length == dx * speed && vz * length == dz * speed
    ensures vx * dz == vz * dx
  {
    calc {
      (vx * dz) * length;
      (vx * length) * dz;
      (dx * speed) * dz;
      (dz * speed) * dx;
      (vz * length) * dx;
      (vz * dx) * length;
    }
    Cancel(vx * dz, vz * dx, length);
  }

  lemma SameWay(d: real, length: real, speed: real, v: real)
    requires length > 0.0 && speed >= 0.0 && v * length == d * speed
    ensures v * d >= 0.0
  {
    calc {
      (v * d) * length;
      (v * length) * d;
      (d * speed) * d;
      (d * d) * speed;
    }
    SquareNonNegative(d);
    assert (d * d) * speed >= 0.0;
  }

  /** For non-negative `length` and `bound`, comparing lengths is comparing
      their squares. */
  lemma LengthAgainstSquare(length: real, bound: real, square: real)
    requires length >= 0.0 && bound >= 0.0 && length * length == square
    ensures length < bound <==> square < bound * bound
    ensures length > bound <==> square > bound * bound
  {
    var ll, lb, bb := length * length, length * bound, bound * bound;
    if length < bound {
      assert ll <= lb && lb < bb;
      assert square < bb;
    } else if length > bound {
      assert bb <= lb && lb < ll;
      assert square > bb;
    } else {
      assert square == bb;
    }
  }
}
