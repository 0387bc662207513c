/** The player's keyboard control in `Character`
    (rpg/src/components/Scene.jsx): a key press replaces the requested
    velocity, and every new request is sent to the physics body. */
module Controls {

  /** A requested velocity `[x, y, z]`; every constant involved is an
      integer, so `int` is exact. */
  datatype Velocity = Velocity(x: int, y: int, z: int)

  /** `useState([0, 0, 0])`. */
  const Stopped := Velocity(0, 0, 0)
  /** Horizontal speed set by the arrow keys. */
  const WalkSpeed := 3
  /** Vertical speed set by the space bar. */
  const JumpSpeed := 6

  predicate IsArrow(key: string)
  {
    key == "ArrowUp" || key == "ArrowDown" || key == "ArrowLeft" || key == "ArrowRight"
  }

  /** `handleKeyDown`: five independent `if`s, each of which may replace the
      copy of the current velocity; the jump test reads the velocity as it
      was before the key. Only the space bar, from rest, changes the
      vertical request; only an arrow changes the horizontal one, and it
      leaves exactly one horizontal axis moving. */
  function KeyDown(key: string, velocity: Velocity): (r: Velocity)
    ensures r.y == (if key == " " && velocity.y == 0 then JumpSpeed else velocity.y)
    ensures !IsArrow(key) ==> r.x == velocity.x && r.z == velocity.z
    ensures IsArrow(key) ==> (r.x == 0 <==> r.z != 0)
  {
    var v0 := Velocity(velocity.x, velocity.y, velocity.z);
    var v1 := if key == "ArrowUp" then Velocity(0, velocity.y, -WalkSpeed) else v0;
    var v2 := if key == "ArrowDown" then Velocity(0, velocity.y, WalkSpeed) else v1;
    var v3 := if key == "ArrowLeft" then Velocity(-WalkSpeed, velocity.y, 0) else v2;
    var v4 := if key == "ArrowRight" then Velocity(WalkSpeed, velocity.y, 0) else v3;
    var v5 := if key == " " && velocity.y == 0 then Velocity(velocity.x, JumpSpeed, velocity.z) else v4;
    v5
  }

  /** The requested velocity after the keys are pressed in order. */
  function Presses(velocity: Velocity, keys: seq<string>): (r: Velocity)
    decreases |keys|
  {
    if keys == [] then velocity else Presses(KeyDown(keys[0], velocity), keys[1..])
  }

  /** An arrow key moves along exactly one horizontal axis at speed 3 and
      keeps the vertical component: Up is z = -3, Down z = 3, Left x = -3,
      Right x = 3. */
  lemma ArrowKey(key: string, velocity: Velocity)
    requires IsArrow(key)
    ensures var r := KeyDown(key, velocity);
      r.y == velocity.y
      && (r.x == 0 <==> r.z != 0)
      && (r.x == 0 || r.x == WalkSpeed || r.x == -WalkSpeed)
      && (r.z == 0 || r.z == WalkSpeed || r.z == -WalkSpeed)
      && (key == "ArrowUp" ==> r.z == -WalkSpeed)
      && (key == "ArrowDown" ==> r.z == WalkSpeed)
      && (key == "ArrowLeft" ==> r.x == -WalkSpeed)
      && (key == "ArrowRight" ==> r.x == WalkSpeed)
  {
  }

  /** The space bar changes the request if and only if its vertical
      component is 0, and then only sets that component to 6. */
  lemma SpaceKey(velocity: Velocity)
    ensures KeyDown(" ", velocity) != velocity <==> velocity.y == 0
    ensures velocity.y == 0 ==> KeyDown(" ", velocity) == Velocity(velocity.x, JumpSpeed, velocity.z)
  {
  }

  /** Any other key leaves the request as it was. */
  lemma OtherKey(key: string, velocity: Velocity)
    requires !IsArrow(key) && key != " "
    ensures KeyDown(key, velocity) == velocity
  {
  }

  /** No key ever resets a non-zero vertical request: once the player has
      jumped, the request keeps y = 6 for good. */
  lemma {:induction false} JumpIsPermanent(velocity: Velocity, keys: seq<string>)
    requires velocity.y != 0
    ensures Presses(velocity, keys).y == velocity.y
    decreases |keys|
  {
    if keys != [] {
      JumpIsPermanent(KeyDown(keys[0], velocity), keys[1..]);
    }
  }

  /** Pressing one more key is one more `KeyDown` on the request so far. */
  lemma {:induction false} PressesLast(velocity: Velocity, keys: seq<string>, key: string)
    ensures Presses(velocity, keys + [key]) == KeyDown(key, Presses(velocity, keys))
    decreases |keys|
  {
    if keys == [] {
      assert keys + [key] == [key];
    } else {
      assert (keys + [key])[1..] == keys[1..] + [key];
      PressesLast(KeyDown(keys[0], velocity), keys[1..], key);
    }
  }

  /** From the initial request the vertical component is 6 exactly when the
      space bar has been pressed at least once, and 0 otherwise. */
  lemma {:induction false} VerticalRequest(velocity: Velocity, keys: seq<string>)
    requires velocity.y == 0 || velocity.y == JumpSpeed
    ensures var y := Presses(velocity, keys).y;
      (y == 0 || y == JumpSpeed)
      && (y == JumpSpeed <==> velocity.y == JumpSpeed || " " in keys)
    decreases |keys|
  {
    if keys != [] {
      VerticalRequest(KeyDown(keys[0], velocity), keys[1..]);
      assert " " in keys <==> keys[0] == " " || " " in keys[1..];
    }
  }

  /** Only the first space bar press of a session does anything: once one
      has been pressed, every later one leaves the request unchanged. */
  lemma OnlyFirstJump(earlier: seq<string>)
    requires " " in earlier
    ensures Presses(Stopped, earlier + [" "]) == Presses(Stopped, earlier)
  {
    PressesLast(Stopped, earlier, " ");
    VerticalRequest(Stopped, earlier);
  }

  /** From the initial request at most one horizontal component is
      non-zero, and it has magnitude 3. */
  lemma {:induction false} HorizontalRequest(velocity: Velocity, keys: seq<string>)
    requires velocity.x == 0 || velocity.z == 0
    requires velocity.x == 0 || velocity.x == WalkSpeed || velocity.x == -WalkSpeed
    requires velocity.z == 0 || velocity.z == WalkSpeed || velocity.z == -WalkSpeed
    ensures var r := Presses(velocity, keys);
      (r.x == 0 || r.z == 0)
      && (r.x == 0 || r.x == WalkSpeed || r.x == -WalkSpeed)
      && (r.z == 0 || r.z == WalkSpeed || r.z == -WalkSpeed)
    decreases |keys|
  {
    if keys != [] {
      HorizontalRequest(KeyDown(keys[0], velocity), keys[1..]);
    }
  }

  /** The player's requested velocity and what has been sent to its
      physics body. Every key press, even one `handleKeyDown` ignores,
      stores a fresh array with `setVelocity`, so the effect that calls
      `api.velocity.set(...velocity)` runs after each one. */
  class Character {
    var velocity: Velocity
    /** The arguments of every `api.velocity.set` call, oldest first. */
    var sent: seq<Velocity>

    ghost predicate Valid()
      reads this
    {
      && sent != []
      && sent[|sent| - 1] == velocity
      && (velocity.y == 0 || velocity.y == JumpSpeed)
      && (velocity.x == 0 || velocity.z == 0)
    }

    /** Mounting: the state starts at `[0, 0, 0]` and the effect sends it. */
    constructor ()
      ensures Valid() && velocity == Stopped && sent == [Stopped]
    {
      velocity := Stopped;
      sent := [Stopped];
    }

    /** A `keydown` event: the request is replaced and sent again. */
    method OnKeyDown(key: string)
      requires Valid()
      modifies this
      ensures Valid()
      ensures velocity == KeyDown(key, old(velocity))
      ensures sent == old(sent) + [velocity]
      ensures old(velocity).y != 0 ==> velocity.y == old(velocity).y
    {
      velocity := KeyDown(key, velocity);
      sent := sent + [velocity];
    }
  }
}
