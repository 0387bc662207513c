/** One 100 ms round of the enemies' contact timers in `Scene`
    (rpg/src/components/Scene.jsx) and what it does to the score. Every
    enemy shares the one `handleCollision`, and every timer that sees
    contact calls it, so contacts on the same round add up. */
module Scene {
  import Score
  import Enemy

  /** The `onCollide` calls made by the contact timers of `enemies` on one
      round, in order, when the player is read as `player`. */
  function ContactEvents(player: Enemy.Read, enemies: seq<Enemy.Option<Enemy.Vector3>>): (events: seq<Score.Event>)
    ensures |events| <= |enemies|
    ensures forall i :: 0 <= i < |events| ==> events[i] == Score.Collide
    decreases |enemies|
  {
    if enemies == [] then []
    else
      (if Enemy.ContactTick(player, enemies[0]) == Enemy.Done(true) then [Score.Collide] else [])
      + ContactEvents(player, enemies[1..])
  }

  /** How many mounted enemies are in contact with a player at `p`. */
  function TouchingCount(p: Enemy.Vector3, enemies: seq<Enemy.Option<Enemy.Vector3>>): (n: nat)
    ensures n <= |enemies|
    decreases |enemies|
  {
    if enemies == [] then 0
    else
      (if enemies[0].Some? && Enemy.Touching(p, enemies[0].value) then 1 else 0)
      + TouchingCount(p, enemies[1..])
  }

  /** With the player's position known, a round emits one contact for each
      enemy that touches the player, and nothing else. */
  lemma {:induction false} ContactsOfRound(p: Enemy.Vector3, enemies: seq<Enemy.Option<Enemy.Vector3>>)
    ensures ContactEvents(Enemy.At(p), enemies) == Score.Collisions(TouchingCount(p, enemies))
    decreases |enemies|
  {
    if enemies != [] {
      ContactsOfRound(p, enemies[1..]);
      var n := TouchingCount(p, enemies[1..]);
      if enemies[0].Some? && Enemy.Touching(p, enemies[0].value) {
        assert [Score.Collide] + Score.Collisions(n) == Score.Collisions(n + 1);
      }
    }
  }

  /** A round costs 20 per touching enemy, floored at zero. */
  lemma RoundPenalty(score: int, p: Enemy.Vector3, enemies: seq<Enemy.Option<Enemy.Vector3>>)
    requires score >= 0
    ensures var n := TouchingCount(p, enemies);
      Score.Run(score, ContactEvents(Enemy.At(p), enemies))
      == if score >= Score.ContactPenalty * n then score - Score.ContactPenalty * n else 0
  {
    ContactsOfRound(p, enemies);
    Score.RepeatedContact(score, TouchingCount(p, enemies));
  }

  /** With the player's position known (the intended read), both enemies
      of the default scene touching the player on the same round take 40
      points, floored at zero. */
  lemma TwoEnemiesInContact(score: int, p: Enemy.Vector3, e1: Enemy.Vector3, e2: Enemy.Vector3)
    requires score >= 0
    requires Enemy.Touching(p, e1) && Enemy.Touching(p, e2)
    ensures Score.Run(score, ContactEvents(Enemy.At(p), [Enemy.Some(e1), Enemy.Some(e2)]))
            == if score >= 40 then score - 40 else 0
  {
    var enemies := [Enemy.Some(e1), Enemy.Some(e2)];
    assert enemies[1..][1..] == [];
    assert TouchingCount(p, enemies) == 2;
    RoundPenalty(score, p, enemies);
  }

  /** With the player's position known (the intended read), a player
      standing still at the origin with an enemy 0.5 away in the ground
      plane loses 20 points (floored at zero) on the next round. */
  lemma EnemyAtHalfUnit(score: int)
    requires score >= 0
    ensures Score.Run(score, ContactEvents(Enemy.At(Enemy.Vector3(0.0, 1.0, 0.0)), [Enemy.Some(Enemy.Vector3(0.3, 1.0, 0.4))]))
            == Score.Penalized(score)
  {
  }

  /** Without a readable player position no enemy reports contact. */
  lemma {:induction false} NoPositionNoContact(player: Enemy.Read, enemies: seq<Enemy.Option<Enemy.Vector3>>)
    requires !player.At?
    ensures ContactEvents(player, enemies) == []
    decreases |enemies|
  {
    if enemies != [] {
      NoPositionNoContact(player, enemies[1..]);
    }
  }

  /** As written, the enemy timers never change the score: every round
      either skips or throws before `onCollide`. */
  lemma AsWrittenRoundKeepsScore(score: int, slot: Enemy.PlayerSlot, enemies: seq<Enemy.Option<Enemy.Vector3>>)
    ensures Score.Run(score, ContactEvents(Enemy.ReadPlayerAsWritten(slot), enemies)) == score
  {
    NoPositionNoContact(Enemy.ReadPlayerAsWritten(slot), enemies);
  }
}
