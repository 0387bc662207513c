/** The score kept by `Scene` (rpg/src/components/Scene.jsx): one integer,
    started at 0 and changed only through the updater functions that the
    scene hands to `setScore`. */
module Score {

  /** Points added each time the coin is clicked. */
  const CoinPoints := 10
  /** Points the player's one-second timer passes to `addScore`. */
  const SurvivalPoints := 1
  /** Points taken away per enemy contact, floored at zero. */
  const ContactPenalty := 20

  /** The three things that change the score. */
  datatype Event = Collect | SurvivalTick | Collide

  /** The contact updater `prev => Math.max(0, prev - 20)`: the least
      non-negative value that is not below `prev - 20`. */
  function Penalized(prev: int): (r: int)
    ensures r >= 0
    ensures r >= prev - ContactPenalty
    ensures r == 0 || r == prev - ContactPenalty
  {
    if 0 < prev - ContactPenalty then prev - ContactPenalty else 0
  }

  /** One transition of the score state machine. */
  function Step(score: int, e: Event): (r: int)
    ensures score >= 0 ==> r >= 0
    ensures e != Collide ==> r > score
    ensures e == Collide && score >= 0 ==> r <= score
  {
    match e
    case Collect => score + CoinPoints
    case SurvivalTick => score + SurvivalPoints
    case Collide => Penalized(score)
  }

  /** The score after the events, applied in order. */
  function Run(score: int, events: seq<Event>): (r: int)
    decreases |events|
  {
    if events == [] then score else Run(Step(score, events[0]), events[1..])
  }

  /** Events are applied in the order they happen: the score after them is
      the last event's updater applied to the score all the earlier ones
      left. */
  lemma {:induction false} RunLast(score: int, events: seq<Event>, e: Event)
    ensures Run(score, events + [e]) == Step(Run(score, events), e)
    decreases |events|
  {
    if events == [] {
      assert events + [e] == [e];
    } else {
      assert (events + [e])[1..] == events[1..] + [e];
      RunLast(Step(score, events[0]), events[1..], e);
    }
  }

  /** How many times `e` occurs in `events`. */
  function Count(events: seq<Event>, e: Event): (n: nat)
    ensures n <= |events|
    decreases |events|
  {
    if events == [] then 0
    else (if events[0] == e then 1 else 0) + Count(events[1..], e)
  }

  /** `n` ticks of the one-second survival timer. */
  function Ticks(n: nat): (ts: seq<Event>)
    ensures |ts| == n
    ensures forall i :: 0 <= i < n ==> ts[i] == SurvivalTick
  {
    seq(n, _ => SurvivalTick)
  }

  /** `n` enemy contacts in a row. */
  function Collisions(n: nat): (cs: seq<Event>)
    ensures |cs| == n
    ensures forall i :: 0 <= i < n ==> cs[i] == Collide
  {
    seq(n, _ => Collide)
  }

  /** The score never goes below zero, whatever happens from a
      non-negative start (in particular from the initial 0). */
  lemma {:induction false} RunNonNegative(score: int, events: seq<Event>)
    requires score >= 0
    ensures Run(score, events) >= 0
    decreases |events|
  {
    if events != [] {
      RunNonNegative(Step(score, events[0]), events[1..]);
    }
  }

  /** The score is never above what the coin clicks and survival ticks
      alone would give, and never more than 20 per contact below it. */
  lemma {:induction false} RunBounds(score: int, events: seq<Event>)
    requires score >= 0
    ensures Run(score, events)
            <= score + CoinPoints * Count(events, Collect) + SurvivalPoints * Count(events, SurvivalTick)
    ensures Run(score, events)
            >= score + CoinPoints * Count(events, Collect) + SurvivalPoints * Count(events, SurvivalTick)
               - ContactPenalty * Count(events, Collide)
    decreases |events|
  {
    if events != [] {
      RunBounds(Step(score, events[0]), events[1..]);
    }
  }

  /** Without contacts the score is exact: 10 per coin click and 1 per
      survival tick on top of where it started. */
  lemma {:induction false} RunWithoutContact(score: int, events: seq<Event>)
    requires Count(events, Collide) == 0
    ensures Run(score, events)
            == score + CoinPoints * Count(events, Collect) + SurvivalPoints * Count(events, SurvivalTick)
    decreases |events|
  {
    if events != [] {
      RunWithoutContact(Step(score, events[0]), events[1..]);
    }
  }

  /** With nothing but the survival timer running, the score after `n`
      of its ticks is `n` (five ticks give 5). */
  lemma SurvivalOnly(n: nat)
    ensures Run(0, Ticks(n)) == n
  {
    CountTicks(n);
    RunWithoutContact(0, Ticks(n));
  }

  lemma {:induction false} CountTicks(n: nat)
    ensures Count(Ticks(n), SurvivalTick) == n
    ensures Count(Ticks(n), Collect) == 0
    ensures Count(Ticks(n), Collide) == 0
  {
    if n > 0 {
      assert Ticks(n)[1..] == Ticks(n - 1);
      CountTicks(n - 1);
    }
  }

  /** `n` contacts in a row cost 20 each, but never take the score below
      zero: two contacts from 15 leave 0, two from 50 leave 10. */
  lemma {:induction false} RepeatedContact(score: int, n: nat)
    requires score >= 0
    ensures Run(score, Collisions(n))
            == if score >= ContactPenalty * n then score - ContactPenalty * n else 0
  {
    if n > 0 {
      assert Collisions(n)[1..] == Collisions(n - 1);
      RepeatedContact(Penalized(score), n - 1);
    }
  }

  /** The scene's score state: `useState(0)` and the three updaters. */
  class Scoreboard {
    var score: int

    ghost predicate Valid()
      reads this
    {
      score >= 0
    }

    /** `useState(0)`: every scene starts at zero. */
    constructor ()
      ensures Valid() && score == 0
    {
      score := 0;
    }

    /** The coin's `onCollect`: `prev => prev + 10`. */
    method Collect()
      requires Valid()
      modifies this
      ensures Valid() && score == old(score) + CoinPoints
      ensures score == Step(old(score), Event.Collect)
    {
      score := score + CoinPoints;
    }

    /** The player's `addScore`: `prev => prev + points`. */
    method AddScore(points: nat)
      requires Valid()
      modifies this
      ensures Valid() && score == old(score) + points
    {
      score := score + points;
    }

    /** The one-second survival timer: `addScore(1)`. */
    method SurvivalTick()
      requires Valid()
      modifies this
      ensures Valid() && score == old(score) + SurvivalPoints
      ensures score == Step(old(score), Event.SurvivalTick)
    {
      AddScore(SurvivalPoints);
    }

    /** `handleCollision`: `prev => Math.max(0, prev - 20)`. */
    method Collide()
      requires Valid()
      modifies this
      ensures Valid() && score == Penalized(old(score))
      ensures score == Step(old(score), Event.Collide)
    {
      score := Penalized(score);
    }
  }
}
