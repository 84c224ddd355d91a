/**
 * The agents of entities.py and their per-tick behaviour rules.
 *
 * Agents are values: a behaviour method takes an agent and returns the
 * updated one, together with what the source hands to its caller (the
 * grass or herbivore it killed, the feces it appended to the shared list,
 * the offspring it returned). Random draws are parameters, and the
 * square-root normalisation of a step is the abstract function `norm`.
 * An index entry names an agent by its position in the list the index was
 * built from; the liveness of that list is passed as a list of flags.
 */
module Entities {
  import opened Wrappers
  import opened Config
  import opened Geometry
  import opened QuadTree

  /** What every Entity has: a position and an alive flag. Grass and Feces are exactly this. */
  datatype Body = Body(x: real, y: real, alive: bool)

  datatype Herbivore = Herbivore(body: Body, direction: Vec, grassEaten: nat)

  /** `target` is the index of the chased herbivore in the current herbivore list. */
  datatype Predator = Predator(
    body: Body, direction: Vec, hunger: int, eatingTimer: nat, fecesTimer: nat, target: Option<nat>)

  /** The draws one newborn consumes: its offset from the parent, then the candidates of its direction loop. */
  datatype Birth = Birth(jitter: Vec, directionDraws: seq<Vec>)

  // ---------------------------------------------------------------------
  // Direction sampling in the constructors
  // ---------------------------------------------------------------------

  /** The constructors accept a direction once one of its components exceeds 0.2 in magnitude. */
  predicate NonDegenerate(d: Vec) {
    Abs(d.x) > 0.2 || Abs(d.y) > 0.2
  }

  /** The rejection loop terminates on these draws. */
  predicate CanSample(draws: seq<Vec>) {
    exists i :: 0 <= i < |draws| && NonDegenerate(draws[i])
  }

  lemma CanSampleTail(draws: seq<Vec>)
    requires CanSample(draws) && !NonDegenerate(draws[0])
    ensures CanSample(draws[1..])
  {
    var i :| 0 <= i < |draws| && NonDegenerate(draws[i]);
    assert draws[1..][i - 1] == draws[i];
  }

  /** The direction the rejection loop settles on: the first acceptable draw. */
  function FirstNonDegenerate(draws: seq<Vec>): (d: Vec)
    requires CanSample(draws)
    ensures NonDegenerate(d) && d in draws
  {
    if NonDegenerate(draws[0]) then draws[0]
    else
      CanSampleTail(draws);
      FirstNonDegenerate(draws[1..])
  }

  method SampleDirection(draws: seq<Vec>) returns (d: Vec)
    requires CanSample(draws)
    ensures d == FirstNonDegenerate(draws)
    ensures NonDegenerate(d)
  {
    var i := 0;
    while !NonDegenerate(draws[i])
      invariant 0 <= i < |draws| && CanSample(draws[i..])
      invariant FirstNonDegenerate(draws[i..]) == FirstNonDegenerate(draws)
      decreases |draws| - i
    {
      CanSampleTail(draws[i..]);
      assert draws[i..][1..] == draws[i + 1..];
      i := i + 1;
    }
    d := draws[i];
  }

  function NewbornHerbivore(x: real, y: real, draws: seq<Vec>): Herbivore
    requires CanSample(draws)
  {
    Herbivore(Body(x, y, true), FirstNonDegenerate(draws), 0)
  }

  function NewbornPredator(x: real, y: real, draws: seq<Vec>): Predator
    requires CanSample(draws)
  {
    Predator(Body(x, y, true), FirstNonDegenerate(draws), PREDATOR_HUNGER_MAX, 0, 0, None)
  }

  /** `Herbivore(x, y)`: alive, nothing eaten, a non-degenerate direction. */
  method NewHerbivore(x: real, y: real, draws: seq<Vec>) returns (h: Herbivore)
    requires CanSample(draws)
    ensures h == NewbornHerbivore(x, y, draws)
    ensures h.body == Body(x, y, true) && h.grassEaten == 0 && NonDegenerate(h.direction)
  {
    var d := SampleDirection(draws);
    h := Herbivore(Body(x, y, true), d, 0);
  }

  /** `Predator(x, y)`: alive, full hunger, idle timers, no target, a non-degenerate direction. */
  method NewPredator(x: real, y: real, draws: seq<Vec>) returns (p: Predator)
    requires CanSample(draws)
    ensures p == NewbornPredator(x, y, draws)
    ensures p.body == Body(x, y, true) && p.hunger == PREDATOR_HUNGER_MAX && NonDegenerate(p.direction)
    ensures p.eatingTimer == 0 && p.fecesTimer == 0 && p.target.None?
  {
    var d := SampleDirection(draws);
    p := Predator(Body(x, y, true), d, PREDATOR_HUNGER_MAX, 0, 0, None);
  }

  /** `count` newborns can be drawn from these births. */
  predicate BirthsReady(births: seq<Birth>, count: nat) {
    |births| == count && forall i :: 0 <= i < |births| ==> CanSample(births[i].directionDraws)
  }

  /** The births lie within the jitter the source draws offsets from. */
  predicate JitterBounded(births: seq<Birth>) {
    forall i :: 0 <= i < |births| ==> Abs(births[i].jitter.x) <= JITTER && Abs(births[i].jitter.y) <= JITTER
  }

  /** Newborn herbivores placed at the parent's position plus each birth's offset (not clamped). */
  function HerbivoreLitter(x: real, y: real, births: seq<Birth>): seq<Herbivore>
    requires forall i :: 0 <= i < |births| ==> CanSample(births[i].directionDraws)
  {
    seq(|births|, i requires 0 <= i < |births| =>
      NewbornHerbivore(x + births[i].jitter.x, y + births[i].jitter.y, births[i].directionDraws))
  }

  function PredatorLitter(x: real, y: real, births: seq<Birth>): seq<Predator>
    requires forall i :: 0 <= i < |births| ==> CanSample(births[i].directionDraws)
  {
    seq(|births|, i requires 0 <= i < |births| =>
      NewbornPredator(x + births[i].jitter.x, y + births[i].jitter.y, births[i].directionDraws))
  }

  /** The list comprehension of `Herbivore.eat`. */
  method SpawnHerbivores(x: real, y: real, births: seq<Birth>) returns (kids: seq<Herbivore>)
    requires forall i :: 0 <= i < |births| ==> CanSample(births[i].directionDraws)
    ensures kids == HerbivoreLitter(x, y, births)
  {
    kids := [];
    var i := 0;
    while i < |births|
      invariant 0 <= i <= |births| && |kids| == i
      invariant forall j :: 0 <= j < i ==> kids[j] == HerbivoreLitter(x, y, births)[j]
    {
      var kid := NewHerbivore(x + births[i].jitter.x, y + births[i].jitter.y, births[i].directionDraws);
      kids := kids + [kid];
      i := i + 1;
    }
  }

  /** The list comprehension of `Predator.eat`. */
  method SpawnPredators(x: real, y: real, births: seq<Birth>) returns (kids: seq<Predator>)
    requires forall i :: 0 <= i < |births| ==> CanSample(births[i].directionDraws)
    ensures kids == PredatorLitter(x, y, births)
  {
    kids := [];
    var i := 0;
    while i < |births|
      invariant 0 <= i <= |births| && |kids| == i
      invariant forall j :: 0 <= j < i ==> kids[j] == PredatorLitter(x, y, births)[j]
    {
      var kid := NewPredator(x + births[i].jitter.x, y + births[i].jitter.y, births[i].directionDraws);
      kids := kids + [kid];
      i := i + 1;
    }
  }

  /** Every newborn of a litter is alive, within the jitter of the parent, with fresh counters. */
  lemma LitterNearParent(x: real, y: real, births: seq<Birth>)
    requires forall i :: 0 <= i < |births| ==> CanSample(births[i].directionDraws)
    requires JitterBounded(births)
    ensures forall k :: 0 <= k < |births| ==>
      var h := HerbivoreLitter(x, y, births)[k];
      h.body.alive && h.grassEaten == 0 && NonDegenerate(h.direction) &&
      Abs(h.body.x - x) <= JITTER && Abs(h.body.y - y) <= JITTER
    ensures forall k :: 0 <= k < |births| ==>
      var p := PredatorLitter(x, y, births)[k];
      p.body.alive && p.hunger == PREDATOR_HUNGER_MAX && p.eatingTimer == 0 && p.fecesTimer == 0 &&
      p.target.None? && Abs(p.body.x - x) <= JITTER && Abs(p.body.y - y) <= JITTER
  {
  }

  // ---------------------------------------------------------------------
  // Choosing the nearest live entity of a query result
  // ---------------------------------------------------------------------

  function Dist(found: seq<Entry>, i: nat, px: real, py: real): real
    requires i < |found|
  {
    DistSq(px, py, found[i].x, found[i].y)
  }

  /**
   * The scan of `move` over found[..n]: the index of the live entry with the
   * smallest distance, keeping the earlier one on a tie (`dist < min_dist`).
   */
  function Nearest(found: seq<Entry>, live: seq<bool>, px: real, py: real, n: nat): (k: Option<nat>)
    requires n <= |found|
    ensures k.Some? ==> k.value < n
  {
    if n == 0 then None
    else
      var best := Nearest(found, live, px, py, n - 1);
      if Alive(live, found[n - 1].id) &&
         (best.None? || Dist(found, n - 1, px, py) < Dist(found, best.value, px, py))
      then Some(n - 1)
      else best
  }

  /** The scan finds a live entry iff there is one, at minimum distance, and the first of those. */
  lemma {:induction false} NearestIsFirstClosest(found: seq<Entry>, live: seq<bool>, px: real, py: real, n: nat)
    requires n <= |found|
    ensures Nearest(found, live, px, py, n).None? <==> forall i :: 0 <= i < n ==> !Alive(live, found[i].id)
    ensures Nearest(found, live, px, py, n).Some? ==>
      var k := Nearest(found, live, px, py, n).value;
      Alive(live, found[k].id) &&
      (forall i :: 0 <= i < n && Alive(live, found[i].id) ==> Dist(found, k, px, py) <= Dist(found, i, px, py)) &&
      (forall i :: 0 <= i < k && Alive(live, found[i].id) ==> Dist(found, k, px, py) < Dist(found, i, px, py))
  {
    if n > 0 {
      NearestIsFirstClosest(found, live, px, py, n - 1);
    }
  }

  /** The scan of `Herbivore.eat`: the first live entry of found[i..]. */
  function FirstLive(found: seq<Entry>, live: seq<bool>, i: nat): (k: Option<nat>)
    requires i <= |found|
    ensures k.Some? ==> i <= k.value < |found| && Alive(live, found[k.value].id)
    ensures k.Some? ==> forall j :: i <= j < k.value ==> !Alive(live, found[j].id)
    ensures k.None? ==> forall j :: i <= j < |found| ==> !Alive(live, found[j].id)
    decreases |found| - i
  {
    if i == |found| then None
    else if Alive(live, found[i].id) then Some(i)
    else FirstLive(found, live, i + 1)
  }

  /** `self.target in nearby`: the list holds the entry of that agent. */
  predicate Mentions(found: seq<Entry>, id: nat) {
    exists i :: 0 <= i < |found| && found[i].id == id
  }

  // ---------------------------------------------------------------------
  // Herbivore
  // ---------------------------------------------------------------------

  /** max(0, min(v, FIELD_WIDTH - size)) and its vertical twin. */
  function OnFieldX(v: real, size: real): real { ClampTo(v, 0.0, FIELD_WIDTH - size) }
  function OnFieldY(v: real, size: real): real { ClampTo(v, 0.0, FIELD_HEIGHT - size) }

  /** The position of an agent of the given size after `move` clamps it. */
  predicate ClampedOnField(b: Body, size: real) {
    0.0 <= b.x <= FIELD_WIDTH - size && 0.0 <= b.y <= FIELD_HEIGHT - size
  }

  /**
   * `Herbivore.move`: step toward the nearest live grass within vision at the
   * seeking speed, or else along the wander direction at the base speed and
   * take `redirect` as the next direction; then clamp to the field.
   */
  function HerbivoreMoved(h: Herbivore, grass: Tree, live: seq<bool>, norm: Vec -> Vec, redirect: Vec): (m: Herbivore)
    ensures m.body.alive == h.body.alive && m.grassEaten == h.grassEaten
  {
    HerbivoreSteered(h, Query(grass, live, h.body.x, h.body.y, HERBIVORE_VISION), live, norm, redirect)
  }

  /** The move of `Herbivore.move` once the grass within vision is `found`. */
  function HerbivoreSteered(h: Herbivore, found: seq<Entry>, live: seq<bool>, norm: Vec -> Vec, redirect: Vec): (m: Herbivore)
    ensures m.body.alive == h.body.alive && m.grassEaten == h.grassEaten
  {
    var x, y := h.body.x, h.body.y;
    match Nearest(found, live, x, y, |found|)
    case Some(k) =>
      var d := norm(Vec(found[k].x - x, found[k].y - y));
      var nx, ny := x + d.x * HERBIVORE_SPEED_TO_GRASS, y + d.y * HERBIVORE_SPEED_TO_GRASS;
      h.(body := h.body.(x := OnFieldX(nx, HERBIVORE_SIZE), y := OnFieldY(ny, HERBIVORE_SIZE)))
    case None =>
      var d := norm(h.direction);
      var nx, ny := x + d.x * HERBIVORE_SPEED, y + d.y * HERBIVORE_SPEED;
      h.(body := h.body.(x := OnFieldX(nx, HERBIVORE_SIZE), y := OnFieldY(ny, HERBIVORE_SIZE)),
         direction := redirect)
  }

  method MoveHerbivore(h: Herbivore, grass: Tree, live: seq<bool>, norm: Vec -> Vec, redirect: Vec)
    returns (moved: Herbivore)
    ensures moved == HerbivoreMoved(h, grass, live, norm, redirect)
    ensures ClampedOnField(moved.body, HERBIVORE_SIZE)
  {
    var x, y := h.body.x, h.body.y;
    var found := Query(grass, live, x, y, HERBIVORE_VISION);
    var nearest: Option<nat> := None;
    var i := 0;
    while i < |found|
      invariant 0 <= i <= |found|
      invariant nearest == Nearest(found, live, x, y, i)
    {
      if Alive(live, found[i].id) {
        if nearest.None? || Dist(found, i, x, y) < Dist(found, nearest.value, x, y) {
          nearest := Some(i);
        }
      }
      i := i + 1;
    }
    var nx, ny;
    moved := h;
    if nearest.Some? {
      var d := norm(Vec(found[nearest.value].x - x, found[nearest.value].y - y));
      nx, ny := x + d.x * HERBIVORE_SPEED_TO_GRASS, y + d.y * HERBIVORE_SPEED_TO_GRASS;
    } else {
      var d := norm(h.direction);
      nx, ny := x + d.x * HERBIVORE_SPEED, y + d.y * HERBIVORE_SPEED;
      moved := moved.(direction := redirect);
    }
    moved := moved.(body := moved.body.(x := OnFieldX(nx, HERBIVORE_SIZE), y := OnFieldY(ny, HERBIVORE_SIZE)));
  }

  /**
   * `Herbivore.move` with no live grass in sight: the herbivore steps along
   * its direction at the base speed, takes `redirect` as its next direction
   * and ends on the field, alive as before and with its count unchanged.
   */
  lemma HerbivoreWanders(h: Herbivore, found: seq<Entry>, live: seq<bool>, norm: Vec -> Vec, redirect: Vec)
    requires forall j :: 0 <= j < |found| ==> !Alive(live, found[j].id)
    ensures
      var m := HerbivoreSteered(h, found, live, norm, redirect);
      ClampedOnField(m.body, HERBIVORE_SIZE) && m.body.alive == h.body.alive && m.grassEaten == h.grassEaten &&
      m.direction == redirect &&
      m.body.x == OnFieldX(h.body.x + norm(h.direction).x * HERBIVORE_SPEED, HERBIVORE_SIZE) &&
      m.body.y == OnFieldY(h.body.y + norm(h.direction).y * HERBIVORE_SPEED, HERBIVORE_SIZE)
  {
    NearestIsFirstClosest(found, live, h.body.x, h.body.y, |found|);
    assert Nearest(found, live, h.body.x, h.body.y, |found|).None?;
    var nx := h.body.x + norm(h.direction).x * HERBIVORE_SPEED;
    var ny := h.body.y + norm(h.direction).y * HERBIVORE_SPEED;
    assert HerbivoreSteered(h, found, live, norm, redirect) ==
      h.(body := h.body.(x := OnFieldX(nx, HERBIVORE_SIZE), y := OnFieldY(ny, HERBIVORE_SIZE)), direction := redirect);
  }

  /**
   * `Herbivore.move` toward the grass the nearest-target scan picked
   * (`NearestIsFirstClosest` says which one that is): the herbivore keeps
   * its direction, steps toward that live grass at the seeking speed and
   * ends on the field, alive as before and with its count unchanged.
   */
  lemma HerbivoreSeeksGrass(h: Herbivore, found: seq<Entry>, live: seq<bool>, norm: Vec -> Vec, redirect: Vec, k: nat)
    requires Nearest(found, live, h.body.x, h.body.y, |found|) == Some(k)
    ensures
      var m := HerbivoreSteered(h, found, live, norm, redirect);
      var x, y := h.body.x, h.body.y;
      k < |found| &&
      ClampedOnField(m.body, HERBIVORE_SIZE) && m.body.alive == h.body.alive && m.grassEaten == h.grassEaten &&
      m.direction == h.direction &&
      m.body.x == OnFieldX(x + norm(Vec(found[k].x - x, found[k].y - y)).x * HERBIVORE_SPEED_TO_GRASS, HERBIVORE_SIZE) &&
      m.body.y == OnFieldY(y + norm(Vec(found[k].x - x, found[k].y - y)).y * HERBIVORE_SPEED_TO_GRASS, HERBIVORE_SIZE)
  {
    var d := norm(Vec(found[k].x - h.body.x, found[k].y - h.body.y));
    var nx := h.body.x + d.x * HERBIVORE_SPEED_TO_GRASS;
    var ny := h.body.y + d.y * HERBIVORE_SPEED_TO_GRASS;
    var m := HerbivoreSteered(h, found, live, norm, redirect);
    assert m.direction == h.direction && m.grassEaten == h.grassEaten;
    assert m.body == h.body.(x := OnFieldX(nx, HERBIVORE_SIZE), y := OnFieldY(ny, HERBIVORE_SIZE));
  }

  /** What `Herbivore.eat` reports: the agent, the grass it killed, the feces it appended and its offspring. */
  datatype Meal = Meal(herbivore: Herbivore, eaten: Option<nat>, dropping: Option<Body>, offspring: seq<Herbivore>)

  /**
   * `Herbivore.eat`: kill the first live grass within the herbivore's own
   * size and count it; on reaching the threshold, reset the counter, drop
   * feces at the herbivore's position and bear a litter.
   */
  function HerbivoreFed(h: Herbivore, grass: Tree, live: seq<bool>, births: seq<Birth>): (meal: Meal)
    requires BirthsReady(births, HERBIVORE_REPRODUCTION_COUNT)
    ensures meal.herbivore.body == h.body && meal.herbivore.direction == h.direction
    ensures meal.eaten.None? ==> meal == Meal(h, None, None, [])
  {
    var x, y := h.body.x, h.body.y;
    var found := Query(grass, live, x, y, HERBIVORE_SIZE);
    match FirstLive(found, live, 0)
    case None => Meal(h, None, None, [])
    case Some(k) =>
      var count := h.grassEaten + 1;
      if count >= HERBIVORE_GRASS_TO_REPRODUCE then
        Meal(h.(grassEaten := 0), Some(found[k].id), Some(Body(x, y, true)), HerbivoreLitter(x, y, births))
      else
        Meal(h.(grassEaten := count), Some(found[k].id), None, [])
  }

  method EatHerbivore(h: Herbivore, grass: Tree, live: seq<bool>, births: seq<Birth>) returns (meal: Meal)
    requires BirthsReady(births, HERBIVORE_REPRODUCTION_COUNT)
    ensures meal == HerbivoreFed(h, grass, live, births)
  {
    var x, y := h.body.x, h.body.y;
    var found := Query(grass, live, x, y, HERBIVORE_SIZE);
    meal := Meal(h, None, None, []);
    var i := 0;
    while i < |found|
      invariant 0 <= i <= |found|
      invariant FirstLive(found, live, i) == FirstLive(found, live, 0)
    {
      if Alive(live, found[i].id) {
        var eaten := h.grassEaten + 1;
        if eaten >= HERBIVORE_GRASS_TO_REPRODUCE {
          var kids := SpawnHerbivores(x, y, births);
          meal := Meal(h.(grassEaten := 0), Some(found[i].id), Some(Body(x, y, true)), kids);
        } else {
          meal := Meal(h.(grassEaten := eaten), Some(found[i].id), None, []);
        }
        break;
      }
      i := i + 1;
    }
  }

  /**
   * `Herbivore.eat` kills at most one grass: the first live one within the
   * herbivore's own size, and none iff there is no such grass, in which
   * case nothing changes. Position, direction and liveness always stay.
   */
  lemma HerbivoreEatsOneGrass(h: Herbivore, grass: Tree, live: seq<bool>, births: seq<Birth>, found: seq<Entry>)
    requires BirthsReady(births, HERBIVORE_REPRODUCTION_COUNT)
    requires found == Query(grass, live, h.body.x, h.body.y, HERBIVORE_SIZE)
    ensures HerbivoreFed(h, grass, live, births).herbivore.body == h.body
    ensures HerbivoreFed(h, grass, live, births).herbivore.direction == h.direction
    ensures HerbivoreFed(h, grass, live, births).eaten.Some? <==>
      exists j :: 0 <= j < |found| && Alive(live, found[j].id)
    ensures HerbivoreFed(h, grass, live, births).eaten.None? ==>
      HerbivoreFed(h, grass, live, births) == Meal(h, None, None, [])
    ensures HerbivoreFed(h, grass, live, births).eaten.Some? ==>
      Alive(live, HerbivoreFed(h, grass, live, births).eaten.value) &&
      Mentions(found, HerbivoreFed(h, grass, live, births).eaten.value)
    ensures HerbivoreFed(h, grass, live, births).eaten.Some? ==>
      exists k :: 0 <= k < |found| && HerbivoreFed(h, grass, live, births).eaten == Some(found[k].id) &&
        Alive(live, found[k].id) && forall j :: 0 <= j < k ==> !Alive(live, found[j].id)
  {
    var first := FirstLive(found, live, 0);
    var meal := HerbivoreFed(h, grass, live, births);
    if first.Some? {
      assert Alive(live, found[first.value].id);
      assert meal.eaten == Some(found[first.value].id);
    } else {
      assert meal.eaten.None?;
    }
  }

  /** Eating neither kills the herbivore nor brings a dead newborn. */
  lemma MealKeepsAlive(h: Herbivore, grass: Tree, live: seq<bool>, births: seq<Birth>)
    requires BirthsReady(births, HERBIVORE_REPRODUCTION_COUNT)
    ensures HerbivoreFed(h, grass, live, births).herbivore.body == h.body
    ensures forall k :: 0 <= k < |HerbivoreFed(h, grass, live, births).offspring| ==>
      HerbivoreFed(h, grass, live, births).offspring[k].body.alive
  {
    var litter := HerbivoreLitter(h.body.x, h.body.y, births);
    assert forall k :: 0 <= k < |litter| ==> litter[k].body.alive;
  }

  /**
   * Reproduction threshold: a meal that brings the count to
   * HERBIVORE_GRASS_TO_REPRODUCE resets it to 0 and yields exactly one
   * feces at the herbivore's position and exactly
   * HERBIVORE_REPRODUCTION_COUNT newborns, each within JITTER of it when
   * the offsets are; any other meal only adds one to the count.
   */
  lemma HerbivoreReproduction(h: Herbivore, grass: Tree, live: seq<bool>, births: seq<Birth>)
    requires BirthsReady(births, HERBIVORE_REPRODUCTION_COUNT)
    requires HerbivoreFed(h, grass, live, births).eaten.Some?
    ensures
      var meal := HerbivoreFed(h, grass, live, births);
      (h.grassEaten + 1 >= HERBIVORE_GRASS_TO_REPRODUCE ==>
        meal.herbivore.grassEaten == 0 && meal.dropping == Some(Body(h.body.x, h.body.y, true)) &&
        |meal.offspring| == HERBIVORE_REPRODUCTION_COUNT &&
        forall k :: 0 <= k < |meal.offspring| && JitterBounded(births) ==>
          meal.offspring[k].body.alive && meal.offspring[k].grassEaten == 0 &&
          Abs(meal.offspring[k].body.x - h.body.x) <= JITTER &&
          Abs(meal.offspring[k].body.y - h.body.y) <= JITTER) &&
      (h.grassEaten + 1 < HERBIVORE_GRASS_TO_REPRODUCE ==>
        meal.herbivore.grassEaten == h.grassEaten + 1 && meal.dropping.None? && meal.offspring == [])
  {
    if JitterBounded(births) {
      LitterNearParent(h.body.x, h.body.y, births);
    }
  }

  // ---------------------------------------------------------------------
  // Predator
  // ---------------------------------------------------------------------

  /**
   * `Predator.move`: while digesting, count the timer down, pin hunger at the
   * maximum and stay put. Otherwise chase the nearest live herbivore within
   * vision (remembering it as the target) or wander and redirect, clamp to
   * the field, and lose PREDATOR_HUNGER_DECREASE hunger.
   */
  function PredatorMoved(p: Predator, herbivores: Tree, live: seq<bool>, norm: Vec -> Vec, redirect: Vec): (m: Predator)
    ensures m.body.alive == p.body.alive && m.fecesTimer == p.fecesTimer
    ensures p.eatingTimer > 0 ==> m.body == p.body && m.target == p.target
    ensures p.eatingTimer == 0 ==> m.eatingTimer == 0
  {
    if p.eatingTimer > 0 then
      p.(eatingTimer := p.eatingTimer - 1, hunger := PREDATOR_HUNGER_MAX)
    else
      var x, y := p.body.x, p.body.y;
      var found := Query(herbivores, live, x, y, PREDATOR_VISION);
      var stepped :=
        match Nearest(found, live, x, y, |found|)
        case Some(k) =>
          var d := norm(Vec(found[k].x - x, found[k].y - y));
          p.(body := p.body.(x := x + d.x * PREDATOR_SPEED_TO_PREY, y := y + d.y * PREDATOR_SPEED_TO_PREY),
             target := Some(found[k].id))
        case None =>
          var d := norm(p.direction);
          p.(body := p.body.(x := x + d.x * PREDATOR_SPEED, y := y + d.y * PREDATOR_SPEED),
             target := None, direction := redirect);
      stepped.(body := stepped.body.(x := OnFieldX(stepped.body.x, PREDATOR_SIZE), y := OnFieldY(stepped.body.y, PREDATOR_SIZE)),
               hunger := p.hunger - PREDATOR_HUNGER_DECREASE)
  }

  method MovePredator(p: Predator, herbivores: Tree, live: seq<bool>, norm: Vec -> Vec, redirect: Vec)
    returns (moved: Predator)
    ensures moved == PredatorMoved(p, herbivores, live, norm, redirect)
  {
    if p.eatingTimer > 0 {
      return p.(eatingTimer := p.eatingTimer - 1, hunger := PREDATOR_HUNGER_MAX);
    }
    var x, y := p.body.x, p.body.y;
    var found := Query(herbivores, live, x, y, PREDATOR_VISION);
    var nearest: Option<nat> := None;
    var i := 0;
    while i < |found|
      invariant 0 <= i <= |found|
      invariant nearest == Nearest(found, live, x, y, i)
    {
      if Alive(live, found[i].id) {
        if nearest.None? || Dist(found, i, x, y) < Dist(found, nearest.value, x, y) {
          nearest := Some(i);
        }
      }
      i := i + 1;
    }
    moved := p;
    if nearest.Some? {
      var d := norm(Vec(found[nearest.value].x - x, found[nearest.value].y - y));
      moved := moved.(target := Some(found[nearest.value].id));
      moved := moved.(body := moved.body.(x := x + d.x * PREDATOR_SPEED_TO_PREY, y := y + d.y * PREDATOR_SPEED_TO_PREY));
    } else {
      var d := norm(p.direction);
      moved := moved.(target := None);
      moved := moved.(body := moved.body.(x := x + d.x * PREDATOR_SPEED, y := y + d.y * PREDATOR_SPEED));
      moved := moved.(direction := redirect);
    }
    moved := moved.(body := moved.body.(x := OnFieldX(moved.body.x, PREDATOR_SIZE), y := OnFieldY(moved.body.y, PREDATOR_SIZE)));
    moved := moved.(hunger := moved.hunger - PREDATOR_HUNGER_DECREASE);
  }

  /** What `Predator.eat` reports: the agent, the herbivore it killed, the feces it appended and its offspring. */
  datatype Hunt = Hunt(predator: Predator, kill: Option<nat>, dropping: Option<Body>, offspring: seq<Predator>)

  /**
   * `Predator.eat`: tick the feces timer (dropping feces and restarting it
   * at the interval); kill a live target found within the predator's own
   * size, starting digestion; otherwise, when no live target is held and
   * digestion ends in this tick, bear a litter.
   */
  function PredatorFed(p: Predator, herbivores: Tree, live: seq<bool>, births: seq<Birth>): (hunt: Hunt)
    requires BirthsReady(births, PREDATOR_REPRODUCTION_COUNT)
    ensures hunt.predator.body == p.body && hunt.predator.direction == p.direction
    ensures hunt.kill.Some? ==> hunt.kill == p.target && Alive(live, p.target.value) && hunt.offspring == []
  {
    var x, y := p.body.x, p.body.y;
    var ticks := p.fecesTimer + 1;
    var drop := ticks >= PREDATOR_FECES_INTERVAL;
    var q := p.(fecesTimer := if drop then 0 else ticks);
    var dropping := if drop then Some(Body(x, y, true)) else None;
    if p.target.Some? && Alive(live, p.target.value) then
      var found := Query(herbivores, live, x, y, PREDATOR_SIZE);
      if Mentions(found, p.target.value) then
        Hunt(q.(target := None, eatingTimer := PREDATOR_EATING_TIME, hunger := PREDATOR_HUNGER_MAX),
             p.target, dropping, [])
      else
        Hunt(q, None, dropping, [])
    else if p.eatingTimer == 1 then
      Hunt(q.(eatingTimer := 0), None, dropping, PredatorLitter(x, y, births))
    else
      Hunt(q, None, dropping, [])
  }

  method EatPredator(p: Predator, herbivores: Tree, live: seq<bool>, births: seq<Birth>) returns (hunt: Hunt)
    requires BirthsReady(births, PREDATOR_REPRODUCTION_COUNT)
    ensures hunt == PredatorFed(p, herbivores, live, births)
  {
    var x, y := p.body.x, p.body.y;
    var q := p.(fecesTimer := p.fecesTimer + 1);
    var dropping: Option<Body> := None;
    if q.fecesTimer >= PREDATOR_FECES_INTERVAL {
      q := q.(fecesTimer := 0);
      dropping := Some(Body(x, y, true));
    }
    if p.target.Some? && Alive(live, p.target.value) {
      var found := Query(herbivores, live, x, y, PREDATOR_SIZE);
      if Mentions(found, p.target.value) {
        q := q.(target := None, eatingTimer := PREDATOR_EATING_TIME, hunger := PREDATOR_HUNGER_MAX);
        return Hunt(q, p.target, dropping, []);
      }
    } else if p.eatingTimer == 1 {
      var kids := SpawnPredators(x, y, births);
      return Hunt(q.(eatingTimer := 0), None, dropping, kids);
    }
    return Hunt(q, None, dropping, []);
  }

  /** `update_hunger`: a predator whose hunger is at or below zero dies; nothing else changes. */
  function HungerChecked(p: Predator): (q: Predator)
    ensures q.body.alive <==> p.body.alive && p.hunger > 0
    ensures q.body.x == p.body.x && q.body.y == p.body.y && q.(body := p.body) == p
  {
    if p.hunger <= 0 then p.(body := p.body.(alive := false)) else p
  }

  /** The work the predator phase does for one live predator: move, eat, update hunger. */
  function PredatorTurn(p: Predator, herbivores: Tree, live: seq<bool>, norm: Vec -> Vec, redirect: Vec,
                        births: seq<Birth>): (hunt: Hunt)
    requires BirthsReady(births, PREDATOR_REPRODUCTION_COUNT)
    ensures hunt.predator.body.alive ==> p.body.alive && hunt.predator.hunger > 0
  {
    var hunt := PredatorFed(PredatorMoved(p, herbivores, live, norm, redirect), herbivores, live, births);
    hunt.(predator := HungerChecked(hunt.predator))
  }

  /** A predator holds a target only when it is not digesting. */
  predicate TargetConsistent(p: Predator) {
    p.eatingTimer > 0 ==> p.target.None?
  }

  /**
   * `Predator.move` while digesting: the position, direction, target and
   * liveness stay, the timer drops by one and hunger is pinned at the
   * maximum. Not digesting, the predator ends on the field, has lost
   * exactly PREDATOR_HUNGER_DECREASE hunger, and holds a target iff a live
   * herbivore is within vision, the nearest one.
   */
  lemma PredatorMoveContract(p: Predator, herbivores: Tree, live: seq<bool>, norm: Vec -> Vec, redirect: Vec)
    ensures
      var m := PredatorMoved(p, herbivores, live, norm, redirect);
      var found := Query(herbivores, live, p.body.x, p.body.y, PREDATOR_VISION);
      m.body.alive == p.body.alive && m.fecesTimer == p.fecesTimer &&
      (p.eatingTimer > 0 ==>
        m.body == p.body && m.direction == p.direction && m.target == p.target &&
        m.eatingTimer == p.eatingTimer - 1 && m.hunger == PREDATOR_HUNGER_MAX) &&
      (p.eatingTimer == 0 ==>
        ClampedOnField(m.body, PREDATOR_SIZE) && m.eatingTimer == 0 &&
        m.hunger == p.hunger - PREDATOR_HUNGER_DECREASE &&
        (m.target.None? <==> forall j :: 0 <= j < |found| ==> !Alive(live, found[j].id)) &&
        (m.target.Some? ==>
          var k := Nearest(found, live, p.body.x, p.body.y, |found|).value;
          m.target.value == found[k].id && Alive(live, found[k].id) &&
          forall j :: 0 <= j < |found| && Alive(live, found[j].id) ==>
            Dist(found, k, p.body.x, p.body.y) <= Dist(found, j, p.body.x, p.body.y)))
  {
    var found := Query(herbivores, live, p.body.x, p.body.y, PREDATOR_VISION);
    NearestIsFirstClosest(found, live, p.body.x, p.body.y, |found|);
  }

  /**
   * `Predator.eat`: the feces timer advances and wraps to 0 at the interval
   * with exactly one feces dropped; a kill happens only of a live target
   * within reach and starts digestion with full hunger; offspring come
   * exactly when no live target is held and digestion is ending, and then
   * the timer stops and the young are the litter of `PredatorLitter`: live
   * newborns within JITTER of the parent when the offsets are, with full
   * hunger, both timers 0 and no target. Position, direction and liveness
   * stay.
   */
  lemma PredatorEatContract(p: Predator, herbivores: Tree, live: seq<bool>, births: seq<Birth>)
    requires BirthsReady(births, PREDATOR_REPRODUCTION_COUNT)
    ensures
      var hunt := PredatorFed(p, herbivores, live, births);
      var e := hunt.predator;
      var found := Query(herbivores, live, p.body.x, p.body.y, PREDATOR_SIZE);
      e.body == p.body && e.direction == p.direction &&
      (p.fecesTimer + 1 >= PREDATOR_FECES_INTERVAL ==>
        e.fecesTimer == 0 && hunt.dropping == Some(Body(p.body.x, p.body.y, true))) &&
      (p.fecesTimer + 1 < PREDATOR_FECES_INTERVAL ==> e.fecesTimer == p.fecesTimer + 1 && hunt.dropping.None?) &&
      (hunt.kill.Some? <==> p.target.Some? && Alive(live, p.target.value) && Mentions(found, p.target.value)) &&
      (hunt.kill.Some? ==>
        hunt.kill == p.target && e.target.None? && e.eatingTimer == PREDATOR_EATING_TIME &&
        e.hunger == PREDATOR_HUNGER_MAX && hunt.offspring == []) &&
      (hunt.offspring != [] ==>
        !(p.target.Some? && Alive(live, p.target.value)) && p.eatingTimer == 1 && e.eatingTimer == 0 &&
        |hunt.offspring| == PREDATOR_REPRODUCTION_COUNT) &&
      (hunt.offspring != [] <==> !(p.target.Some? && Alive(live, p.target.value)) && p.eatingTimer == 1) &&
      (hunt.offspring != [] ==>
        hunt.offspring == PredatorLitter(p.body.x, p.body.y, births) &&
        forall k :: 0 <= k < |hunt.offspring| && JitterBounded(births) ==>
          hunt.offspring[k].body.alive && hunt.offspring[k].hunger == PREDATOR_HUNGER_MAX &&
          hunt.offspring[k].eatingTimer == 0 && hunt.offspring[k].fecesTimer == 0 &&
          hunt.offspring[k].target.None? &&
          Abs(hunt.offspring[k].body.x - p.body.x) <= JITTER &&
          Abs(hunt.offspring[k].body.y - p.body.y) <= JITTER) &&
      (hunt.kill.None? && hunt.offspring == [] ==>
        (e.hunger == p.hunger && e.target == p.target &&
         (e.eatingTimer == p.eatingTimer || (p.eatingTimer == 1 && e.eatingTimer == 0))))
  {
    if JitterBounded(births) {
      LitterNearParent(p.body.x, p.body.y, births);
    }
  }

  /** Digestion lock: a digesting predator does not move during its turn, and is not hungry. */
  lemma DigestionLock(p: Predator, herbivores: Tree, live: seq<bool>, norm: Vec -> Vec, redirect: Vec, births: seq<Birth>)
    requires BirthsReady(births, PREDATOR_REPRODUCTION_COUNT)
    requires p.eatingTimer > 0 && TargetConsistent(p) && p.body.alive
    ensures
      var hunt := PredatorTurn(p, herbivores, live, norm, redirect, births);
      hunt.predator.body == p.body && hunt.predator.hunger == PREDATOR_HUNGER_MAX && hunt.kill.None? &&
      hunt.predator.eatingTimer == (if p.eatingTimer == 2 then 0 else p.eatingTimer - 1) &&
      (hunt.offspring != [] <==> p.eatingTimer == 2)
  {
  }

  /** Each step of a turn keeps "digesting implies no target". */
  lemma TurnKeepsTargetConsistent(p: Predator, herbivores: Tree, live: seq<bool>, norm: Vec -> Vec, redirect: Vec,
                                  births: seq<Birth>)
    requires BirthsReady(births, PREDATOR_REPRODUCTION_COUNT)
    requires TargetConsistent(p)
    ensures TargetConsistent(PredatorMoved(p, herbivores, live, norm, redirect))
    ensures TargetConsistent(PredatorTurn(p, herbivores, live, norm, redirect, births).predator)
    ensures forall k :: 0 <= k < |PredatorTurn(p, herbivores, live, norm, redirect, births).offspring| ==>
      TargetConsistent(PredatorTurn(p, herbivores, live, norm, redirect, births).offspring[k])
  {
  }

  /** Starvation: the turn leaves the predator alive iff its hunger after moving and eating is positive. */
  lemma StarvationRule(p: Predator, herbivores: Tree, live: seq<bool>, norm: Vec -> Vec, redirect: Vec, births: seq<Birth>)
    requires BirthsReady(births, PREDATOR_REPRODUCTION_COUNT)
    ensures
      var hunt := PredatorTurn(p, herbivores, live, norm, redirect, births);
      hunt.predator.body.alive <==> p.body.alive && hunt.predator.hunger > 0
  {
  }

  /** `k` ticks of the predator phase for one predator with no herbivore anywhere; a dead predator is skipped. */
  function LonelyTurns(p: Predator, k: nat, field: Rect, norm: Vec -> Vec, redirect: Vec, births: seq<Birth>): Predator
    requires BirthsReady(births, PREDATOR_REPRODUCTION_COUNT)
  {
    if k == 0 then p
    else
      var before := LonelyTurns(p, k - 1, field, norm, redirect, births);
      if before.body.alive then PredatorTurn(before, Empty(field), [], norm, redirect, births).predator
      else before
  }

  /**
   * A predator that is not digesting and finds nothing to eat loses one
   * hunger per tick and dies on exactly the tick its hunger reaches 0: a
   * newborn, with PREDATOR_HUNGER_MAX hunger, lives through 199 ticks and
   * is dead after the 200th.
   */
  lemma {:induction false} StarvesOnSchedule(p: Predator, k: nat, field: Rect, norm: Vec -> Vec, redirect: Vec,
                                             births: seq<Birth>)
    requires BirthsReady(births, PREDATOR_REPRODUCTION_COUNT)
    requires p.body.alive && p.hunger > 0 && p.eatingTimer == 0 && p.target.None?
    ensures
      var q := LonelyTurns(p, k, field, norm, redirect, births);
      (q.body.alive <==> k < p.hunger) && q.eatingTimer == 0 && q.target.None? &&
      (k <= p.hunger ==> q.hunger == p.hunger - k)
  {
    if k > 0 {
      StarvesOnSchedule(p, k - 1, field, norm, redirect, births);
      var before := LonelyTurns(p, k - 1, field, norm, redirect, births);
      if before.body.alive {
        assert Query(Empty(field), [], before.body.x, before.body.y, PREDATOR_VISION) == [];
      }
    }
  }
}
