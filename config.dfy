/**
 * The tunable constants of the simulation (constants.py), together with the
 * per-kind sizes and the quadtree capacity that entities.py hard-codes.
 * Distances and coordinates are reals; counts and timers are integers.
 */
module Config {
  // Field
  const FIELD_WIDTH: real := 400.0
  const FIELD_HEIGHT: real := 400.0

  // Initial population
  const INITIAL_GRASS_COUNT: nat := 10
  const INITIAL_HERBIVORE_COUNT: nat := 200
  const INITIAL_PREDATOR_COUNT: nat := 1

  // Pacing; the snapshot interval is derived from it in the Simulation constructor
  const ROUNDS_PER_SECOND: nat := 100

  // Grass
  const GRASS_SPAWN_PER_ROUND: nat := 2
  const GRASS_SPAWN_BONUS: nat := 2
  const GRASS_SPAWN_RADIUS: real := 10.0

  // Herbivores
  const HERBIVORE_SPEED: real := 1.0
  const HERBIVORE_SPEED_TO_GRASS: real := 2.0
  const HERBIVORE_VISION: real := 10.0
  const HERBIVORE_REPRODUCTION_COUNT: nat := 3
  const HERBIVORE_GRASS_TO_REPRODUCE: nat := 10

  // Predators
  const PREDATOR_SPEED: real := 2.0
  const PREDATOR_SPEED_TO_PREY: real := 3.0
  const PREDATOR_VISION: real := 15.0
  const PREDATOR_EATING_TIME: nat := 50
  const PREDATOR_REPRODUCTION_COUNT: nat := 2
  const PREDATOR_FECES_INTERVAL: nat := 5
  const PREDATOR_HUNGER_MAX: int := 200
  const PREDATOR_HUNGER_DECREASE: int := 1

  // Sizes given to the Entity constructor by each kind (footprint radius)
  const GRASS_SIZE: real := 1.0
  const FECES_SIZE: real := 1.0
  const HERBIVORE_SIZE: real := 2.0
  const PREDATOR_SIZE: real := 6.0

  /** Offspring and bonus grass are placed uniformly within this offset of the parent. */
  const JITTER: real := 5.0

  /** Default capacity of a quadtree node. */
  const QUADTREE_CAPACITY: nat := 8

  /** Number of snapshots the history keeps. */
  const HISTORY_LIMIT: nat := 50
}
