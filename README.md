# Life simulator — a Dafny model of its core

The life simulator is a predator–prey ecosystem on a 400 × 400 field.

- **Grass** grows every round: a fixed number of new plants at random spots, plus bonus plants around every feces that lies near live grass. Such a feces is used up.
- **Herbivores** walk towards the nearest live grass they can see, or wander in their current direction. They eat one grass within reach. Every tenth grass they drop a feces and give birth to three young.
- **Predators** chase the nearest live herbivore they can see, or wander. They eat their target when it is within reach and then digest for 50 rounds. They drop a feces every fifth round, give birth to two young when digestion ends, and starve when hunger reaches zero.
- Each phase looks its prey up through a **quadtree** over the field. The tree is rebuilt every round from the live entities.
- The **simulation object** keeps the four lists of entities and a bounded history of the last 50 snapshots. It also holds the round counter, a speed in [1, 100] and a running flag that drops when either species dies out.

The model has one module per source concern:

| module | file | models |
|---|---|---|
| `Config` | `config.dfy` | the constants of `constants.py` |
| `Geometry` | `geometry.dfy` | distances (squared), rectangles, quadrants, clamping |
| `QuadTree` | `quadtree.dfy` | `QuadTree.__init__`/`subdivide`/`insert`/`query` |
| `Entities` | `entities.dfy` | `Herbivore` and `Predator`: construction, `move`, `eat`, `update_hunger` |
| `Simulation` | `simulation.dfy` | class `Simulation` and the per-round phases it runs |

Entities are values:

- a `Body` is a position plus an `alive` flag;
- a `Herbivore` and a `Predator` add their own counters;
- the quadtree is a `Leaf | Node` value, and `insert` returns a new tree.

A predator's `target` is the index of the herbivore in the list the quadtree was built from. The object reference it is in the source becomes that index. The shared `alive` flags that `query` and `move` consult are passed as a `seq<bool>`. A kill is returned as that index, and the phase applies it to the list.

The class `Simulation.Simulation` updates its fields in place, as the source object does. Each of its methods is proved against a function over the whole `World` value. The per-agent loops are methods, each proved equal to a fold function; the properties are lemmas about those folds.

One behaviour of the source shows up in the proofs:

- Grass (for the herbivore phase) and herbivores (for the predator phase) are indexed only when they lie inside the field, because `insert` rejects points outside the root rectangle. Feces are never indexed.
- Bonus grass is placed at a feces plus an offset in [-5, 5] that is never clamped, so it can land outside the field (`BonusCanLeaveField`).
- Such grass is never indexed, so no herbivore ever finds or eats it (`OutOfFieldInvisible`, `GrazingSparesOutOfField`). It stays in the grass list for good.
- Newborn herbivores are placed at their parent plus an unclamped jitter too, so a young one can start outside the field; until its first move clamps it, it is invisible to predators in the same way (`OutOfFieldInvisible`).

## Model

| member | source | states |
|---|---|---|
| `Geometry.ClampTo` | entities.py:131-132 | `max(lo, min(v, hi))` lies in [lo, hi] when the bounds are ordered, and leaves a value already inside unchanged |
| `Geometry.QuadrantsPartition` | entities.py:26-34 | a point of a node's half-open rectangle lies in exactly one of the four quadrants `subdivide` creates, and a point outside it in none |
| `Geometry.SqMonotone` | utils.py:4-5 | squaring is monotone on non-negative reals, so comparing squared distances orders points as `distance` does |
| `Geometry.ClampIsNearer` | entities.py:63-64 | along one axis, the clamped query coordinate is at least as close to the query as any point of the node's interval |
| `Geometry.PruningSound` | entities.py:62-67 | when the rectangle point closest to the query centre is beyond the radius, every point of the rectangle is: pruning a node loses no hit |
| `QuadTree.EmptyValid` | entities.py:8-24 | a fresh node is a well-formed tree holding no entity |
| `QuadTree.Inserted` | entities.py:42-57 | `insert` fails exactly when the point is outside the node's rectangle; on success the tree stays well formed (leaf capacity, quadrant bounds) and holds the old entries plus the new one |
| `QuadTree.IntoChildren` | entities.py:54-57 | trying `nw`, `ne`, `sw`, `se` in turn never reports a point of the node as outside, and a success adds exactly that entry to the node |
| `QuadTree.Split` | entities.py:26-40 | `subdivide` turns a full leaf into a well-formed node over the same rectangle holding the same entries |
| `QuadTree.Redistribute` | entities.py:37-40 | re-inserting a leaf's entries into the new quadrants keeps the node well formed and adds exactly those entries |
| `QuadTree.Insert` | entities.py:42-57 | the insertion method computes `Inserted`, failing exactly for points outside the node |
| `QuadTree.InsertIntoChildren` | entities.py:54-57 | the method that tries the four children computes `IntoChildren` from the first quadrant |
| `QuadTree.Subdivide` | entities.py:26-40 | the subdivision method computes `Split` and keeps the leaf's entries |
| `QuadTree.Matching` | entities.py:69-71 | the scan of one node's entities keeps exactly the live ones within the radius |
| `QuadTree.ElementsInBounds` | entities.py:44-45 | every entity stored in a well-formed tree lies in its rectangle |
| `QuadTree.Query` | entities.py:59-78 | `query`: skip a node whose closest point is beyond the radius; otherwise the node's live entities within the radius, then the results of `nw`, `ne`, `sw`, `se` in that order |
| `QuadTree.QueryIsBruteForce` | entities.py:59-78 | `query` on a well-formed tree returns the same list as filtering all stored entities by liveness and radius, in node-visiting order |
| `QuadTree.QueryFindsExactlyHits` | entities.py:59-78 | an entity is in the result of `query` iff it is stored in the tree, alive and within the radius |
| `Entities.FirstNonDegenerate` | entities.py:99-103 | the rejection loop's direction is one of the draws and has a component larger than 0.2 in magnitude |
| `Entities.SampleDirection` | entities.py:99-103 | the `while True` loop returns the first draw that is not too weak |
| `Entities.NewHerbivore` | entities.py:97-104 | a new herbivore is alive at the given position, with a non-degenerate direction and no grass eaten |
| `Entities.NewPredator` | entities.py:153-163 | a new predator is alive at the given position, with full hunger, a non-degenerate direction, both timers 0 and no target |
| `Entities.SpawnHerbivores` | entities.py:145-148 | the litter comprehension builds one newborn per birth draw, at the parent plus that draw's jitter |
| `Entities.SpawnPredators` | entities.py:218-219 | the same for a predator litter |
| `Entities.LitterNearParent` | entities.py:145-148 | every young of a litter is a live newborn within 5 of its parent on each axis |
| `Entities.Nearest` | entities.py:108-116 | the nearest-target scan of both `move` methods (also entities.py:172-180) over the first n entries: a live entry replaces the current choice only when strictly closer; the choice is always one of those n entries |
| `Entities.NearestIsFirstClosest` | entities.py:108-116 | the nearest-target scan finds nothing iff nothing seen is alive; otherwise it picks a live entity no farther than any live one, and the first such one, because ties keep the earlier |
| `Entities.FirstLive` | entities.py:137-139 | the eating scan stops at the first live entity in reach; all before it are dead, and it finds none iff none is live |
| `Entities.HerbivoreMoved` | entities.py:106-132 | `Herbivore.move` on the grass within vision: it keeps the herbivore's liveness and grass count |
| `Entities.MoveHerbivore` | entities.py:106-132 | the move method computes `HerbivoreMoved` and ends with the herbivore clamped to the field |
| `Entities.HerbivoreSteered` | entities.py:106-132 | moving never changes a herbivore's liveness or grass count |
| `Entities.HerbivoreWanders` | entities.py:124-132 | a herbivore with no live grass in sight moves one step along its normalised direction, takes the new random direction and is clamped to the field |
| `Entities.HerbivoreSeeksGrass` | entities.py:118-132 | a herbivore whose scan picked grass keeps its direction and moves two steps towards that live grass (the first-closest one, by `NearestIsFirstClosest`), clamped to the field |
| `Entities.HerbivoreFed` | entities.py:134-150 | `Herbivore.eat`: the herbivore keeps its body and direction, and a meal that eats nothing changes nothing |
| `Entities.EatHerbivore` | entities.py:134-150 | the loop with `break` computes `HerbivoreFed` |
| `Entities.HerbivoreEatsOneGrass` | entities.py:134-150 | a herbivore eats a grass iff some live grass is within its size; what it eats is the first live entry of the query, all before it dead; with nothing to eat nothing changes; position and direction always stay |
| `Entities.MealKeepsAlive` | entities.py:134-150 | eating leaves the herbivore's body as it was and yields only live young |
| `Entities.HerbivoreReproduction` | entities.py:141-148 | on the tenth grass the counter resets, one feces drops at the herbivore and three young are born within 5 of it; below that the counter grows by one and nothing is born |
| `Entities.PredatorMoved` | entities.py:165-199 | `Predator.move`: liveness and the feces timer stay; a digesting predator keeps its place and target; one that is not digesting stays not digesting |
| `Entities.MovePredator` | entities.py:165-199 | the move method computes `PredatorMoved` |
| `Entities.PredatorMoveContract` | entities.py:165-199 | a digesting predator stays put, counts its timer down and is fully fed; otherwise it is clamped to the field, loses one hunger and holds a target iff a live herbivore is in sight, and that target is the live herbivore closest to it |
| `Entities.PredatorFed` | entities.py:201-220 | `Predator.eat`: the predator keeps its body and direction; a kill is of its own target, which was alive, and brings no young |
| `Entities.EatPredator` | entities.py:201-220 | the eating method computes `PredatorFed` |
| `Entities.PredatorEatContract` | entities.py:201-220 | the feces timer advances and wraps at 5 with one feces dropped; a kill happens iff the target is alive and within reach, clearing the target, starting 50 rounds of digestion and restoring hunger; young come exactly when no live target is held and the timer is at 1, which stops it; they are the litter of the comprehension at entities.py:218-219, two live newborns at the parent plus their jitter (within 5 when the draws are), with full hunger, both timers 0 and no target |
| `Entities.PredatorTurn` | simulation.py:74-76 | `move`, `eat`, then `update_hunger`: a predator alive after its turn was alive before it and has positive hunger |
| `Entities.HungerChecked` | entities.py:222-225 | after `update_hunger` a predator is alive iff it was alive with positive hunger; nothing else changes |
| `Entities.DigestionLock` | entities.py:165-170 | a digesting predator neither moves nor kills during its turn and stays fully fed; it bears young exactly on the turn its timer runs from 2 to 0 |
| `Entities.TurnKeepsTargetConsistent` | entities.py:165-213 | moving, and a whole turn, keep "digesting implies no target", for the predator and for its young |
| `Entities.StarvationRule` | entities.py:222-225 | after a turn the predator is alive iff it was alive and its hunger after moving and eating is positive |
| `Entities.StarvesOnSchedule` | entities.py:196-225 | a predator that finds nothing loses one hunger per round and dies on the round its hunger reaches 0, not before |
| `Simulation.Filter` | simulation.py:64 | the list comprehension keeps exactly the members that pass the test, and never grows the list |
| `Simulation.FilterKeepsCount` | simulation.py:64 | the comprehension keeps each member that passes the test as many times as the list holds it, and drops every other |
| `Simulation.FilterKeepsOrder` | simulation.py:77 | the comprehension's result is a subsequence of the list: the survivors stay in their original order |
| `Simulation.Index` | simulation.py:55-58 | building the index over the live entities gives a well-formed tree over the field |
| `Simulation.IndexHoldsIndexable` | simulation.py:55-58 | a built index holds exactly the live in-field entities, by list position |
| `Simulation.IndexStep` | simulation.py:57-58 | one loop step keeps the tree well formed, and a failed build stays failed |
| `Simulation.IndexStepAdds` | simulation.py:57-58 | a successful step adds the entity iff it is alive and inside the field, and nothing else |
| `Simulation.BuildIndex` | simulation.py:55-58 | the index-building loop computes `Index` |
| `Simulation.IndexOne` | simulation.py:57-58 | one insertion of the loop computes `IndexStep` |
| `Simulation.FaultIsFinal` | simulation.py:56-58 | once an insertion exceeds the recursion depth, the rest of the loop cannot recover |
| `Simulation.IndexableExactly` | simulation.py:56-58 | an entry is to be indexed iff it names a live entity inside the field at that entity's position |
| `Simulation.OutOfFieldInvisible` | simulation.py:55-58 | no query of the index ever returns an entity outside the field |
| `Simulation.HasNearGrass` | simulation.py:89-94 | the inner scan with `break` reports live grass strictly within 10 of the feces iff there is some |
| `Simulation.GrassGrown` | simulation.py:83-96 | grass growth touches neither herbivores nor predators |
| `Simulation.BonusCount` | simulation.py:86-94 | every fertile feces contributes exactly two bonus grass |
| `Simulation.GrassGrowthContract` | simulation.py:83-96 | after growth all grass and feces are alive; the grass count is the live grass plus 2 spawned plus 2 per fertile feces; a feces remains iff it was alive and had no live grass strictly within 10 |
| `Simulation.BonusAlive` | simulation.py:91-92 | all bonus grass is alive |
| `Simulation.BonusCanLeaveField` | simulation.py:89-92 | a feces at (1, 1) next to live grass, with offset (-3, -3), grows grass at (-2, -2), outside the field |
| `Simulation.SingleFecesBonus` | simulation.py:89-94 | a single fertile feces yields exactly its own sprouts |
| `Simulation.BonusIsGrown` | simulation.py:95 | every bonus grass ends up in the grass list |
| `Simulation.PlantAll` | simulation.py:84-85 | the spawning loop plants live grass at exactly the drawn spots, in order |
| `Simulation.Graze` | simulation.py:59-63 | the herbivore loop over the first n herbivores: the grass and herbivore lists keep their lengths, and herbivores not yet reached are untouched |
| `Simulation.GrazeStep` | simulation.py:60-63 | one iteration: a dead herbivore is skipped; a live one moves, eats, and its kill, feces and young are recorded; later herbivores are untouched |
| `Simulation.GrazeAll` | simulation.py:59-63 | the herbivore loop computes the `Graze` fold over all herbivores |
| `Simulation.GrazeOne` | simulation.py:61-63 | one loop step computes `GrazeStep`: a live herbivore moves, eats, and its kill and young are recorded |
| `Simulation.HerbivorePhase` | simulation.py:54-64 | the herbivore phase leaves the predators alone |
| `Simulation.GrazeOnlyKillsGrass` | simulation.py:59-63 | the herbivore loop changes no grass except to kill it |
| `Simulation.GrazeAppendsFeces` | simulation.py:59-63 | the herbivore loop only appends feces |
| `Simulation.GrazeKeepsHerdAlive` | simulation.py:59-63 | no herbivore dies in the herbivore loop |
| `Simulation.GrazeBornAlive` | simulation.py:59-63 | every young born in the herbivore loop is alive |
| `Simulation.GrazeStepBornAlive` | simulation.py:60-63 | one iteration of the herbivore loop adds only live young |
| `Simulation.HerbivorePhaseContract` | simulation.py:54-64 | once the grass index is built, the phase leaves only live herbivores in the list, whatever dead ones the predators left there; an index fault changes nothing; grass only dies, the old feces stay as a prefix, and the predators are unchanged |
| `Simulation.GrazingSparesOutOfField` | simulation.py:55-63 | grass outside the field is never eaten |
| `Simulation.MealSparesOutOfField` | simulation.py:55-63 | a single meal never takes grass that the index left out for lying outside the field |
| `Simulation.Prowl` | simulation.py:71-76 | the predator loop over the first n predators: the herbivore and predator lists keep their lengths, and predators not yet reached are untouched |
| `Simulation.ProwlStep` | simulation.py:72-76 | one iteration: a dead predator is skipped; a live one takes its turn, and its kill, feces and young are recorded; later predators are untouched |
| `Simulation.ProwlAll` | simulation.py:71-76 | the predator loop computes the `Prowl` fold over all predators |
| `Simulation.ProwlOne` | simulation.py:73-76 | one loop step computes `ProwlStep`: a live predator moves, eats, has its hunger checked, and its kill and young are recorded |
| `Simulation.PredatorPhase` | simulation.py:66-77 | the predator phase leaves the grass alone |
| `Simulation.ProwlOnlyKillsHerbivores` | simulation.py:71-76 | the predator loop changes no herbivore except to kill it |
| `Simulation.ProwlAppendsFeces` | simulation.py:71-76 | the predator loop only appends feces |
| `Simulation.ProwlKeepsTargets` | simulation.py:71-76 | the predator loop keeps "digesting implies no target" for every predator, and its young are alive and consistent |
| `Simulation.LitterAlive` | simulation.py:75 | a predator's young are alive |
| `Simulation.PredatorPhaseContract` | simulation.py:66-77 | from live, consistent predators the phase leaves only live, consistent predators, herbivores that only died, the old feces as a prefix, and the grass unchanged |
| `Simulation.Ticked` | simulation.py:79-104 | one round of `update_all`: grass growth, then the herbivore phase, then the predator phase |
| `Simulation.TickKeepsPredatorsSound` | simulation.py:79-104 | a whole round keeps every predator alive and consistent |
| `Simulation.Retained` | simulation.py:49-50 | what the popping loop leaves: a suffix of the history of at most 50 snapshots, all of it when it fits, exactly 50 otherwise |
| `Simulation.SaveEvictsOldest` | simulation.py:48-50 | saving keeps at most 50 snapshots and ends with the new one; the oldest is dropped only when the buffer was full |
| `Simulation.FirstWithRound` | simulation.py:136-141 | the lookup finds nothing iff no snapshot has that round; otherwise it returns the first snapshot with it |
| `Simulation.SpeedAfter` | simulation.py:128-129 | `adjust_speed`: a step up never passes 100 nor rises by more than one; a step down never falls below 1 nor drops by more than one |
| `Simulation.SpeedStaysInRange` | simulation.py:128-129 | the speed stays in [1, 100] and moves one step unless it is at the bound it moves towards |
| `Simulation.SnapshotInterval` | simulation.py:21 | the snapshot interval is at least 1, and exactly 1 at more than 30 rounds per second |
| `Simulation.Simulation.constructor` | simulation.py:11-21 | a new simulation is empty, at round 0, speed 1, running, saving every round |
| `Simulation.Simulation.Initialize` | simulation.py:23-36 | initialisation appends 10 grass, 200 herbivores and 1 predator as newborns, then saves one snapshot |
| `Simulation.Simulation.SaveState` | simulation.py:38-52 | saving appends a snapshot of the current lists and round, then pops from the front down to 50; nothing else changes |
| `Simulation.Simulation.GrowGrass` | simulation.py:83-96 | the grass block of `update_all` computes `GrassGrown` on the current lists |
| `Simulation.Simulation.UpdateHerbivores` | simulation.py:54-64 | the method computes `HerbivorePhase` on the current lists |
| `Simulation.Simulation.UpdatePredators` | simulation.py:66-77 | the method computes `PredatorPhase` on the current lists |
| `Simulation.Simulation.UpdateAll` | simulation.py:79-112 | a round grows grass, runs the herbivore phase and then the predator phase; running drops iff either species has no live member |
| `Simulation.Simulation.Update` | simulation.py:114-126 | a stopped simulation is untouched; a running one plays a round, counts it and saves a snapshot when the round is a multiple of the interval; the class invariant holds throughout |
| `Simulation.Simulation.AdjustSpeed` | simulation.py:128-130 | only the speed changes, as `SpeedStaysInRange` describes |
| `Simulation.Simulation.Stop` | simulation.py:132-134 | stopping clears the running flag and changes nothing else |
| `Simulation.Simulation.GetCurrentState` | simulation.py:136-141 | the loop returns the first snapshot with the requested round, or nothing iff there is none |

## Left out

- Threads (simulation.py:99-104): the herbivore and predator phases run one after the other, in that order. The source starts them in two threads that share lists, so their interleaving is not modelled.
- An exception inside a phase thread (simulation.py:99-104): it is lost with that thread and does not reach `update_all`. The model treats an index that cannot be built as a phase that changes nothing. The `except` branches of `update_all` and `update` are therefore not modelled: with the thread's fault swallowed, nothing the model covers raises there.
- More than 8 entities at one point: in exact arithmetic `insert` would subdivide forever there. The model gives insertion a depth bound (`depth`) and reports `DepthExceeded` when it runs out. The source's float halving instead yields empty child rectangles after about fifty levels (entities.py:26-34). Inserts into them return False, and `subdivide` ignores the results of its re-inserts (entities.py:39-40). The coincident entities thus silently leave the index. Only a point at exactly (0, 0) recurses until Python's recursion limit, a runtime setting.
- `QuadTree.Insert`, `Simulation.Index`, `Simulation.HerbivorePhase`, `Simulation.PredatorPhase`: where the float source drops coincident entities from the index and goes on, the model fails the insertion (`DepthExceeded`), so `Index` yields nothing and the whole phase changes nothing. This can happen in practice, e.g. nine herbivores clamped into the same corner.
- `copy.deepcopy` and `pickle.dumps` in `save_state`: snapshots are values, so copying is implicit. The serialisation test cannot fail on these values, so its `except` path is not modelled.
- `print`, and the program's I/O: not modelled. `main.py` (the video loop) and `renderer.py` (drawing) are not part of this model. Neither are `MAX_ROUNDS` and the colour constants, which only they use.
- `math.sqrt`: distances are compared squared, which preserves every comparison the source makes with a non-negative radius (`Geometry.SqMonotone`).
- `normalize_vector` (utils.py:7-11): a parameter `norm`, because the model has no square root. No property here depends on its values.
- `random.uniform`: every draw is a parameter.
  - Grass spots and bonus offsets come in as `TickDraws`.
  - Each agent gets a new wandering direction and a `Birth` per young (a jitter and the direction draws of its constructor's rejection loop).
  - `CanSample` and `BirthsReady` require that each rejection loop's draws contain an acceptable direction. The source's loop would otherwise run forever.
- `Simulation.Simulation.Initialize`: it takes each newborn's position as a `Birth` jitter from (0, 0) rather than as a uniform draw over the field. The range of the draws is not constrained.
- `current_round`: kept as a field. The core never changes it.
- `Entities.HerbivoreWanders`, `Entities.HerbivoreSeeksGrass`, `Entities.PredatorMoveContract`: state movement in terms of `norm`, not of unit vectors, because normalisation is not modelled.
- Floating point: coordinates are exact reals, so rounding is not modelled.
