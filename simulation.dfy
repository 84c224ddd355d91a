/**
 * simulation.py: one tick of the world (grass growth, the herbivore phase,
 * the predator phase, the extinction check), the bounded snapshot history
 * and the `Simulation` object that drives them.
 *
 * The tick is specified by functions on a `World` value; the methods of
 * class `Simulation` perform it step by step on the object's fields and
 * are proved to agree with those functions.
 */
module Simulation {
  import opened Wrappers
  import opened Config
  import opened Geometry
  import opened QuadTree
  import opened Entities

  /** The rectangle every per-phase index covers: QuadTree(0, 0, FIELD_WIDTH, FIELD_HEIGHT). */
  const FIELD: Rect := Rect(0.0, 0.0, FIELD_WIDTH, FIELD_HEIGHT)

  datatype World = World(grass: seq<Body>, herbivores: seq<Herbivore>, predators: seq<Predator>, feces: seq<Body>)

  /** A saved state: copies of the four lists and the round it was taken in. */
  datatype Snapshot = Snapshot(world: World, round: int)

  /** The random draws of one agent in one tick: the next wander direction and its litter. */
  datatype AgentDraws = AgentDraws(redirect: Vec, births: seq<Birth>)

  /**
   * The random draws of one tick: the positions of the spawned grass, the
   * offsets of the bonus grass for each feces (by its index), and the draws
   * of each herbivore and predator (by index).
   */
  datatype TickDraws = TickDraws(spawn: seq<Vec>, bonus: seq<seq<Vec>>, herbivores: seq<AgentDraws>, predators: seq<AgentDraws>)

  predicate DrawsFit(w: World, d: TickDraws) {
    |d.spawn| == GRASS_SPAWN_PER_ROUND &&
    |d.bonus| == |w.feces| && (forall i :: 0 <= i < |d.bonus| ==> |d.bonus[i]| == GRASS_SPAWN_BONUS) &&
    |d.herbivores| == |w.herbivores| &&
    (forall i :: 0 <= i < |d.herbivores| ==> BirthsReady(d.herbivores[i].births, HERBIVORE_REPRODUCTION_COUNT)) &&
    |d.predators| == |w.predators| &&
    (forall i :: 0 <= i < |d.predators| ==> BirthsReady(d.predators[i].births, PREDATOR_REPRODUCTION_COUNT))
  }

  // ---------------------------------------------------------------------
  // Lists
  // ---------------------------------------------------------------------

  /** `[x for x in s if keep(x)]`. */
  function Filter<T(!new)>(s: seq<T>, keep: T -> bool): (r: seq<T>)
    ensures forall x :: x in r <==> x in s && keep(x)
    ensures |r| <= |s|
  {
    if s == [] then [] else (if keep(s[0]) then [s[0]] else []) + Filter(s[1..], keep)
  }

  /** The comprehension keeps every kept element as often as `s` holds it, and none of the others. */
  lemma {:induction false} FilterKeepsCount<T(!new)>(s: seq<T>, keep: T -> bool)
    ensures forall x :: multiset(Filter(s, keep))[x] == if keep(x) then multiset(s)[x] else 0
  {
    if s != [] {
      FilterKeepsCount(s[1..], keep);
      assert s == [s[0]] + s[1..];
    }
  }

  /** `idx` lists, in increasing order, positions of `s` that hold `r` element by element. */
  ghost predicate Picks<T>(idx: seq<nat>, r: seq<T>, s: seq<T>) {
    |idx| == |r| &&
    (forall k :: 0 <= k < |idx| ==> idx[k] < |s| && r[k] == s[idx[k]]) &&
    (forall k, l :: 0 <= k < l < |idx| ==> idx[k] < idx[l])
  }

  /** `r` is `s` with some elements left out and the rest in their original order. */
  ghost predicate SubsequenceOf<T>(r: seq<T>, s: seq<T>) {
    exists idx: seq<nat> :: Picks(idx, r, s)
  }

  /** The comprehension keeps the order of the list it filters. */
  lemma {:induction false} FilterKeepsOrder<T(!new)>(s: seq<T>, keep: T -> bool)
    ensures SubsequenceOf(Filter(s, keep), s)
  {
    if s == [] {
      assert Picks([], Filter(s, keep), s);
    } else {
      FilterKeepsOrder(s[1..], keep);
      assert s == [s[0]] + s[1..];
      if keep(s[0]) {
        SubsequenceTake(Filter(s[1..], keep), s[1..], s[0]);
        assert Filter(s, keep) == [s[0]] + Filter(s[1..], keep);
      } else {
        SubsequenceSkip(Filter(s[1..], keep), s[1..], s[0]);
        assert Filter(s, keep) == Filter(s[1..], keep);
      }
    }
  }

  lemma SubsequenceTake<T>(r: seq<T>, s: seq<T>, x: T)
    requires SubsequenceOf(r, s)
    ensures SubsequenceOf([x] + r, [x] + s)
  {
    var idx: seq<nat> :| Picks(idx, r, s);
    var idx2: seq<nat> := [0] + seq(|idx|, k requires 0 <= k < |idx| => idx[k] + 1);
    forall k | 0 <= k < |idx2|
      ensures idx2[k] < |[x] + s| && ([x] + r)[k] == ([x] + s)[idx2[k]]
    {
      if k > 0 {
        assert idx2[k] == idx[k - 1] + 1;
      }
    }
    assert Picks(idx2, [x] + r, [x] + s);
  }

  lemma SubsequenceSkip<T>(r: seq<T>, s: seq<T>, x: T)
    requires SubsequenceOf(r, s)
    ensures SubsequenceOf(r, [x] + s)
  {
    var idx: seq<nat> :| Picks(idx, r, s);
    var idx2: seq<nat> := seq(|idx|, k requires 0 <= k < |idx| => idx[k] + 1);
    forall k | 0 <= k < |idx2|
      ensures idx2[k] < |[x] + s| && r[k] == ([x] + s)[idx2[k]]
    {
      assert idx2[k] == idx[k] + 1;
    }
    assert Picks(idx2, r, [x] + s);
  }

  function AliveBody(b: Body): bool { b.alive }
  function AliveHerbivore(h: Herbivore): bool { h.body.alive }
  function AlivePredator(p: Predator): bool { p.body.alive }

  function Flags(bodies: seq<Body>): (live: seq<bool>)
    ensures |live| == |bodies| && forall i :: 0 <= i < |bodies| ==> live[i] == bodies[i].alive
  {
    seq(|bodies|, i requires 0 <= i < |bodies| => bodies[i].alive)
  }

  function HerbivoreBodies(hs: seq<Herbivore>): (bodies: seq<Body>)
    ensures |bodies| == |hs| && forall i :: 0 <= i < |hs| ==> bodies[i] == hs[i].body
  {
    seq(|hs|, i requires 0 <= i < |hs| => hs[i].body)
  }

  /** `entity.alive = False` on the entity an eat call reported, if any. */
  function Kill(bodies: seq<Body>, victim: Option<nat>): (r: seq<Body>)
    ensures |r| == |bodies|
  {
    if victim.Some? && victim.value < |bodies| then bodies[victim.value := bodies[victim.value].(alive := false)]
    else bodies
  }

  function Slay(hs: seq<Herbivore>, victim: Option<nat>): (r: seq<Herbivore>)
    ensures |r| == |hs|
  {
    if victim.Some? && victim.value < |hs| then hs[victim.value := hs[victim.value].(body := hs[victim.value].body.(alive := false))]
    else hs
  }

  function Dropped(dropping: Option<Body>): seq<Body> {
    if dropping.Some? then [dropping.value] else []
  }

  // ---------------------------------------------------------------------
  // Building the per-phase index
  // ---------------------------------------------------------------------

  /** The entries an index over bodies[..n] ought to hold: the live bodies inside the field, by index. */
  function Indexable(bodies: seq<Body>, n: nat): (es: seq<Entry>)
    requires n <= |bodies|
  {
    if n == 0 then []
    else
      var b := bodies[n - 1];
      Indexable(bodies, n - 1) + (if b.alive && Contains(FIELD, b.x, b.y) then [Entry(n - 1, b.x, b.y)] else [])
  }

  /**
   * The loop `for g in self.grass: if g.alive: quadtree.insert(g)` over
   * bodies[..n]: the False of an out-of-field insert is ignored; a
   * recursion fault ends it with None.
   */
  function Index(bodies: seq<Body>, n: nat, depth: nat): (r: Option<Tree>)
    requires n <= |bodies|
    ensures r.Some? ==> Valid(r.value, QUADTREE_CAPACITY) && r.value.bounds == FIELD
  {
    if n == 0 then
      EmptyValid(FIELD, QUADTREE_CAPACITY);
      Some(Empty(FIELD))
    else
      IndexStep(Index(bodies, n - 1, depth), n - 1, bodies[n - 1], depth)
  }

  /** A built index is well formed over the field and holds exactly the indexable entries. */
  lemma {:induction false} IndexHoldsIndexable(bodies: seq<Body>, n: nat, depth: nat)
    requires n <= |bodies| && Index(bodies, n, depth).Some?
    ensures Valid(Index(bodies, n, depth).value, QUADTREE_CAPACITY) && Index(bodies, n, depth).value.bounds == FIELD
    ensures multiset(Elements(Index(bodies, n, depth).value)) == multiset(Indexable(bodies, n))
  {
    if n > 0 {
      var prev := Index(bodies, n - 1, depth);
      var b := bodies[n - 1];
      assert Index(bodies, n, depth) == IndexStep(prev, n - 1, b, depth);
      assert prev.Some?;
      IndexHoldsIndexable(bodies, n - 1, depth);
      var t := prev.value;
      assert Valid(t, QUADTREE_CAPACITY) && t.bounds == FIELD;
      IndexStepAdds(t, n - 1, b, depth);
      var added := if b.alive && Contains(FIELD, b.x, b.y) then [Entry(n - 1, b.x, b.y)] else [];
      assert multiset(added) ==
        if b.alive && Contains(FIELD, b.x, b.y) then multiset{Entry(n - 1, b.x, b.y)} else multiset{};
      assert Indexable(bodies, n) == Indexable(bodies, n - 1) + added;
      assert multiset(Indexable(bodies, n)) == multiset(Indexable(bodies, n - 1)) + multiset(added);
    }
  }

  /** One iteration of that loop: index body `b`, the `id`-th of its list, if it is alive. */
  function IndexStep(acc: Option<Tree>, id: nat, b: Body, depth: nat): (r: Option<Tree>)
    requires acc.Some? ==> Valid(acc.value, QUADTREE_CAPACITY) && acc.value.bounds == FIELD
    ensures acc.None? ==> r.None?
    ensures r.Some? ==> Valid(r.value, QUADTREE_CAPACITY) && r.value.bounds == FIELD
  {
    match acc
    case None => None
    case Some(t) =>
      if !b.alive then Some(t)
      else
        match Inserted(t, Entry(id, b.x, b.y), QUADTREE_CAPACITY, depth)
        case Outside => Some(t)
        case Placed(t') => Some(t')
        case DepthExceeded => None
  }

  /** A successful step adds exactly the body's entry when it is alive and inside the field, and nothing else. */
  lemma IndexStepAdds(t: Tree, id: nat, b: Body, depth: nat)
    requires Valid(t, QUADTREE_CAPACITY) && t.bounds == FIELD
    requires IndexStep(Some(t), id, b, depth).Some?
    ensures multiset(Elements(IndexStep(Some(t), id, b, depth).value)) == multiset(Elements(t)) +
      (if b.alive && Contains(FIELD, b.x, b.y) then multiset{Entry(id, b.x, b.y)} else multiset{})
  {
  }

  method BuildIndex(bodies: seq<Body>, depth: nat) returns (r: Option<Tree>)
    ensures r == Index(bodies, |bodies|, depth)
  {
    EmptyValid(FIELD, QUADTREE_CAPACITY);
    r := Some(Empty(FIELD));
    var i := 0;
    while i < |bodies| && r.Some?
      invariant 0 <= i <= |bodies|
      invariant r == Index(bodies, i, depth)
    {
      ghost var before := r;
      r := IndexOne(r.value, i, bodies[i], depth);
      assert r == IndexStep(before, i, bodies[i], depth);
      i := i + 1;
    }
    if i < |bodies| {
      FaultIsFinal(bodies, i, |bodies|, depth);
    }
  }

  method IndexOne(t: Tree, id: nat, b: Body, depth: nat) returns (r: Option<Tree>)
    requires Valid(t, QUADTREE_CAPACITY) && t.bounds == FIELD
    ensures r == IndexStep(Some(t), id, b, depth)
  {
    if !b.alive {
      return Some(t);
    }
    var res := Insert(t, Entry(id, b.x, b.y), QUADTREE_CAPACITY, depth);
    match res
    case Outside => r := Some(t);
    case Placed(t') => r := Some(t');
    case DepthExceeded => r := None;
  }

  /** Once an insertion faults, the whole loop has faulted. */
  lemma {:induction false} FaultIsFinal(bodies: seq<Body>, k: nat, n: nat, depth: nat)
    requires k <= n <= |bodies| && Index(bodies, k, depth).None?
    ensures Index(bodies, n, depth).None?
    decreases n - k
  {
    if k < n {
      FaultIsFinal(bodies, k + 1, n, depth);
    }
  }

  /** The index holds exactly the live bodies inside the field, each at its own position. */
  lemma {:induction false} IndexableExactly(bodies: seq<Body>, n: nat, e: Entry)
    requires n <= |bodies|
    ensures e in Indexable(bodies, n) <==>
      e.id < n && bodies[e.id].alive && Contains(FIELD, bodies[e.id].x, bodies[e.id].y) &&
      e == Entry(e.id, bodies[e.id].x, bodies[e.id].y)
  {
    if n > 0 {
      IndexableExactly(bodies, n - 1, e);
    }
  }

  /** A live body outside the field is silently left out of the index, so no query ever returns it. */
  lemma OutOfFieldInvisible(bodies: seq<Body>, depth: nat, i: nat, live: seq<bool>, qx: real, qy: real, r: real)
    requires i < |bodies| && !Contains(FIELD, bodies[i].x, bodies[i].y)
    requires Index(bodies, |bodies|, depth).Some?
    ensures forall e :: e in Query(Index(bodies, |bodies|, depth).value, live, qx, qy, r) ==> e.id != i
  {
    var t := Index(bodies, |bodies|, depth).value;
    forall e | e in Query(t, live, qx, qy, r)
      ensures e.id != i
    {
      IndexHoldsIndexable(bodies, |bodies|, depth);
      QueryFindsExactlyHits(t, QUADTREE_CAPACITY, live, qx, qy, r, e);
      assert e in multiset(Elements(t));
      IndexableExactly(bodies, |bodies|, e);
    }
  }

  // ---------------------------------------------------------------------
  // Grass growth, the first part of update_all
  // ---------------------------------------------------------------------

  /** A live grass strictly within GRASS_SPAWN_RADIUS of feces `f`. */
  predicate Near(f: Body, g: Body) {
    g.alive && StrictlyWithin(f.x, f.y, g.x, g.y, GRASS_SPAWN_RADIUS)
  }

  /** A live feces with live grass near it: it turns into bonus grass. */
  predicate Fertile(f: Body, grass: seq<Body>) {
    f.alive && exists j :: 0 <= j < |grass| && Near(f, grass[j])
  }

  /** New live grass at the drawn positions. */
  function Planted(spots: seq<Vec>): seq<Body> {
    seq(|spots|, k requires 0 <= k < |spots| => Body(spots[k].x, spots[k].y, true))
  }

  /** New live grass at feces `f` plus each drawn offset; nothing keeps it on the field. */
  function Sprouts(f: Body, offsets: seq<Vec>): seq<Body> {
    seq(|offsets|, k requires 0 <= k < |offsets| => Body(f.x + offsets[k].x, f.y + offsets[k].y, true))
  }

  /** The bonus grass of the fertile feces among feces[..n], in feces order. */
  function Bonus(feces: seq<Body>, grass: seq<Body>, bonus: seq<seq<Vec>>, n: nat): seq<Body>
    requires n <= |feces| == |bonus|
  {
    if n == 0 then []
    else Bonus(feces, grass, bonus, n - 1) + (if Fertile(feces[n - 1], grass) then Sprouts(feces[n - 1], bonus[n - 1]) else [])
  }

  /** The feces list after the loop has marked every fertile feces dead. */
  function Converted(feces: seq<Body>, grass: seq<Body>): seq<Body> {
    seq(|feces|, i requires 0 <= i < |feces| => if Fertile(feces[i], grass) then feces[i].(alive := false) else feces[i])
  }

  /**
   * Grass growth: the live grass, then the spawned grass, then the bonus
   * grass; the feces that turned into grass and the dead ones are dropped.
   */
  function GrassGrown(w: World, spawn: seq<Vec>, bonus: seq<seq<Vec>>): (r: World)
    requires |bonus| == |w.feces|
    ensures r.herbivores == w.herbivores && r.predators == w.predators
  {
    w.(grass := Filter(w.grass, AliveBody) + Planted(spawn) + Bonus(w.feces, w.grass, bonus, |w.feces|),
       feces := Filter(Converted(w.feces, w.grass), AliveBody))
  }

  /** The inner loop of the grass block: is there live grass strictly within GRASS_SPAWN_RADIUS of `f`? */
  method HasNearGrass(f: Body, grass: seq<Body>) returns (near: bool)
    ensures near <==> exists j :: 0 <= j < |grass| && Near(f, grass[j])
  {
    var j := 0;
    while j < |grass|
      invariant 0 <= j <= |grass|
      invariant forall m :: 0 <= m < j ==> !Near(f, grass[m])
    {
      if grass[j].alive && StrictlyWithin(f.x, f.y, grass[j].x, grass[j].y, GRASS_SPAWN_RADIUS) {
        return true;
      }
      j := j + 1;
    }
    return false;
  }

  function FertileCount(feces: seq<Body>, grass: seq<Body>, n: nat): nat
    requires n <= |feces|
  {
    if n == 0 then 0 else FertileCount(feces, grass, n - 1) + (if Fertile(feces[n - 1], grass) then 1 else 0)
  }

  /** Each fertile feces yields exactly GRASS_SPAWN_BONUS bonus grass. */
  lemma {:induction false} BonusCount(feces: seq<Body>, grass: seq<Body>, bonus: seq<seq<Vec>>, n: nat)
    requires n <= |feces| == |bonus|
    requires forall i :: 0 <= i < |bonus| ==> |bonus[i]| == GRASS_SPAWN_BONUS
    ensures |Bonus(feces, grass, bonus, n)| == GRASS_SPAWN_BONUS * FertileCount(feces, grass, n)
  {
    if n > 0 {
      BonusCount(feces, grass, bonus, n - 1);
    }
  }

  /**
   * Grass growth: afterwards every grass and every feces is alive; exactly
   * GRASS_SPAWN_PER_ROUND grass are spawned and GRASS_SPAWN_BONUS more per
   * fertile feces; a feces is kept iff it was alive and not fertile.
   */
  lemma GrassGrowthContract(w: World, spawn: seq<Vec>, bonus: seq<seq<Vec>>)
    requires |spawn| == GRASS_SPAWN_PER_ROUND && |bonus| == |w.feces|
    requires forall i :: 0 <= i < |bonus| ==> |bonus[i]| == GRASS_SPAWN_BONUS
    ensures
      var r := GrassGrown(w, spawn, bonus);
      (forall g :: g in r.grass ==> g.alive) && (forall f :: f in r.feces ==> f.alive) &&
      |r.grass| == |Filter(w.grass, AliveBody)| + GRASS_SPAWN_PER_ROUND +
        GRASS_SPAWN_BONUS * FertileCount(w.feces, w.grass, |w.feces|) &&
      (forall f :: f in r.feces <==> f in w.feces && f.alive && !Fertile(f, w.grass))
  {
    BonusCount(w.feces, w.grass, bonus, |w.feces|);
    var r := GrassGrown(w, spawn, bonus);
    forall g | g in r.grass
      ensures g.alive
    {
      if g in Bonus(w.feces, w.grass, bonus, |w.feces|) {
        BonusAlive(w.feces, w.grass, bonus, |w.feces|);
      }
    }
    var c := Converted(w.feces, w.grass);
    forall f
      ensures f in r.feces <==> f in w.feces && f.alive && !Fertile(f, w.grass)
    {
      if f in w.feces && f.alive && !Fertile(f, w.grass) {
        var i :| 0 <= i < |w.feces| && w.feces[i] == f;
        assert c[i] == f;
      }
      if f in c && f.alive {
        var i :| 0 <= i < |c| && c[i] == f;
        assert w.feces[i] == f;
      }
    }
  }

  lemma {:induction false} BonusAlive(feces: seq<Body>, grass: seq<Body>, bonus: seq<seq<Vec>>, n: nat)
    requires n <= |feces| == |bonus|
    ensures forall g :: g in Bonus(feces, grass, bonus, n) ==> g.alive
  {
    if n > 0 {
      BonusAlive(feces, grass, bonus, n - 1);
    }
  }

  /**
   * Bonus grass is not kept on the field: feces at (1, 1) next to live
   * grass at (2, 1), with offsets (-3, -3) and (0, 0), puts live grass at
   * (-2, -2), which no index will ever hold.
   */
  lemma BonusCanLeaveField(w: World, spawn: seq<Vec>, bonus: seq<seq<Vec>>)
    requires w.grass == [Body(2.0, 1.0, true)] && w.feces == [Body(1.0, 1.0, true)]
    requires bonus == [[Vec(-3.0, -3.0), Vec(0.0, 0.0)]]
    ensures Body(-2.0, -2.0, true) in GrassGrown(w, spawn, bonus).grass && !Contains(FIELD, -2.0, -2.0)
  {
    ExampleBonus(w, bonus);
    BonusIsGrown(w, spawn, bonus, Body(-2.0, -2.0, true));
  }

  lemma ExampleBonus(w: World, bonus: seq<seq<Vec>>)
    requires w.grass == [Body(2.0, 1.0, true)] && w.feces == [Body(1.0, 1.0, true)]
    requires bonus == [[Vec(-3.0, -3.0), Vec(0.0, 0.0)]]
    ensures Body(-2.0, -2.0, true) in Bonus(w.feces, w.grass, bonus, |w.feces|)
  {
    ExampleFertile(w);
    SingleFecesBonus(w.feces, w.grass, bonus);
    SproutAt(w.feces[0], bonus[0]);
  }

  lemma ExampleFertile(w: World)
    requires w.grass == [Body(2.0, 1.0, true)] && w.feces == [Body(1.0, 1.0, true)]
    ensures Fertile(w.feces[0], w.grass)
  {
    assert Near(w.feces[0], w.grass[0]);
  }

  lemma SingleFecesBonus(feces: seq<Body>, grass: seq<Body>, bonus: seq<seq<Vec>>)
    requires |feces| == 1 == |bonus| && Fertile(feces[0], grass)
    ensures Bonus(feces, grass, bonus, |feces|) == Sprouts(feces[0], bonus[0])
  {
    assert Bonus(feces, grass, bonus, 1) == [] + Sprouts(feces[0], bonus[0]);
  }

  lemma SproutAt(f: Body, offsets: seq<Vec>)
    requires f == Body(1.0, 1.0, true) && offsets == [Vec(-3.0, -3.0), Vec(0.0, 0.0)]
    ensures Body(-2.0, -2.0, true) in Sprouts(f, offsets)
  {
    assert Sprouts(f, offsets)[0] == Body(-2.0, -2.0, true);
  }

  lemma BonusIsGrown(w: World, spawn: seq<Vec>, bonus: seq<seq<Vec>>, g: Body)
    requires |bonus| == |w.feces| && g in Bonus(w.feces, w.grass, bonus, |w.feces|)
    ensures g in GrassGrown(w, spawn, bonus).grass
  {
  }

  // ---------------------------------------------------------------------
  // The herbivore phase: update_herbivores
  // ---------------------------------------------------------------------

  /** The lists the herbivore loop changes, and the offspring it gathers. */
  datatype Grazing = Grazing(grass: seq<Body>, herbivores: seq<Herbivore>, feces: seq<Body>, born: seq<Herbivore>)

  predicate HerbivoreDrawsFit(hs: seq<Herbivore>, draws: seq<AgentDraws>) {
    |draws| == |hs| && forall i :: 0 <= i < |draws| ==> BirthsReady(draws[i].births, HERBIVORE_REPRODUCTION_COUNT)
  }

  predicate PredatorDrawsFit(ps: seq<Predator>, draws: seq<AgentDraws>) {
    |draws| == |ps| && forall i :: 0 <= i < |draws| ==> BirthsReady(draws[i].births, PREDATOR_REPRODUCTION_COUNT)
  }

  /** The loop over herbivores[..n]: each live one moves, then eats, against the same grass index. */
  function Graze(index: Tree, w: World, draws: seq<AgentDraws>, norm: Vec -> Vec, n: nat): (g: Grazing)
    requires HerbivoreDrawsFit(w.herbivores, draws) && n <= |w.herbivores|
    ensures |g.grass| == |w.grass| && |g.herbivores| == |w.herbivores| && g.herbivores[n..] == w.herbivores[n..]
  {
    if n == 0 then Grazing(w.grass, w.herbivores, w.feces, [])
    else
      var g := Graze(index, w, draws, norm, n - 1);
      assert g.herbivores[n - 1..][1..] == g.herbivores[n..];
      GrazeStep(index, g, n - 1, draws[n - 1], norm)
  }

  /** One iteration of that loop, for the herbivore at index i. */
  function GrazeStep(index: Tree, g: Grazing, i: nat, draw: AgentDraws, norm: Vec -> Vec): (next: Grazing)
    requires i < |g.herbivores| && BirthsReady(draw.births, HERBIVORE_REPRODUCTION_COUNT)
    ensures |next.grass| == |g.grass| && |next.herbivores| == |g.herbivores|
    ensures next.herbivores[i + 1..] == g.herbivores[i + 1..]
  {
    var h := g.herbivores[i];
    if !h.body.alive then g
    else
      var live := Flags(g.grass);
      var moved := HerbivoreMoved(h, index, live, norm, draw.redirect);
      var meal := HerbivoreFed(moved, index, live, draw.births);
      Grazing(Kill(g.grass, meal.eaten), g.herbivores[i := meal.herbivore],
              g.feces + Dropped(meal.dropping), g.born + meal.offspring)
  }

  /** Grass created at each drawn position, in order. */
  method PlantAll(spots: seq<Vec>) returns (planted: seq<Body>)
    ensures planted == Planted(spots)
  {
    planted := [];
    var k := 0;
    while k < |spots|
      invariant 0 <= k <= |spots| && planted == Planted(spots)[..k]
    {
      assert Planted(spots)[..k + 1] == Planted(spots)[..k] + [Body(spots[k].x, spots[k].y, true)];
      planted := planted + [Body(spots[k].x, spots[k].y, true)];
      k := k + 1;
    }
    assert Planted(spots)[..k] == Planted(spots);
  }

  /** The loop of update_herbivores over the whole herbivore list. */
  method GrazeAll(index: Tree, w: World, draws: seq<AgentDraws>, norm: Vec -> Vec) returns (g: Grazing)
    requires HerbivoreDrawsFit(w.herbivores, draws)
    ensures g == Graze(index, w, draws, norm, |w.herbivores|)
  {
    g := Grazing(w.grass, w.herbivores, w.feces, []);
    var i := 0;
    while i < |w.herbivores|
      invariant 0 <= i <= |w.herbivores| && g == Graze(index, w, draws, norm, i)
    {
      g := GrazeOne(index, g, i, draws[i], norm);
      i := i + 1;
    }
  }

  method GrazeOne(index: Tree, g: Grazing, i: nat, draw: AgentDraws, norm: Vec -> Vec) returns (next: Grazing)
    requires i < |g.herbivores| && BirthsReady(draw.births, HERBIVORE_REPRODUCTION_COUNT)
    ensures next == GrazeStep(index, g, i, draw, norm)
  {
    var h := g.herbivores[i];
    if !h.body.alive {
      return g;
    }
    var live := Flags(g.grass);
    var moved := MoveHerbivore(h, index, live, norm, draw.redirect);
    var meal := EatHerbivore(moved, index, live, draw.births);
    next := Grazing(Kill(g.grass, meal.eaten), g.herbivores[i := meal.herbivore],
                    g.feces + Dropped(meal.dropping), g.born + meal.offspring);
  }

  /**
   * update_herbivores: index the live grass, run the loop, then keep the
   * live herbivores in order followed by the offspring. An index fault
   * ends the phase before it changes anything.
   */
  function HerbivorePhase(w: World, draws: seq<AgentDraws>, norm: Vec -> Vec, depth: nat): (r: World)
    requires HerbivoreDrawsFit(w.herbivores, draws)
    ensures r.predators == w.predators
  {
    match Index(w.grass, |w.grass|, depth)
    case None => w
    case Some(index) =>
      var g := Graze(index, w, draws, norm, |w.herbivores|);
      w.(grass := g.grass, herbivores := Filter(g.herbivores, AliveHerbivore) + g.born, feces := g.feces)
  }

  /** Grass only dies, and stays where it is. */
  predicate OnlyDied(before: seq<Body>, after: seq<Body>) {
    |after| == |before| &&
    forall j :: 0 <= j < |before| ==> after[j] == before[j] || after[j] == before[j].(alive := false)
  }

  /** The herbivore loop: grass only dies. */
  lemma {:induction false} GrazeOnlyKillsGrass(index: Tree, w: World, draws: seq<AgentDraws>, norm: Vec -> Vec, n: nat)
    requires HerbivoreDrawsFit(w.herbivores, draws) && n <= |w.herbivores|
    ensures OnlyDied(w.grass, Graze(index, w, draws, norm, n).grass)
  {
    if n > 0 {
      GrazeOnlyKillsGrass(index, w, draws, norm, n - 1);
    }
  }

  /** The herbivore loop: feces are only appended. */
  lemma {:induction false} GrazeAppendsFeces(index: Tree, w: World, draws: seq<AgentDraws>, norm: Vec -> Vec, n: nat)
    requires HerbivoreDrawsFit(w.herbivores, draws) && n <= |w.herbivores|
    ensures |w.feces| <= |Graze(index, w, draws, norm, n).feces|
    ensures Graze(index, w, draws, norm, n).feces[..|w.feces|] == w.feces
  {
    if n > 0 {
      GrazeAppendsFeces(index, w, draws, norm, n - 1);
      var g := Graze(index, w, draws, norm, n - 1);
      assert forall more: seq<Body> :: (g.feces + more)[..|w.feces|] == g.feces[..|w.feces|];
    }
  }

  /** The herbivore loop: no herbivore changes liveness. */
  lemma {:induction false} GrazeKeepsHerdAlive(index: Tree, w: World, draws: seq<AgentDraws>, norm: Vec -> Vec, n: nat)
    requires HerbivoreDrawsFit(w.herbivores, draws) && n <= |w.herbivores|
    ensures forall i :: 0 <= i < |w.herbivores| ==>
      Graze(index, w, draws, norm, n).herbivores[i].body.alive == w.herbivores[i].body.alive
  {
    if n > 0 {
      GrazeKeepsHerdAlive(index, w, draws, norm, n - 1);
      var g := Graze(index, w, draws, norm, n - 1);
      var next := Graze(index, w, draws, norm, n);
      assert next == GrazeStep(index, g, n - 1, draws[n - 1], norm);
      var h := g.herbivores[n - 1];
      if h.body.alive {
        var live := Flags(g.grass);
        var moved := HerbivoreMoved(h, index, live, norm, draws[n - 1].redirect);
        var meal := HerbivoreFed(moved, index, live, draws[n - 1].births);
        MealKeepsAlive(moved, index, live, draws[n - 1].births);
        assert meal.herbivore.body.alive == h.body.alive;
        assert next.herbivores == g.herbivores[n - 1 := meal.herbivore];
      }
    }
  }

  /** Every herbivore born in the herbivore loop is alive. */
  lemma {:induction false} GrazeBornAlive(index: Tree, w: World, draws: seq<AgentDraws>, norm: Vec -> Vec, n: nat)
    requires HerbivoreDrawsFit(w.herbivores, draws) && n <= |w.herbivores|
    ensures forall k :: 0 <= k < |Graze(index, w, draws, norm, n).born| ==> Graze(index, w, draws, norm, n).born[k].body.alive
  {
    if n > 0 {
      GrazeBornAlive(index, w, draws, norm, n - 1);
      var g := Graze(index, w, draws, norm, n - 1);
      assert Graze(index, w, draws, norm, n) == GrazeStep(index, g, n - 1, draws[n - 1], norm);
      GrazeStepBornAlive(index, g, n - 1, draws[n - 1], norm);
    }
  }

  /** One step of the herbivore loop adds only live young. */
  lemma GrazeStepBornAlive(index: Tree, g: Grazing, i: nat, draw: AgentDraws, norm: Vec -> Vec)
    requires i < |g.herbivores| && BirthsReady(draw.births, HERBIVORE_REPRODUCTION_COUNT)
    requires forall k :: 0 <= k < |g.born| ==> g.born[k].body.alive
    ensures forall k :: 0 <= k < |GrazeStep(index, g, i, draw, norm).born| ==> GrazeStep(index, g, i, draw, norm).born[k].body.alive
  {
    var next := GrazeStep(index, g, i, draw, norm);
    var h := g.herbivores[i];
    if h.body.alive {
      var live := Flags(g.grass);
      var moved := HerbivoreMoved(h, index, live, norm, draw.redirect);
      var meal := HerbivoreFed(moved, index, live, draw.births);
      MealKeepsAlive(moved, index, live, draw.births);
      assert next.born == g.born + meal.offspring;
      forall k | 0 <= k < |next.born|
        ensures next.born[k].body.alive
      {
        if k >= |g.born| {
          assert next.born[k] == meal.offspring[k - |g.born|];
        }
      }
    }
  }

  /**
   * update_herbivores: once the grass index is built, every herbivore left
   * in the list is alive, whatever dead ones the predators left in it; an
   * index fault changes nothing. Grass only dies; the feces list only grows
   * at its end; the predators are untouched.
   */
  lemma HerbivorePhaseContract(w: World, draws: seq<AgentDraws>, norm: Vec -> Vec, depth: nat)
    requires HerbivoreDrawsFit(w.herbivores, draws)
    ensures
      var r := HerbivorePhase(w, draws, norm, depth);
      (Index(w.grass, |w.grass|, depth).Some? ==> forall h :: h in r.herbivores ==> h.body.alive) &&
      (Index(w.grass, |w.grass|, depth).None? ==> r == w) &&
      OnlyDied(w.grass, r.grass) &&
      |w.feces| <= |r.feces| && r.feces[..|w.feces|] == w.feces &&
      r.predators == w.predators
  {
    match Index(w.grass, |w.grass|, depth)
    case None =>
      assert forall j :: 0 <= j < |w.grass| ==> w.grass[j] == w.grass[j];
    case Some(index) =>
      GrazeOnlyKillsGrass(index, w, draws, norm, |w.herbivores|);
      GrazeAppendsFeces(index, w, draws, norm, |w.herbivores|);
      GrazeBornAlive(index, w, draws, norm, |w.herbivores|);
      var g := Graze(index, w, draws, norm, |w.herbivores|);
      forall h | h in g.born
        ensures h.body.alive
      {
        var k :| 0 <= k < |g.born| && g.born[k] == h;
      }
  }

  /**
   * Live grass that lies outside the field is never eaten: the herbivore
   * phase leaves it exactly as it was.
   */
  lemma {:induction false} GrazingSparesOutOfField(index: Tree, w: World, draws: seq<AgentDraws>, norm: Vec -> Vec,
                                                   depth: nat, n: nat, j: nat)
    requires HerbivoreDrawsFit(w.herbivores, draws) && n <= |w.herbivores|
    requires Index(w.grass, |w.grass|, depth) == Some(index)
    requires j < |w.grass| && !Contains(FIELD, w.grass[j].x, w.grass[j].y)
    ensures Graze(index, w, draws, norm, n).grass[j] == w.grass[j]
  {
    if n > 0 {
      GrazingSparesOutOfField(index, w, draws, norm, depth, n - 1, j);
      var g := Graze(index, w, draws, norm, n - 1);
      var h := g.herbivores[n - 1];
      if h.body.alive {
        var live := Flags(g.grass);
        var moved := HerbivoreMoved(h, index, live, norm, draws[n - 1].redirect);
        MealSparesOutOfField(w.grass, depth, index, moved, live, draws[n - 1].births, j);
      }
    }
  }

  /** A herbivore never eats grass the index left out for lying outside the field. */
  lemma MealSparesOutOfField(grass: seq<Body>, depth: nat, index: Tree, h: Herbivore, live: seq<bool>,
                             births: seq<Birth>, j: nat)
    requires BirthsReady(births, HERBIVORE_REPRODUCTION_COUNT)
    requires Index(grass, |grass|, depth) == Some(index)
    requires j < |grass| && !Contains(FIELD, grass[j].x, grass[j].y)
    ensures HerbivoreFed(h, index, live, births).eaten != Some(j)
  {
    var meal := HerbivoreFed(h, index, live, births);
    var found := Query(index, live, h.body.x, h.body.y, HERBIVORE_SIZE);
    HerbivoreEatsOneGrass(h, index, live, births, found);
    if meal.eaten.Some? {
      OutOfFieldInvisible(grass, depth, j, live, h.body.x, h.body.y, HERBIVORE_SIZE);
      var i :| 0 <= i < |found| && found[i].id == meal.eaten.value;
      assert found[i] in found;
    }
  }

  // ---------------------------------------------------------------------
  // The predator phase: update_predators
  // ---------------------------------------------------------------------

  datatype Hunting = Hunting(herbivores: seq<Herbivore>, predators: seq<Predator>, feces: seq<Body>, born: seq<Predator>)

  /** The loop over predators[..n]: each live one moves, eats and checks its hunger. */
  function Prowl(index: Tree, w: World, draws: seq<AgentDraws>, norm: Vec -> Vec, n: nat): (h: Hunting)
    requires PredatorDrawsFit(w.predators, draws) && n <= |w.predators|
    ensures |h.herbivores| == |w.herbivores| && |h.predators| == |w.predators| && h.predators[n..] == w.predators[n..]
  {
    if n == 0 then Hunting(w.herbivores, w.predators, w.feces, [])
    else
      var h := Prowl(index, w, draws, norm, n - 1);
      assert h.predators[n - 1..][1..] == h.predators[n..];
      ProwlStep(index, h, n - 1, draws[n - 1], norm)
  }

  /** One iteration of that loop, for the predator at index i. */
  function ProwlStep(index: Tree, h: Hunting, i: nat, draw: AgentDraws, norm: Vec -> Vec): (next: Hunting)
    requires i < |h.predators| && BirthsReady(draw.births, PREDATOR_REPRODUCTION_COUNT)
    ensures |next.herbivores| == |h.herbivores| && |next.predators| == |h.predators|
    ensures next.predators[i + 1..] == h.predators[i + 1..]
  {
    var p := h.predators[i];
    if !p.body.alive then h
    else
      var live := Flags(HerbivoreBodies(h.herbivores));
      var hunt := PredatorTurn(p, index, live, norm, draw.redirect, draw.births);
      Hunting(Slay(h.herbivores, hunt.kill), h.predators[i := hunt.predator],
              h.feces + Dropped(hunt.dropping), h.born + hunt.offspring)
  }

  /** The loop of update_predators over the whole predator list. */
  method ProwlAll(index: Tree, w: World, draws: seq<AgentDraws>, norm: Vec -> Vec) returns (h: Hunting)
    requires PredatorDrawsFit(w.predators, draws)
    ensures h == Prowl(index, w, draws, norm, |w.predators|)
  {
    h := Hunting(w.herbivores, w.predators, w.feces, []);
    var i := 0;
    while i < |w.predators|
      invariant 0 <= i <= |w.predators| && h == Prowl(index, w, draws, norm, i)
    {
      h := ProwlOne(index, h, i, draws[i], norm);
      i := i + 1;
    }
  }

  method ProwlOne(index: Tree, h: Hunting, i: nat, draw: AgentDraws, norm: Vec -> Vec) returns (next: Hunting)
    requires i < |h.predators| && BirthsReady(draw.births, PREDATOR_REPRODUCTION_COUNT)
    ensures next == ProwlStep(index, h, i, draw, norm)
  {
    var p := h.predators[i];
    if !p.body.alive {
      return h;
    }
    var live := Flags(HerbivoreBodies(h.herbivores));
    var moved := MovePredator(p, index, live, norm, draw.redirect);
    var hunt := EatPredator(moved, index, live, draw.births);
    next := Hunting(Slay(h.herbivores, hunt.kill), h.predators[i := HungerChecked(hunt.predator)],
                    h.feces + Dropped(hunt.dropping), h.born + hunt.offspring);
  }

  /** update_predators: index the live herbivores, run the loop, keep the live predators followed by the offspring. */
  function PredatorPhase(w: World, draws: seq<AgentDraws>, norm: Vec -> Vec, depth: nat): (r: World)
    requires PredatorDrawsFit(w.predators, draws)
    ensures r.grass == w.grass
  {
    match Index(HerbivoreBodies(w.herbivores), |w.herbivores|, depth)
    case None => w
    case Some(index) =>
      var h := Prowl(index, w, draws, norm, |w.predators|);
      w.(herbivores := h.herbivores, predators := Filter(h.predators, AlivePredator) + h.born, feces := h.feces)
  }

  /** Herbivores only die, and stay where they are. */
  predicate OnlySlain(before: seq<Herbivore>, after: seq<Herbivore>) {
    |after| == |before| &&
    forall i :: 0 <= i < |before| ==>
      after[i] == before[i] || after[i] == before[i].(body := before[i].body.(alive := false))
  }

  /** The predator loop: herbivores only die. */
  lemma {:induction false} ProwlOnlyKillsHerbivores(index: Tree, w: World, draws: seq<AgentDraws>, norm: Vec -> Vec, n: nat)
    requires PredatorDrawsFit(w.predators, draws) && n <= |w.predators|
    ensures OnlySlain(w.herbivores, Prowl(index, w, draws, norm, n).herbivores)
  {
    if n > 0 {
      ProwlOnlyKillsHerbivores(index, w, draws, norm, n - 1);
    }
  }

  /** The predator loop: feces are only appended. */
  lemma {:induction false} ProwlAppendsFeces(index: Tree, w: World, draws: seq<AgentDraws>, norm: Vec -> Vec, n: nat)
    requires PredatorDrawsFit(w.predators, draws) && n <= |w.predators|
    ensures |w.feces| <= |Prowl(index, w, draws, norm, n).feces|
    ensures Prowl(index, w, draws, norm, n).feces[..|w.feces|] == w.feces
  {
    if n > 0 {
      ProwlAppendsFeces(index, w, draws, norm, n - 1);
      var h := Prowl(index, w, draws, norm, n - 1);
      assert forall more: seq<Body> :: (h.feces + more)[..|w.feces|] == h.feces[..|w.feces|];
    }
  }

  /**
   * The predator loop keeps "digesting implies no target" for every
   * predator, and every newborn is alive and satisfies it.
   */
  lemma {:induction false} ProwlKeepsTargets(index: Tree, w: World, draws: seq<AgentDraws>, norm: Vec -> Vec, n: nat)
    requires PredatorDrawsFit(w.predators, draws) && n <= |w.predators|
    requires forall p :: p in w.predators ==> TargetConsistent(p)
    ensures forall p :: p in Prowl(index, w, draws, norm, n).predators ==> TargetConsistent(p)
    ensures forall p :: p in Prowl(index, w, draws, norm, n).born ==> TargetConsistent(p) && p.body.alive
  {
    if n == 0 {
      assert Prowl(index, w, draws, norm, 0).predators == w.predators;
    } else {
      ProwlKeepsTargets(index, w, draws, norm, n - 1);
      var h := Prowl(index, w, draws, norm, n - 1);
      var p := h.predators[n - 1];
      if p.body.alive {
        var live := Flags(HerbivoreBodies(h.herbivores));
        var hunt := PredatorTurn(p, index, live, norm, draws[n - 1].redirect, draws[n - 1].births);
        TurnKeepsTargetConsistent(p, index, live, norm, draws[n - 1].redirect, draws[n - 1].births);
        LitterAlive(p, index, live, norm, draws[n - 1].redirect, draws[n - 1].births);
        var h' := Prowl(index, w, draws, norm, n);
        assert h'.predators == h.predators[n - 1 := hunt.predator];
        assert h'.born == h.born + hunt.offspring;
      } else {
        assert Prowl(index, w, draws, norm, n) == h;
      }
    }
  }

  lemma LitterAlive(p: Predator, index: Tree, live: seq<bool>, norm: Vec -> Vec, redirect: Vec, births: seq<Birth>)
    requires BirthsReady(births, PREDATOR_REPRODUCTION_COUNT)
    ensures forall k :: 0 <= k < |PredatorTurn(p, index, live, norm, redirect, births).offspring| ==>
      PredatorTurn(p, index, live, norm, redirect, births).offspring[k].body.alive
  {
    var m := PredatorMoved(p, index, live, norm, redirect);
    var litter := PredatorLitter(m.body.x, m.body.y, births);
    assert forall k :: 0 <= k < |litter| ==> litter[k].body.alive;
  }

  /**
   * update_predators: afterwards every predator in the list is alive and
   * not both digesting and chasing; herbivores only die; the feces list
   * only grows at its end; the grass is untouched.
   */
  lemma PredatorPhaseContract(w: World, draws: seq<AgentDraws>, norm: Vec -> Vec, depth: nat)
    requires PredatorDrawsFit(w.predators, draws)
    requires forall i :: 0 <= i < |w.predators| ==> w.predators[i].body.alive && TargetConsistent(w.predators[i])
    ensures
      var r := PredatorPhase(w, draws, norm, depth);
      (forall p :: p in r.predators ==> p.body.alive && TargetConsistent(p)) &&
      OnlySlain(w.herbivores, r.herbivores) &&
      |w.feces| <= |r.feces| && r.feces[..|w.feces|] == w.feces &&
      r.grass == w.grass
  {
    match Index(HerbivoreBodies(w.herbivores), |w.herbivores|, depth)
    case None =>
      assert forall i :: 0 <= i < |w.herbivores| ==> w.herbivores[i] == w.herbivores[i];
    case Some(index) =>
      ProwlOnlyKillsHerbivores(index, w, draws, norm, |w.predators|);
      ProwlAppendsFeces(index, w, draws, norm, |w.predators|);
      ProwlKeepsTargets(index, w, draws, norm, |w.predators|);
      var h := Prowl(index, w, draws, norm, |w.predators|);
      forall p | p in Filter(h.predators, AlivePredator) + h.born
        ensures p.body.alive && TargetConsistent(p)
      {
        if p in h.born {
          var k :| 0 <= k < |h.born| && h.born[k] == p;
        } else {
          var i :| 0 <= i < |h.predators| && h.predators[i] == p;
        }
      }
  }

  // ---------------------------------------------------------------------
  // A whole tick: update_all
  // ---------------------------------------------------------------------

  /** Grass growth, then the herbivore phase, then the predator phase. */
  function Ticked(w: World, d: TickDraws, norm: Vec -> Vec, depth: nat): World
    requires DrawsFit(w, d)
  {
    var grown := GrassGrown(w, d.spawn, d.bonus);
    var grazed := HerbivorePhase(grown, d.herbivores, norm, depth);
    PredatorPhase(grazed, d.predators, norm, depth)
  }

  /** The condition under which update_all keeps `running` as it was. */
  predicate BothSpeciesAlive(w: World) {
    (exists i :: 0 <= i < |w.herbivores| && w.herbivores[i].body.alive) &&
    (exists i :: 0 <= i < |w.predators| && w.predators[i].body.alive)
  }

  /** A tick keeps every predator alive going into it sound: alive after the phase and not digesting while chasing. */
  lemma TickKeepsPredatorsSound(w: World, d: TickDraws, norm: Vec -> Vec, depth: nat)
    requires DrawsFit(w, d)
    requires forall p :: p in w.predators ==> p.body.alive && TargetConsistent(p)
    ensures forall p :: p in Ticked(w, d, norm, depth).predators ==> p.body.alive && TargetConsistent(p)
  {
    var grown := GrassGrown(w, d.spawn, d.bonus);
    var grazed := HerbivorePhase(grown, d.herbivores, norm, depth);
    assert grazed.predators == w.predators;
    PredatorPhaseContract(grazed, d.predators, norm, depth);
  }

  // ---------------------------------------------------------------------
  // History and controls
  // ---------------------------------------------------------------------

  /** The newest HISTORY_LIMIT snapshots, oldest first. */
  function Retained(states: seq<Snapshot>): (r: seq<Snapshot>)
    ensures |r| <= HISTORY_LIMIT && |r| <= |states| && r == states[|states| - |r|..]
    ensures |states| <= HISTORY_LIMIT ==> r == states
    ensures |states| > HISTORY_LIMIT ==> |r| == HISTORY_LIMIT
  {
    if |states| <= HISTORY_LIMIT then states else states[|states| - HISTORY_LIMIT..]
  }

  /**
   * Appending a snapshot to a history of at most HISTORY_LIMIT: the result
   * is at most HISTORY_LIMIT long and ends with the new snapshot; only when
   * the history was full is its oldest snapshot dropped.
   */
  lemma SaveEvictsOldest(states: seq<Snapshot>, s: Snapshot)
    requires |states| <= HISTORY_LIMIT
    ensures
      var r := Retained(states + [s]);
      |r| <= HISTORY_LIMIT && r[|r| - 1] == s &&
      (|states| < HISTORY_LIMIT ==> r == states + [s]) &&
      (|states| == HISTORY_LIMIT ==> r == states[1..] + [s])
  {
  }

  /** The first snapshot taken in round `round`, if any. */
  function FirstWithRound(states: seq<Snapshot>, round: int): (r: Option<Snapshot>)
    ensures r.None? <==> forall i :: 0 <= i < |states| ==> states[i].round != round
    ensures r.Some? ==> (r.value.round == round &&
      exists i :: 0 <= i < |states| && states[i] == r.value && (forall j :: 0 <= j < i ==> states[j].round != round))
  {
    if states == [] then None
    else if states[0].round == round then Some(states[0])
    else
      var r := FirstWithRound(states[1..], round);
      assert forall i :: 0 < i < |states| ==> states[i] == states[1..][i - 1];
      r
  }

  function MinInt(a: int, b: int): int { if a <= b then a else b }
  function MaxInt(a: int, b: int): int { if a >= b then a else b }

  /** `adjust_speed`: one step up, capped at 100, or one step down, floored at 1. */
  function SpeedAfter(speed: int, increase: bool): (r: int)
    ensures increase ==> r <= 100 && r <= speed + 1
    ensures !increase ==> r >= 1 && r >= speed - 1
  {
    if increase then MinInt(speed + 1, 100) else MaxInt(speed - 1, 1)
  }

  /** A speed in [1, 100] stays there, moving by one step unless it sits at the bound it moves toward. */
  lemma SpeedStaysInRange(speed: int, increase: bool)
    requires 1 <= speed <= 100
    ensures 1 <= SpeedAfter(speed, increase) <= 100
    ensures increase ==> SpeedAfter(speed, increase) == if speed == 100 then 100 else speed + 1
    ensures !increase ==> SpeedAfter(speed, increase) == if speed == 1 then 1 else speed - 1
  {
  }

  /** `max(1, int(30 / rounds_per_second))`: the number of rounds between snapshots. */
  function SnapshotInterval(roundsPerSecond: nat): (k: int)
    requires roundsPerSecond > 0
    ensures k >= 1 && (roundsPerSecond > 30 ==> k == 1)
  {
    MaxInt(1, 30 / roundsPerSecond)
  }

  // ---------------------------------------------------------------------
  // The Simulation object
  // ---------------------------------------------------------------------

  class Simulation {
    var grass: seq<Body>
    var herbivores: seq<Herbivore>
    var predators: seq<Predator>
    var feces: seq<Body>
    var states: seq<Snapshot>
    var currentRound: int
    var simulationRound: int
    var speed: int
    var running: bool
    var saveInterval: int

    /** The four entity lists, as one value. */
    function Current(): World
      reads this
    {
      World(grass, herbivores, predators, feces)
    }

    /** The counters and flags. */
    function Controls(): (int, int, int, bool, int)
      reads this
    {
      (currentRound, simulationRound, speed, running, saveInterval)
    }

    ghost predicate Valid()
      reads this
    {
      |states| <= HISTORY_LIMIT && 1 <= speed <= 100 && saveInterval >= 1 &&
      forall p :: p in predators ==> p.body.alive && TargetConsistent(p)
    }

    constructor()
      ensures Current() == World([], [], [], []) && states == []
      ensures currentRound == 0 && simulationRound == 0 && speed == 1 && running
      ensures saveInterval == SnapshotInterval(ROUNDS_PER_SECOND) && saveInterval == 1
      ensures Valid()
    {
      grass, herbivores, predators, feces := [], [], [], [];
      states := [];
      currentRound, simulationRound := 0, 0;
      speed := 1;
      running := true;
      saveInterval := SnapshotInterval(ROUNDS_PER_SECOND);
    }

    /**
     * `initialize`: add the initial grass, herbivores and predators (each
     * herbivore and predator placed by a Birth whose offset is taken from
     * the corner (0, 0)), then save a snapshot.
     */
    method Initialize(grassAt: seq<Vec>, herbivoresAt: seq<Birth>, predatorsAt: seq<Birth>)
      requires Valid()
      requires |grassAt| == INITIAL_GRASS_COUNT
      requires BirthsReady(herbivoresAt, INITIAL_HERBIVORE_COUNT) && BirthsReady(predatorsAt, INITIAL_PREDATOR_COUNT)
      modifies this
      ensures grass == old(grass) + Planted(grassAt)
      ensures herbivores == old(herbivores) + HerbivoreLitter(0.0, 0.0, herbivoresAt)
      ensures predators == old(predators) + PredatorLitter(0.0, 0.0, predatorsAt)
      ensures feces == old(feces)
      ensures states == Retained(old(states) + [Snapshot(Current(), simulationRound)])
      ensures Controls() == old(Controls()) && Valid()
    {
      var planted := PlantAll(grassAt);
      grass := grass + planted;
      var herd := SpawnHerbivores(0.0, 0.0, herbivoresAt);
      herbivores := herbivores + herd;
      var pack := SpawnPredators(0.0, 0.0, predatorsAt);
      assert forall k :: 0 <= k < |pack| ==> pack[k].body.alive && TargetConsistent(pack[k]);
      forall p | p in predators + pack
        ensures p.body.alive && TargetConsistent(p)
      {
        if p !in predators {
          var k :| 0 <= k < |pack| && pack[k] == p;
        }
      }
      predators := predators + pack;
      SaveState();
    }

    /** `save_state`: append a snapshot of the lists and the round, then drop the oldest beyond HISTORY_LIMIT. */
    method SaveState()
      modifies this
      ensures states == Retained(old(states) + [Snapshot(Current(), simulationRound)])
      ensures Current() == old(Current()) && Controls() == old(Controls())
    {
      var kept := states + [Snapshot(Current(), simulationRound)];
      ghost var all := kept;
      while |kept| > HISTORY_LIMIT
        invariant Retained(kept) == Retained(all)
        decreases |kept|
      {
        assert kept[1..][|kept| - 1 - HISTORY_LIMIT..] == kept[|kept| - HISTORY_LIMIT..];
        kept := kept[1..];
      }
      states := kept;
    }

    /** The grass part of `update_all`: spawn, convert fertile feces, drop the dead. */
    method GrowGrass(spawn: seq<Vec>, bonus: seq<seq<Vec>>)
      requires |bonus| == |feces|
      modifies this
      ensures Current() == GrassGrown(old(Current()), spawn, bonus)
      ensures states == old(states) && Controls() == old(Controls())
    {
      var newGrass := PlantAll(spawn);
      var fs := feces;
      var i := 0;
      while i < |fs|
        invariant unchanged(this)
        invariant |fs| == |feces| && 0 <= i <= |fs|
        invariant forall m :: 0 <= m < i ==> fs[m] == Converted(feces, grass)[m]
        invariant forall m :: i <= m < |fs| ==> fs[m] == feces[m]
        invariant newGrass == Planted(spawn) + Bonus(feces, grass, bonus, i)
      {
        if fs[i].alive {
          var near := HasNearGrass(fs[i], grass);
          if near {
            newGrass := newGrass + Sprouts(fs[i], bonus[i]);
            fs := fs[i := fs[i].(alive := false)];
          }
        }
        i := i + 1;
      }
      assert fs == Converted(feces, grass);
      grass := Filter(grass, AliveBody) + newGrass;
      feces := Filter(fs, AliveBody);
    }

    /** `update_herbivores`. */
    method UpdateHerbivores(depth: nat, norm: Vec -> Vec, draws: seq<AgentDraws>)
      requires HerbivoreDrawsFit(herbivores, draws)
      modifies this
      ensures Current() == HerbivorePhase(old(Current()), draws, norm, depth)
      ensures states == old(states) && Controls() == old(Controls())
    {
      var index := BuildIndex(grass, depth);
      if index.None? {
        return;
      }
      var g := GrazeAll(index.value, Current(), draws, norm);
      grass, herbivores, feces := g.grass, Filter(g.herbivores, AliveHerbivore) + g.born, g.feces;
    }

    /** `update_predators`. */
    method UpdatePredators(depth: nat, norm: Vec -> Vec, draws: seq<AgentDraws>)
      requires PredatorDrawsFit(predators, draws)
      modifies this
      ensures Current() == PredatorPhase(old(Current()), draws, norm, depth)
      ensures states == old(states) && Controls() == old(Controls())
    {
      var index := BuildIndex(HerbivoreBodies(herbivores), depth);
      if index.None? {
        return;
      }
      var h := ProwlAll(index.value, Current(), draws, norm);
      herbivores, predators, feces := h.herbivores, Filter(h.predators, AlivePredator) + h.born, h.feces;
    }

    /** `update_all`: grow grass, run both phases, stop when either species has died out. */
    method UpdateAll(depth: nat, norm: Vec -> Vec, d: TickDraws)
      requires DrawsFit(Current(), d)
      modifies this
      ensures Current() == Ticked(old(Current()), d, norm, depth)
      ensures running == (old(running) && BothSpeciesAlive(Current()))
      ensures states == old(states)
      ensures currentRound == old(currentRound) && simulationRound == old(simulationRound)
      ensures speed == old(speed) && saveInterval == old(saveInterval)
    {
      GrowGrass(d.spawn, d.bonus);
      UpdateHerbivores(depth, norm, d.herbivores);
      UpdatePredators(depth, norm, d.predators);
      var anyHerbivore := exists i :: 0 <= i < |herbivores| && herbivores[i].body.alive;
      var anyPredator := exists i :: 0 <= i < |predators| && predators[i].body.alive;
      if !anyHerbivore || !anyPredator {
        running := false;
      }
    }

    /**
     * `update`: nothing when stopped; otherwise a tick, the round counter
     * advanced, and a snapshot every `saveInterval` rounds.
     */
    method Update(depth: nat, norm: Vec -> Vec, d: TickDraws)
      requires Valid() && DrawsFit(Current(), d)
      modifies this
      ensures Valid()
      ensures !old(running) ==>
        Current() == old(Current()) && states == old(states) && Controls() == old(Controls())
      ensures old(running) ==>
        Current() == Ticked(old(Current()), d, norm, depth) &&
        simulationRound == old(simulationRound) + 1 &&
        running == BothSpeciesAlive(Current()) &&
        states == (if simulationRound % saveInterval == 0
                   then Retained(old(states) + [Snapshot(Current(), simulationRound)])
                   else old(states)) &&
        currentRound == old(currentRound) && speed == old(speed) && saveInterval == old(saveInterval)
    {
      if !running {
        return;
      }
      TickKeepsPredatorsSound(Current(), d, norm, depth);
      UpdateAll(depth, norm, d);
      simulationRound := simulationRound + 1;
      if simulationRound % saveInterval == 0 {
        SaveEvictsOldest(states, Snapshot(Current(), simulationRound));
        SaveState();
      }
    }

    /** `adjust_speed`. */
    method AdjustSpeed(increase: bool)
      requires Valid()
      modifies this
      ensures speed == SpeedAfter(old(speed), increase) && Valid()
      ensures Current() == old(Current()) && states == old(states)
      ensures currentRound == old(currentRound) && simulationRound == old(simulationRound)
      ensures running == old(running) && saveInterval == old(saveInterval)
    {
      SpeedStaysInRange(speed, increase);
      speed := SpeedAfter(speed, increase);
    }

    /** `stop`. */
    method Stop()
      modifies this
      ensures !running
      ensures Current() == old(Current()) && states == old(states)
      ensures currentRound == old(currentRound) && simulationRound == old(simulationRound)
      ensures speed == old(speed) && saveInterval == old(saveInterval)
    {
      running := false;
    }

    /** `get_current_state`: the first saved snapshot of that round, or None. */
    method GetCurrentState(roundNum: int) returns (s: Option<Snapshot>)
      ensures s == FirstWithRound(states, roundNum)
      ensures s.None? <==> forall i :: 0 <= i < |states| ==> states[i].round != roundNum
    {
      var i := 0;
      while i < |states|
        invariant 0 <= i <= |states|
        invariant FirstWithRound(states[i..], roundNum) == FirstWithRound(states, roundNum)
      {
        if states[i].round == roundNum {
          return Some(states[i]);
        }
        assert states[i..][1..] == states[i + 1..];
        i := i + 1;
      }
      return None;
    }
  }
}
