/**
 * The quadtree spatial index of entities.py: a recursive partition of the
 * rectangle [x, x + w) × [y, y + h). A leaf holds up to `cap` entries; when
 * an insertion finds a full leaf, the leaf subdivides into four equal
 * quadrants and pushes its entries down into them. A divided node holds no
 * entries itself, which the Leaf | Node shape states by construction.
 *
 * Entries are the indexed entities seen by value: the position of the
 * entity and its index in the list the tree was built from. Liveness is not
 * stored: queries read it from a list of flags at query time, as the source
 * reads `entity.alive` from the shared object.
 *
 * `depth` bounds how many levels an insertion may still descend. In exact
 * arithmetic, more than `cap` entries at one point make insertion subdivide
 * forever. In the source's floating point the halved quadrants stop
 * shrinking after some fifty levels: the children become empty rectangles,
 * every insertion into them fails, and `subdivide` ignores the failures, so
 * the coincident entities silently drop out of the index. Only a point at
 * exactly (0, 0) recurses until Python's recursion limit. The model stops at
 * the depth bound instead and reports DepthExceeded.
 */
module QuadTree {
  import opened Wrappers
  import opened Geometry

  /** An indexed entity: its index in the source list and its position. */
  datatype Entry = Entry(id: nat, x: real, y: real)

  datatype Tree =
    | Leaf(bounds: Rect, entries: seq<Entry>)
    | Node(bounds: Rect, nw: Tree, ne: Tree, sw: Tree, se: Tree)

  /** The outcome of `insert`: False, True with the new tree, or the recursion fault. */
  datatype InsertResult = Outside | Placed(tree: Tree) | DepthExceeded

  /** A fresh, undivided node with no entries. */
  function Empty(bounds: Rect): Tree {
    Leaf(bounds, [])
  }

  /**
   * The structural invariant: leaves hold at most `cap` entries, all inside
   * their rectangle, and the children of a divided node are the four
   * quadrants of its rectangle.
   */
  ghost predicate Valid(t: Tree, cap: nat) {
    match t
    case Leaf(b, es) =>
      |es| <= cap && forall e :: e in es ==> Contains(b, e.x, e.y)
    case Node(b, nw, ne, sw, se) =>
      nw.bounds == NW(b) && ne.bounds == NE(b) && sw.bounds == SW(b) && se.bounds == SE(b) &&
      Valid(nw, cap) && Valid(ne, cap) && Valid(sw, cap) && Valid(se, cap)
  }

  /** The stored entries, in the order a query visits them. */
  function Elements(t: Tree): seq<Entry> {
    match t
    case Leaf(_, es) => es
    case Node(_, nw, ne, sw, se) => Elements(nw) + Elements(ne) + Elements(sw) + Elements(se)
  }

  lemma EmptyValid(b: Rect, cap: nat)
    ensures Valid(Empty(b), cap) && Elements(Empty(b)) == []
  {
  }

  // ---------------------------------------------------------------------
  // Insertion, as functions: the specification of the methods below
  // ---------------------------------------------------------------------

  /**
   * `insert`: False for a point outside the node; otherwise the entry is
   * appended to an undivided node with room, or the node is subdivided (if
   * it is not yet) and the entry goes to the first child that accepts it.
   */
  function Inserted(t: Tree, e: Entry, cap: nat, depth: nat): (res: InsertResult)
    requires Valid(t, cap)
    ensures res.Outside? <==> !Contains(t.bounds, e.x, e.y)
    ensures res.Placed? ==>
      Valid(res.tree, cap) && res.tree.bounds == t.bounds && (t.Node? ==> res.tree.Node?) &&
      multiset(Elements(res.tree)) == multiset(Elements(t)) + multiset{e}
    decreases depth, if t.Leaf? then 4 else 1, 0
  {
    if !Contains(t.bounds, e.x, e.y) then Outside
    else if t.Leaf? && |t.entries| < cap then Placed(Leaf(t.bounds, t.entries + [e]))
    else
      var divided := if t.Leaf? then Split(t, cap, depth) else Some(t);
      match divided
      case None => DepthExceeded
      case Some(n) =>
        if depth == 0 then DepthExceeded else IntoChildren(n, e, cap, depth - 1, 0)
  }

  /** The child of a divided node in quadrant q (0 NW, 1 NE, 2 SW, 3 SE). */
  function Child(n: Tree, q: nat): Tree
    requires n.Node? && q < 4
  {
    if q == 0 then n.nw else if q == 1 then n.ne else if q == 2 then n.sw else n.se
  }

  /** The divided node with its child in quadrant q replaced by c. */
  function Graft(n: Tree, q: nat, c: Tree): Tree
    requires n.Node? && q < 4
  {
    if q == 0 then n.(nw := c) else if q == 1 then n.(ne := c) else if q == 2 then n.(sw := c) else n.(se := c)
  }

  lemma ChildValid(n: Tree, q: nat, cap: nat)
    requires n.Node? && q < 4 && Valid(n, cap)
    ensures Valid(Child(n, q), cap) && Child(n, q).bounds == Quadrant(n.bounds, q)
  {
  }

  /** Replacing one child by a valid tree over the same quadrant keeps the node valid and swaps that child's entries. */
  lemma GraftValid(n: Tree, q: nat, c: Tree, cap: nat, e: Entry)
    requires n.Node? && q < 4 && Valid(n, cap)
    requires Valid(c, cap) && c.bounds == Child(n, q).bounds
    requires multiset(Elements(c)) == multiset(Elements(Child(n, q))) + multiset{e}
    ensures Graft(n, q, c).Node? && Graft(n, q, c).bounds == n.bounds && Valid(Graft(n, q, c), cap)
    ensures multiset(Elements(Graft(n, q, c))) == multiset(Elements(n)) + multiset{e}
  {
    var b, nw, ne, sw, se := n.bounds, n.nw, n.ne, n.sw, n.se;
    var a, k, d, f := multiset(Elements(nw)), multiset(Elements(ne)), multiset(Elements(sw)), multiset(Elements(se));
    var m := multiset(Elements(c));
    assert multiset(Elements(n)) == a + k + d + f;
    if q == 0 {
      assert Graft(n, q, c) == Node(b, c, ne, sw, se);
      assert multiset(Elements(Node(b, c, ne, sw, se))) == m + k + d + f;
    } else if q == 1 {
      assert Graft(n, q, c) == Node(b, nw, c, sw, se);
      assert multiset(Elements(Node(b, nw, c, sw, se))) == a + m + d + f;
    } else if q == 2 {
      assert Graft(n, q, c) == Node(b, nw, ne, c, se);
      assert multiset(Elements(Node(b, nw, ne, c, se))) == a + k + m + f;
    } else {
      assert Graft(n, q, c) == Node(b, nw, ne, sw, c);
      assert multiset(Elements(Node(b, nw, ne, sw, c))) == a + k + d + m;
    }
  }

  /**
   * The `or` chain of `insert` on a divided node, from quadrant q on: the
   * children are tried in the order NW, NE, SW, SE, the first that accepts
   * the entry ends the chain, and a fault propagates.
   */
  function IntoChildren(n: Tree, e: Entry, cap: nat, depth: nat, q: nat): (res: InsertResult)
    requires n.Node? && Valid(n, cap) && Contains(n.bounds, e.x, e.y) && q < 4
    requires MissedBefore(n.bounds, e, q)
    ensures !res.Outside?
    ensures res.Placed? ==>
      Valid(res.tree, cap) && res.tree.bounds == n.bounds && res.tree.Node? &&
      multiset(Elements(res.tree)) == multiset(Elements(n)) + multiset{e}
    decreases depth + 1, 0, 4 - q
  {
    ChildValid(n, q, cap);
    QuadrantsPartition(n.bounds, e.x, e.y);
    match Inserted(Child(n, q), e, cap, depth)
    case Placed(c) =>
      GraftValid(n, q, c, cap, e);
      Placed(Graft(n, q, c))
    case DepthExceeded => DepthExceeded
    case Outside =>
      if q == 3 then Outside else IntoChildren(n, e, cap, depth, q + 1)
  }

  /** None of the quadrants before q contains the entry. */
  predicate MissedBefore(b: Rect, e: Entry, q: nat) {
    (q > 0 ==> !Contains(NW(b), e.x, e.y)) &&
    (q > 1 ==> !Contains(NE(b), e.x, e.y)) &&
    (q > 2 ==> !Contains(SW(b), e.x, e.y))
  }

  /** `subdivide`: four empty quadrants, then every held entry re-inserted through the divided node. */
  function Split(t: Tree, cap: nat, depth: nat): (res: Option<Tree>)
    requires t.Leaf? && Valid(t, cap)
    ensures res.Some? ==>
      res.value.Node? && Valid(res.value, cap) && res.value.bounds == t.bounds &&
      multiset(Elements(res.value)) == multiset(t.entries)
    decreases depth, 3, 0
  {
    var b := t.bounds;
    EmptyValid(NW(b), cap);
    EmptyValid(NE(b), cap);
    EmptyValid(SW(b), cap);
    EmptyValid(SE(b), cap);
    Redistribute(Node(b, Empty(NW(b)), Empty(NE(b)), Empty(SW(b)), Empty(SE(b))), t.entries, cap, depth)
  }

  /** The redistribution loop of `subdivide`, one entry at a time in list order. */
  function Redistribute(n: Tree, es: seq<Entry>, cap: nat, depth: nat): (res: Option<Tree>)
    requires n.Node? && Valid(n, cap)
    requires forall e :: e in es ==> Contains(n.bounds, e.x, e.y)
    ensures res.Some? ==>
      res.value.Node? && Valid(res.value, cap) && res.value.bounds == n.bounds &&
      multiset(Elements(res.value)) == multiset(Elements(n)) + multiset(es)
    decreases depth, 2, |es|
  {
    if es == [] then Some(n)
    else
      match Inserted(n, es[0], cap, depth)
      case Placed(c) =>
        assert es == [es[0]] + es[1..];
        Redistribute(c, es[1..], cap, depth)
      case _ => None
  }

  // ---------------------------------------------------------------------
  // Insertion, as the source performs it
  // ---------------------------------------------------------------------

  method Insert(t: Tree, e: Entry, cap: nat, depth: nat) returns (res: InsertResult)
    requires Valid(t, cap)
    ensures res == Inserted(t, e, cap, depth)
    ensures res.Outside? <==> !Contains(t.bounds, e.x, e.y)
    decreases depth, if t.Leaf? then 4 else 1, 0
  {
    if !Contains(t.bounds, e.x, e.y) {
      return Outside;
    }
    if t.Leaf? && |t.entries| < cap {
      return Placed(Leaf(t.bounds, t.entries + [e]));
    }
    var n := t;
    if t.Leaf? {
      var divided := Subdivide(t, cap, depth);
      if divided.None? {
        return DepthExceeded;
      }
      n := divided.value;
    }
    if depth == 0 {
      return DepthExceeded;
    }
    res := InsertIntoChildren(n, e, cap, depth - 1);
  }

  method InsertIntoChildren(n: Tree, e: Entry, cap: nat, depth: nat) returns (res: InsertResult)
    requires n.Node? && Valid(n, cap) && Contains(n.bounds, e.x, e.y)
    ensures res == IntoChildren(n, e, cap, depth, 0)
    decreases depth + 1, 0, 4
  {
    var q := 0;
    while true
      invariant q < 4
      invariant MissedBefore(n.bounds, e, q)
      invariant IntoChildren(n, e, cap, depth, q) == IntoChildren(n, e, cap, depth, 0)
      decreases 4 - q
    {
      ChildValid(n, q, cap);
      res := Insert(Child(n, q), e, cap, depth);
      if res.Placed? {
        return Placed(Graft(n, q, res.tree));
      } else if res.DepthExceeded? || q == 3 {
        return;
      }
      q := q + 1;
    }
  }

  method Subdivide(t: Tree, cap: nat, depth: nat) returns (res: Option<Tree>)
    requires t.Leaf? && Valid(t, cap)
    ensures res == Split(t, cap, depth)
    ensures res.Some? ==> multiset(Elements(res.value)) == multiset(t.entries)
    decreases depth, 3, 0
  {
    var b := t.bounds;
    EmptyValid(NW(b), cap);
    EmptyValid(NE(b), cap);
    EmptyValid(SW(b), cap);
    EmptyValid(SE(b), cap);
    var n := Node(b, Empty(NW(b)), Empty(NE(b)), Empty(SW(b)), Empty(SE(b)));
    var i := 0;
    while i < |t.entries|
      invariant 0 <= i <= |t.entries|
      invariant n.Node? && Valid(n, cap) && n.bounds == b
      invariant Redistribute(n, t.entries[i..], cap, depth) == Split(t, cap, depth)
    {
      var r := Insert(n, t.entries[i], cap, depth);
      assert t.entries[i..][1..] == t.entries[i + 1..];
      if !r.Placed? {
        return None;
      }
      n := r.tree;
      i := i + 1;
    }
    return Some(n);
  }

  // ---------------------------------------------------------------------
  // Radius query
  // ---------------------------------------------------------------------

  /** Whether the object at list position i is alive; `live` holds each object's flag by position. */
  predicate Alive(live: seq<bool>, i: nat) {
    i < |live| && live[i]
  }

  /** What a query reports: a live entry within distance r of (qx, qy). */
  predicate Hit(e: Entry, live: seq<bool>, qx: real, qy: real, r: real) {
    Alive(live, e.id) && WithinRadius(qx, qy, e.x, e.y, r)
  }

  /** The brute-force scan: the hits among es, in order. */
  function Matching(es: seq<Entry>, live: seq<bool>, qx: real, qy: real, r: real): (found: seq<Entry>)
    ensures forall e :: e in found <==> e in es && Hit(e, live, qx, qy, r)
    ensures |found| <= |es|
  {
    if es == [] then []
    else (if Hit(es[0], live, qx, qy, r) then [es[0]] else []) + Matching(es[1..], live, qx, qy, r)
  }

  /**
   * `query`: nothing when the closest point of the node's rectangle is out
   * of range; otherwise the node's own hits followed by those of the NW, NE,
   * SW and SE children.
   */
  function Query(t: Tree, live: seq<bool>, qx: real, qy: real, r: real): (found: seq<Entry>) {
    var c := Closest(t.bounds, qx, qy);
    if !WithinRadius(qx, qy, c.x, c.y, r) then []
    else
      match t
      case Leaf(_, es) => Matching(es, live, qx, qy, r)
      case Node(_, nw, ne, sw, se) =>
        Query(nw, live, qx, qy, r) + Query(ne, live, qx, qy, r) +
        Query(sw, live, qx, qy, r) + Query(se, live, qx, qy, r)
  }

  lemma {:induction false} MatchingAppend(a: seq<Entry>, b: seq<Entry>, live: seq<bool>, qx: real, qy: real, r: real)
    ensures Matching(a + b, live, qx, qy, r) == Matching(a, live, qx, qy, r) + Matching(b, live, qx, qy, r)
  {
    if a != [] {
      var head := if Hit(a[0], live, qx, qy, r) then [a[0]] else [];
      assert (a + b)[0] == a[0];
      assert (a + b)[1..] == a[1..] + b;
      MatchingAppend(a[1..], b, live, qx, qy, r);
      calc {
        Matching(a + b, live, qx, qy, r);
        head + Matching(a[1..] + b, live, qx, qy, r);
        head + (Matching(a[1..], live, qx, qy, r) + Matching(b, live, qx, qy, r));
        (head + Matching(a[1..], live, qx, qy, r)) + Matching(b, live, qx, qy, r);
        Matching(a, live, qx, qy, r) + Matching(b, live, qx, qy, r);
      }
    } else {
      assert a + b == b;
    }
  }

  /** Every stored entry lies inside the rectangle of the node that holds it. */
  lemma {:induction false} ElementsInBounds(t: Tree, cap: nat)
    requires Valid(t, cap)
    ensures forall e :: e in Elements(t) ==> Contains(t.bounds, e.x, e.y)
  {
    match t
    case Leaf(_, _) =>
    case Node(b, nw, ne, sw, se) =>
      ElementsInBounds(nw, cap);
      ElementsInBounds(ne, cap);
      ElementsInBounds(sw, cap);
      ElementsInBounds(se, cap);
      forall e | e in Elements(t)
        ensures Contains(b, e.x, e.y)
      {
        QuadrantsPartition(b, e.x, e.y);
      }
  }

  /**
   * The query returns exactly what a brute-force scan of the stored entries
   * returns, in the same order: pruning by the closest point never discards
   * a hit, whatever the capacity and the shape of the tree.
   */
  lemma {:induction false} QueryIsBruteForce(t: Tree, cap: nat, live: seq<bool>, qx: real, qy: real, r: real)
    requires Valid(t, cap)
    ensures Query(t, live, qx, qy, r) == Matching(Elements(t), live, qx, qy, r)
  {
    var c := Closest(t.bounds, qx, qy);
    if !WithinRadius(qx, qy, c.x, c.y, r) {
      ElementsInBounds(t, cap);
      var m := Matching(Elements(t), live, qx, qy, r);
      if m != [] {
        var e := m[0];
        assert e in Elements(t) && Hit(e, live, qx, qy, r);
        PruningSound(t.bounds, qx, qy, e.x, e.y, r);
        assert false;
      }
    } else {
      match t
      case Leaf(_, _) =>
      case Node(_, nw, ne, sw, se) =>
        QueryIsBruteForce(nw, cap, live, qx, qy, r);
        QueryIsBruteForce(ne, cap, live, qx, qy, r);
        QueryIsBruteForce(sw, cap, live, qx, qy, r);
        QueryIsBruteForce(se, cap, live, qx, qy, r);
        MatchingAppend(Elements(nw), Elements(ne), live, qx, qy, r);
        MatchingAppend(Elements(nw) + Elements(ne), Elements(sw), live, qx, qy, r);
        MatchingAppend(Elements(nw) + Elements(ne) + Elements(sw), Elements(se), live, qx, qy, r);
    }
  }

  /** Hence an entry is found iff it is stored, live and in range. */
  lemma QueryFindsExactlyHits(t: Tree, cap: nat, live: seq<bool>, qx: real, qy: real, r: real, e: Entry)
    requires Valid(t, cap)
    ensures e in Query(t, live, qx, qy, r) <==> e in Elements(t) && Hit(e, live, qx, qy, r)
  {
    QueryIsBruteForce(t, cap, live, qx, qy, r);
  }
}
