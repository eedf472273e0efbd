/** Region quadtree over screen-space points: each node covers an axis-aligned box given by its
    centre and half-extents, keeps up to `capacity` points of its own, and on overflow splits
    once into four quadrant children. */
module QuadTree {

  /** A point with its payload (the identity of the node drawn there). */
  datatype Point = Point(x: real, y: real, data: int)

  /** A box given by its centre (x, y) and its half-width w and half-height h. */
  datatype Rect = Rect(x: real, y: real, w: real, h: real)
  {
    /** Closed on all four edges. */
    predicate Contains(p: Point)
    {
      x - w <= p.x <= x + w && y - h <= p.y <= y + h
    }

    /** False exactly when the boxes are strictly separated along one axis. */
    predicate Intersects(range: Rect)
    {
      !(range.x - range.w > x + w ||
        range.x + range.w < x - w ||
        range.y - range.h > y + h ||
        range.y + range.h < y - h)
    }
  }

  /** The four quadrants `subdivide` creates, centred at (x +- w/2, y +- h/2). */
  function NorthWest(b: Rect): Rect { Rect(b.x - b.w / 2.0, b.y - b.h / 2.0, b.w / 2.0, b.h / 2.0) }
  function NorthEast(b: Rect): Rect { Rect(b.x + b.w / 2.0, b.y - b.h / 2.0, b.w / 2.0, b.h / 2.0) }
  function SouthWest(b: Rect): Rect { Rect(b.x - b.w / 2.0, b.y + b.h / 2.0, b.w / 2.0, b.h / 2.0) }
  function SouthEast(b: Rect): Rect { Rect(b.x + b.w / 2.0, b.y + b.h / 2.0, b.w / 2.0, b.h / 2.0) }

  /** A point inside a box lies inside at least one of its quadrants, and a point inside a
      quadrant lies inside the box: the quadrants cover the parent exactly. */
  lemma QuadrantsCover(b: Rect, p: Point)
    ensures b.Contains(p) <==>
            NorthEast(b).Contains(p) || NorthWest(b).Contains(p) ||
            SouthEast(b).Contains(p) || SouthWest(b).Contains(p)
  {
  }

  /** Two boxes that share a point intersect; this is what makes pruning a subtree whose box
      misses the query range safe. */
  lemma SharedPointIntersects(a: Rect, b: Rect, p: Point)
    requires a.Contains(p) && b.Contains(p)
    ensures a.Intersects(b) && b.Intersects(a)
  {
  }

  /** For boxes with non-negative extents, `Intersects` holds exactly when the closed boxes
      share a point, so boxes that only touch along an edge or a corner intersect. */
  lemma IntersectsIffSharedPoint(a: Rect, b: Rect)
    requires a.w >= 0.0 && a.h >= 0.0 && b.w >= 0.0 && b.h >= 0.0
    ensures a.Intersects(b) <==> exists p: Point :: a.Contains(p) && b.Contains(p)
  {
    if a.Intersects(b) {
      var px := if a.x - a.w >= b.x - b.w then a.x - a.w else b.x - b.w;
      var py := if a.y - a.h >= b.y - b.h then a.y - a.h else b.y - b.h;
      var p := Point(px, py, 0);
      assert a.Contains(p) && b.Contains(p);
    } else {
      forall p: Point ensures !(a.Contains(p) && b.Contains(p)) {
        if a.Contains(p) && b.Contains(p) {
          SharedPointIntersects(a, b, p);
        }
      }
    }
  }

  /** The payloads of the points of `ps` that `range` contains, in order. */
  function Matches(range: Rect, ps: seq<Point>): seq<int>
  {
    if |ps| == 0 then []
    else (if range.Contains(ps[0]) then [ps[0].data] else []) + Matches(range, ps[1..])
  }

  lemma {:induction false} MatchesAppend(range: Rect, a: seq<Point>, b: seq<Point>)
    ensures Matches(range, a + b) == Matches(range, a) + Matches(range, b)
  {
    if |a| == 0 {
      assert a + b == b;
    } else {
      assert (a + b)[0] == a[0];
      assert (a + b)[1..] == a[1..] + b;
      MatchesAppend(range, a[1..], b);
    }
  }

  lemma MatchesFive(range: Rect, a: seq<Point>, b: seq<Point>, c: seq<Point>, d: seq<Point>, e: seq<Point>)
    ensures Matches(range, a + b + c + d + e) ==
            Matches(range, a) + Matches(range, b) + Matches(range, c) + Matches(range, d) + Matches(range, e)
  {
    MatchesAppend(range, a, b);
    MatchesAppend(range, a + b, c);
    MatchesAppend(range, a + b + c, d);
    MatchesAppend(range, a + b + c + d, e);
  }

  /** Nothing matches in a list of points that all lie in a box the range misses. */
  lemma {:induction false} MatchesOutside(range: Rect, b: Rect, ps: seq<Point>)
    requires forall p :: p in ps ==> b.Contains(p)
    requires !b.Intersects(range)
    ensures Matches(range, ps) == []
  {
    if |ps| > 0 {
      if range.Contains(ps[0]) {
        SharedPointIntersects(b, range, ps[0]);
      }
      MatchesOutside(range, b, ps[1..]);
    }
  }

  /** How many points of `ps` carry payload `d` and lie in `range`. */
  function CountIn(range: Rect, ps: seq<Point>, d: int): nat
  {
    if |ps| == 0 then 0
    else (if range.Contains(ps[0]) && ps[0].data == d then 1 else 0) + CountIn(range, ps[1..], d)
  }

  /** `Matches` holds each payload exactly as often as the points carrying it that the range
      contains: no more, no fewer. */
  lemma {:induction false} MatchesExact(range: Rect, ps: seq<Point>, d: int)
    ensures multiset(Matches(range, ps))[d] == CountIn(range, ps, d)
  {
    if |ps| > 0 {
      MatchesExact(range, ps[1..], d);
    }
  }

  /** A quadtree node: its box, its capacity, the depth budget left below it, and the points it
      holds itself. A `Node` is a divided node and carries its four quadrant children. */
  datatype Tree =
    | Leaf(boundary: Rect, capacity: nat, depth: nat, points: seq<Point>)
    | Node(boundary: Rect, capacity: nat, depth: nat, points: seq<Point>,
           northwest: Tree, northeast: Tree, southwest: Tree, southeast: Tree)

  /** The result of an insertion: the updated tree and whether some node accepted the point. */
  datatype Inserted = Inserted(tree: Tree, ok: bool)

  /** `c` is a child of `t` for the quadrant `b`: same capacity, one level less of depth. */
  predicate ChildOf(c: Tree, t: Tree, b: Rect)
  {
    c.boundary == b && c.capacity == t.capacity && c.depth + 1 == t.depth
  }

  /** A node holds no more than its capacity, all of it inside its box, and is divided only
      once it is full and has depth to spare. */
  predicate LocalValid(t: Tree)
  {
    |t.points| <= t.capacity &&
    (forall q :: q in t.points ==> t.boundary.Contains(q)) &&
    (t.Node? ==> |t.points| == t.capacity && t.depth > 0)
  }

  /** The children of a divided node are for its four quadrants. */
  predicate Shape(t: Tree)
    requires t.Node?
  {
    ChildOf(t.northwest, t, NorthWest(t.boundary)) && ChildOf(t.northeast, t, NorthEast(t.boundary)) &&
    ChildOf(t.southwest, t, SouthWest(t.boundary)) && ChildOf(t.southeast, t, SouthEast(t.boundary))
  }

  /** Every node of the tree is locally valid and every divided node has the right shape. */
  predicate Valid(t: Tree)
  {
    LocalValid(t) &&
    (t.Node? ==> Shape(t) && Valid(t.northwest) && Valid(t.northeast) && Valid(t.southwest) && Valid(t.southeast))
  }

  /** Every point stored in the subtree, in the order `query` visits them: the node's own
      points, then the quadrants NW, NE, SW, SE. */
  function Elements(t: Tree): seq<Point>
  {
    if t.Node? then
      t.points + Elements(t.northwest) + Elements(t.northeast) + Elements(t.southwest) + Elements(t.southeast)
    else t.points
  }

  /** Every stored point lies in the root's box, because each quadrant lies in its parent. */
  lemma {:induction false} ElementsInside(t: Tree)
    requires Valid(t)
    ensures forall q :: q in Elements(t) ==> t.boundary.Contains(q)
  {
    if t.Node? {
      ElementsInside(t.northwest);
      ElementsInside(t.northeast);
      ElementsInside(t.southwest);
      ElementsInside(t.southeast);
      forall q | q in Elements(t) ensures t.boundary.Contains(q) {
        QuadrantsCover(t.boundary, q);
      }
    }
  }

  /** `new QuadTree(boundary, capacity)`: an undivided node without points. */
  function Empty(boundary: Rect, capacity: nat, depth: nat): (t: Tree)
    ensures Valid(t) && Elements(t) == []
    ensures t.boundary == boundary && t.capacity == capacity && t.depth == depth
  {
    Leaf(boundary, capacity, depth, [])
  }

  /** Gives a full node four empty quadrant children; the stored points do not move. */
  function Subdivide(t: Tree): (r: Tree)
    requires Valid(t) && t.Leaf? && |t.points| == t.capacity && t.depth > 0
    ensures Valid(r) && r.Node? && Elements(r) == Elements(t)
    ensures r.boundary == t.boundary && r.capacity == t.capacity && r.depth == t.depth && r.points == t.points
    ensures r.northwest.boundary == NorthWest(t.boundary) && Elements(r.northwest) == []
    ensures r.northeast.boundary == NorthEast(t.boundary) && Elements(r.northeast) == []
    ensures r.southwest.boundary == SouthWest(t.boundary) && Elements(r.southwest) == []
    ensures r.southeast.boundary == SouthEast(t.boundary) && Elements(r.southeast) == []
  {
    var r := Node(t.boundary, t.capacity, t.depth, t.points,
                  Empty(NorthWest(t.boundary), t.capacity, t.depth - 1),
                  Empty(NorthEast(t.boundary), t.capacity, t.depth - 1),
                  Empty(SouthWest(t.boundary), t.capacity, t.depth - 1),
                  Empty(SouthEast(t.boundary), t.capacity, t.depth - 1));
    assert Elements(r) == t.points + [] + [] + [] + [];
    r
  }

  /** Stores `p` in the tree. A point outside the box is refused and changes nothing; a node
      with room keeps the point itself; a full node passes it to the first quadrant, in the
      order NE, NW, SE, SW, that accepts it. A full node that has used up its depth budget
      refuses the point (where the source would recurse without end). */
  function Insert(t: Tree, p: Point): (r: Inserted)
    requires Valid(t)
    decreases t.depth, 1
    ensures Valid(r.tree)
    ensures r.tree.boundary == t.boundary && r.tree.capacity == t.capacity && r.tree.depth == t.depth
    ensures r.ok ==> t.boundary.Contains(p)
    ensures r.ok ==> multiset(Elements(r.tree)) == multiset(Elements(t)) + multiset{p}
    ensures !r.ok ==> Elements(r.tree) == Elements(t)
    ensures !t.boundary.Contains(p) ==> r == Inserted(t, false)
    ensures t.boundary.Contains(p) && |t.points| < t.capacity ==> r.ok && r.tree.points == t.points + [p]
    ensures |t.points| == t.capacity ==> r.tree.points == t.points
  {
    if !t.boundary.Contains(p) then Inserted(t, false)
    else if |t.points| < t.capacity then
      var r := match t
        case Leaf(b, c, d, ps) => Leaf(b, c, d, ps + [p])
        case Node(b, c, d, ps, nw, ne, sw, se) => Node(b, c, d, ps + [p], nw, ne, sw, se);
      assert Elements(r) == t.points + [p] + (Elements(t)[|t.points|..]);
      Inserted(r, true)
    else if t.depth == 0 then Inserted(t, false)
    else Dispatch(if t.Node? then t else Subdivide(t), p, InsertOrder)
  }

  datatype Quadrant = NW | NE | SW | SE

  function Box(b: Rect, q: Quadrant): Rect
  {
    match q
    case NW => NorthWest(b)
    case NE => NorthEast(b)
    case SW => SouthWest(b)
    case SE => SouthEast(b)
  }

  function Child(t: Tree, q: Quadrant): (c: Tree)
    requires Valid(t) && t.Node?
    ensures Valid(c) && ChildOf(c, t, Box(t.boundary, q))
    ensures multiset(Elements(t)) == Others(t, q) + multiset(Elements(c))
  {
    match q
    case NW => t.northwest
    case NE => t.northeast
    case SW => t.southwest
    case SE => t.southeast
  }

  /** The points of the divided node `t` outside its child for quadrant `q`. */
  function Others(t: Tree, q: Quadrant): multiset<Point>
    requires t.Node?
  {
    var own := multiset(t.points);
    match q
    case NW => own + multiset(Elements(t.northeast)) + multiset(Elements(t.southwest)) + multiset(Elements(t.southeast))
    case NE => own + multiset(Elements(t.northwest)) + multiset(Elements(t.southwest)) + multiset(Elements(t.southeast))
    case SW => own + multiset(Elements(t.northwest)) + multiset(Elements(t.northeast)) + multiset(Elements(t.southeast))
    case SE => own + multiset(Elements(t.northwest)) + multiset(Elements(t.northeast)) + multiset(Elements(t.southwest))
  }

  /** The divided node `t` with its child for quadrant `q` replaced by `c`. */
  function Adopt(t: Tree, q: Quadrant, c: Tree): (r: Tree)
    requires Valid(t) && t.Node? && Valid(c) && ChildOf(c, t, Box(t.boundary, q))
    ensures Valid(r) && r.Node? && Child(r, q) == c
    ensures r.boundary == t.boundary && r.capacity == t.capacity && r.depth == t.depth && r.points == t.points
    ensures multiset(Elements(r)) == Others(t, q) + multiset(Elements(c))
  {
    match q
    case NW => t.(northwest := c)
    case NE => t.(northeast := c)
    case SW => t.(southwest := c)
    case SE => t.(southeast := c)
  }

  /** The order in which a full node offers a point to its quadrants. */
  const InsertOrder: seq<Quadrant> := [NE, NW, SE, SW]

  /** The short-circuit chain `ne.insert(p) || nw.insert(p) || se.insert(p) || sw.insert(p)`
      on a divided node, from the quadrant `qs[0]` on: the first child that accepts `p` keeps it. */
  function Dispatch(t: Tree, p: Point, qs: seq<Quadrant>): (r: Inserted)
    requires Valid(t) && t.Node?
    decreases t.depth, 0, |qs|
    ensures Valid(r.tree) && r.tree.Node?
    ensures r.tree.boundary == t.boundary && r.tree.capacity == t.capacity && r.tree.depth == t.depth
    ensures r.tree.points == t.points
    ensures r.ok ==> multiset(Elements(r.tree)) == multiset(Elements(t)) + multiset{p}
    ensures !r.ok ==> r.tree == t
  {
    if |qs| == 0 then Inserted(t, false)
    else
      var c := Insert(Child(t, qs[0]), p);
      if c.ok then Inserted(Adopt(t, qs[0], c.tree), true)
      else Dispatch(t, p, qs[1..])
  }

  /** A point inside the box is accepted whenever the depth budget is at least the number of
      points already stored: a full node always has a quadrant containing the point whose
      child has budget to spare. */
  lemma {:induction false} InsertAccepts(t: Tree, p: Point)
    requires Valid(t) && t.boundary.Contains(p) && t.capacity > 0 && |Elements(t)| <= t.depth
    decreases t.depth, 1
    ensures Insert(t, p).ok
  {
    if |t.points| == t.capacity {
      var u := if t.Node? then t else Subdivide(t);
      assert Elements(u) == Elements(t) && u.points == t.points;
      QuadrantsCover(t.boundary, p);
      var k := if NorthEast(t.boundary).Contains(p) then 0
               else if NorthWest(t.boundary).Contains(p) then 1
               else if SouthEast(t.boundary).Contains(p) then 2 else 3;
      var c := Child(u, InsertOrder[k]);
      assert |multiset(Elements(u))| == |Others(u, InsertOrder[k])| + |multiset(Elements(c))|;
      assert |Others(u, InsertOrder[k])| >= |multiset(u.points)|;
      DispatchAccepts(u, p, InsertOrder, k);
    }
  }

  /** The chain of quadrants accepts `p` when one of them, `qs[k]`, contains it and its child
      has budget for the points it stores. */
  lemma {:induction false} DispatchAccepts(t: Tree, p: Point, qs: seq<Quadrant>, k: nat)
    requires Valid(t) && t.Node? && t.capacity > 0 && k < |qs| && Box(t.boundary, qs[k]).Contains(p)
    requires |Elements(Child(t, qs[k]))| <= t.depth - 1
    decreases t.depth, 0, |qs|
    ensures Dispatch(t, p, qs).ok
  {
    if k == 0 {
      assert Insert(Child(t, qs[0]), p).ok by {
        InsertAccepts(Child(t, qs[0]), p);
      }
    } else {
      assert Dispatch(t, p, qs[1..]).ok by {
        assert qs[1..][k - 1] == qs[k];
        DispatchAccepts(t, p, qs[1..], k - 1);
      }
    }
    DispatchCons(t, p, qs);
  }

  /** The chain accepts exactly when its first quadrant or the rest of it does. */
  lemma DispatchCons(t: Tree, p: Point, qs: seq<Quadrant>)
    requires Valid(t) && t.Node? && |qs| > 0
    ensures Dispatch(t, p, qs).ok <==> Insert(Child(t, qs[0]), p).ok || Dispatch(t, p, qs[1..]).ok
  {
  }

  /** Removing the element at `k` from a list removes one copy of it from its multiset. */
  lemma RemoveAt<T>(b: seq<T>, k: nat)
    requires k < |b|
    ensures multiset(b[..k] + b[k + 1..]) == multiset(b) - multiset{b[k]}
  {
    assert b == b[..k] + [b[k]] + b[k + 1..];
  }

  /** The matches of a list are those of the list without its element at `k`, plus that one's. */
  lemma MatchesRemoveAt(range: Rect, b: seq<Point>, k: nat)
    requires k < |b|
    ensures multiset(Matches(range, b)) ==
            multiset(Matches(range, b[..k] + b[k + 1..])) + multiset(Matches(range, [b[k]]))
  {
    assert b == b[..k] + [b[k]] + b[k + 1..];
    MatchesAppend(range, b[..k] + [b[k]], b[k + 1..]);
    MatchesAppend(range, b[..k], [b[k]]);
    MatchesAppend(range, b[..k], b[k + 1..]);
  }

  /** Lists holding the same points, in any order, have the same matches, in some order. */
  lemma {:induction false} MatchesPerm(range: Rect, a: seq<Point>, b: seq<Point>)
    requires multiset(a) == multiset(b)
    ensures multiset(Matches(range, a)) == multiset(Matches(range, b))
  {
    if |a| > 0 {
      var x := a[0];
      assert x in multiset(b);
      var k :| 0 <= k < |b| && b[k] == x;
      RemoveAt(b, k);
      assert a == [x] + a[1..];
      assert multiset(a[1..]) == multiset(a) - multiset{x};
      MatchesPerm(range, a[1..], b[..k] + b[k + 1..]);
      MatchesRemoveAt(range, b, k);
      MatchesAppend(range, [x], a[1..]);
    } else {
      assert b == [];
    }
  }

  /** A point a tree accepts is reported by every later query whose range contains it, once
      more than before, and nothing else the query reports changes. */
  lemma InsertThenQuery(t: Tree, p: Point, range: Rect)
    requires Valid(t) && Insert(t, p).ok
    ensures multiset(Matches(range, Elements(Insert(t, p).tree))) ==
            multiset(Matches(range, Elements(t))) + (if range.Contains(p) then multiset{p.data} else multiset{})
  {
    var before := Elements(t);
    var after := Elements(Insert(t, p).tree);
    assert multiset(after) == multiset(before + [p]);
    MatchesPerm(range, after, before + [p]);
    MatchesAppend(range, before, [p]);
    assert [p][1..] == [];
    assert Matches(range, [p]) == if range.Contains(p) then [p.data] else [];
  }

  /** Appends to `found` the payload of every stored point that `range` contains, skipping
      every subtree whose box misses the range. */
  method Query(t: Tree, range: Rect, found: seq<int>) returns (res: seq<int>)
    requires Valid(t)
    decreases t, 1
    ensures res == found + Matches(range, Elements(t))
  {
    if !t.boundary.Intersects(range) {
      ElementsInside(t);
      MatchesOutside(range, t.boundary, Elements(t));
      return found;
    }
    res := CollectOwn(range, t.points, found);
    if t.Node? {
      MatchesFive(range, t.points, Elements(t.northwest), Elements(t.northeast),
                  Elements(t.southwest), Elements(t.southeast));
      res := QueryChildren(t, range, res);
    }
  }

  /** The recursive calls of `query` on a divided node, in the order NW, NE, SW, SE. */
  method QueryChildren(t: Tree, range: Rect, found: seq<int>) returns (res: seq<int>)
    requires Valid(t) && t.Node?
    decreases t, 0
    ensures res == found + Matches(range, Elements(t.northwest)) + Matches(range, Elements(t.northeast)) +
                   Matches(range, Elements(t.southwest)) + Matches(range, Elements(t.southeast))
  {
    res := Query(t.northwest, range, found);
    res := Query(t.northeast, range, res);
    res := Query(t.southwest, range, res);
    res := Query(t.southeast, range, res);
  }

  /** The `for ... of this.points` loop of `query`. */
  method CollectOwn(range: Rect, ps: seq<Point>, found: seq<int>) returns (res: seq<int>)
    ensures res == found + Matches(range, ps)
  {
    res := found;
    var i := 0;
    while i < |ps|
      invariant i <= |ps|
      invariant res == found + Matches(range, ps[..i])
    {
      MatchesAppend(range, ps[..i], [ps[i]]);
      assert ps[..i + 1] == ps[..i] + [ps[i]];
      if range.Contains(ps[i]) {
        res := res + [ps[i].data];
      }
      i := i + 1;
    }
    assert ps[..i] == ps;
  }
}
