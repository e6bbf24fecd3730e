/** The rectangle-tagged quad tree that indexes animals by position: every
    node covers a rectangle, a branch splits it into four quarters, and a
    leaf holds the animals routed to it. Routing uses the strict interior of
    a rectangle, so a point on a dividing line is stored nowhere. */
module QuadTree {
  import opened PVectors
  import opened Seqs
  import opened Animals
  import opened Powers
  import C = Consts

  /** A rectangle narrower than this is not split any further. */
  const WIDTH_LIMIT: real := 10.0

  datatype Option<T> = None | Some(value: T)

  datatype Rectangle = Rectangle(x: real, y: real, width: real, height: real)

  /** The local `min`: the first argument when it is strictly smaller. */
  function Min(a: real, b: real): real
  {
    if a < b then a else b
  }

  /** `child(n)`: the quarter shifted right when `n` is odd and down when
      `n >= 2`; for a rectangle of non-negative size it lies within the parent. */
  function Child(r: Rectangle, n: nat): (c: Rectangle)
    ensures r.width >= 0.0 && r.height >= 0.0 ==>
      r.x <= c.x && c.x + c.width <= r.x + r.width && r.y <= c.y && c.y + c.height <= r.y + r.height
  {
    Rectangle(
      if n % 2 == 0 then r.x else r.x + r.width / 2.0,
      if n / 2 == 0 then r.y else r.y + r.height / 2.0,
      r.width / 2.0, r.height / 2.0)
  }

  /** `is_inside`: strictly inside on both axes, so only a rectangle of
      positive size contains anything. */
  predicate IsInside(r: Rectangle, v: PVector)
    ensures IsInside(r, v) ==> r.width > 0.0 && r.height > 0.0
  {
    r.x < v.x && v.x < r.x + r.width && r.y < v.y && v.y < r.y + r.height
  }

  /** The four quarters have half the size and tile the parent: a point inside
      a quarter is inside the parent, no point is inside two quarters, and a
      point inside the parent and off both dividing lines is inside the
      quarter chosen by its side of each line. */
  lemma ChildrenTile(r: Rectangle, v: PVector, n: nat, m: nat)
    requires n < 4 && m < 4
    ensures Child(r, n).width == r.width / 2.0 && Child(r, n).height == r.height / 2.0
    ensures r.width >= 0.0 && IsInside(Child(r, n), v) ==> IsInside(r, v)
    ensures n != m ==> !(IsInside(Child(r, n), v) && IsInside(Child(r, m), v))
    ensures IsInside(r, v) && v.x != r.x + r.width / 2.0 && v.y != r.y + r.height / 2.0 ==>
      IsInside(Child(r, (if v.x < r.x + r.width / 2.0 then 0 else 1) + (if v.y < r.y + r.height / 2.0 then 0 else 2)), v)
  {
    ChildInParent(r, v, n);
    if n != m {
      ChildrenDisjoint(r, v, n, m);
    }
  }

  lemma ChildInParent(r: Rectangle, v: PVector, n: nat)
    requires n < 4
    ensures r.width >= 0.0 && IsInside(Child(r, n), v) ==> IsInside(r, v)
  {
    var c := Child(r, n);
    if r.width >= 0.0 && IsInside(c, v) {
      assert r.x <= c.x && c.x + c.width <= r.x + r.width;
    }
  }

  lemma ChildrenDisjoint(r: Rectangle, v: PVector, n: nat, m: nat)
    requires n < 4 && m < 4 && n != m
    ensures !(IsInside(Child(r, n), v) && IsInside(Child(r, m), v))
  {
    var cn, cm := Child(r, n), Child(r, m);
    if n % 2 != m % 2 {
      assert cn.x + cn.width <= cm.x || cm.x + cm.width <= cn.x;
    } else {
      assert n / 2 != m / 2;
      assert cn.y + cn.height <= cm.y || cm.y + cm.height <= cn.y;
    }
  }

  /** `point(n)`: both coordinates are chosen by `n % 2`. */
  function Point(r: Rectangle, n: nat): PVector
  {
    PVector(if n % 2 == 0 then r.x else r.x + r.width, if n % 2 == 0 then r.y else r.y + r.height)
  }

  /** Only two corners come out of `point`: the top-left and the bottom-right;
      `(x + width, y)` and `(x, y + height)` are never produced. */
  lemma PointTwoCorners(r: Rectangle, n: nat)
    ensures Point(r, n) == PVector(r.x, r.y) || Point(r, n) == PVector(r.x + r.width, r.y + r.height)
    ensures Point(r, 2) == Point(r, 0) && Point(r, 3) == Point(r, 1)
  {
  }

  /** The distance from `a` to `b` along the nearest offset. */
  function Dist(a: PVector, b: PVector, sqrt: real -> real): real
  {
    Len(Offset(a, b), sqrt)
  }

  /** `(0..4).map(|n| dist(point(n))).fold(WIDTH + 100, min)`. */
  function CornerDist(r: Rectangle, pos: PVector, sqrt: real -> real): (d: real)
    ensures d <= C.WIDTH + 100.0
    ensures d <= Dist(PVector(r.x, r.y), pos, sqrt) && d <= Dist(PVector(r.x + r.width, r.y + r.height), pos, sqrt)
    ensures d == C.WIDTH + 100.0 || d == Dist(PVector(r.x, r.y), pos, sqrt)
      || d == Dist(PVector(r.x + r.width, r.y + r.height), pos, sqrt)
  {
    PointTwoCorners(r, 0);
    PointTwoCorners(r, 1);
    Min(Min(Min(Min(C.WIDTH + 100.0, Dist(Point(r, 0), pos, sqrt)), Dist(Point(r, 1), pos, sqrt)),
      Dist(Point(r, 2), pos, sqrt)), Dist(Point(r, 3), pos, sqrt))
  }

  /** `min_dist`, the distance `search` compares with the radius. It is 0
      inside; beside the rectangle it is the distance to the nearer of the two
      edge points level with `pos`; otherwise it is the distance to the nearer
      of the two corners `point` produces, which can exceed the true distance
      to the rectangle (see `SearchMissesNeighbour`). */
  function MinDist(r: Rectangle, pos: PVector, sqrt: real -> real): (d: real)
    ensures IsInside(r, pos) ==> d == 0.0
    ensures (forall t :: sqrt(t) >= 0.0) ==> d >= 0.0
  {
    var xContain := r.x < pos.x && pos.x < r.x + r.width;
    var yContain := r.y < pos.y && pos.y < r.y + r.height;
    if xContain && yContain then 0.0
    else if xContain then
      Min(Dist(PVector(pos.x, r.y), pos, sqrt), Dist(PVector(pos.x, r.y + r.height), pos, sqrt))
    else if yContain then
      Min(Dist(PVector(r.x, pos.y), pos, sqrt), Dist(PVector(r.x + r.width, pos.y), pos, sqrt))
    else CornerDist(r, pos, sqrt)
  }

  /** `whole_screen`: the full plane. */
  function WholeScreen(): (r: Rectangle)
    ensures r.x == 0.0 && r.y == 0.0 && r.width == C.WIDTH && r.height == C.HEIGHT
  {
    Rectangle(0.0, 0.0, C.WIDTH, C.HEIGHT)
  }

  /** `split_rectangle`: one halving at the same origin, unless too narrow. */
  function SplitRectangle(r: Rectangle): (s: Rectangle)
    ensures r.width < WIDTH_LIMIT ==> s == r
    ensures r.width >= WIDTH_LIMIT ==> s == Child(r, 0)
  {
    if r.width < WIDTH_LIMIT then r
    else Rectangle(r.x, r.y, r.width / 2.0, r.height / 2.0)
  }

  /** `min_rectangle` ignores its receiver: half the screen at the origin. */
  function MinRectangle(r: Rectangle): (s: Rectangle)
    ensures s == Rectangle(0.0, 0.0, 320.0, 240.0)
  {
    SplitRectangle(WholeScreen())
  }

  /** The first of the four quarters that strictly contains `v`, or 4. */
  function FirstChildInside(r: Rectangle, v: PVector, from: nat): (i: nat)
    requires from <= 4
    ensures from <= i <= 4
    ensures i < 4 ==> IsInside(Child(r, i), v)
    ensures forall j :: from <= j < i ==> !IsInside(Child(r, j), v)
    decreases 4 - from
  {
    if from == 4 then 4
    else if IsInside(Child(r, from), v) then from
    else FirstChildInside(r, v, from + 1)
  }

  /** `get_index`: the grid cell of `v` at the leaf level, found by descending
      into the first quarter that contains it and doubling the index at each
      level. Where the source panics (no quarter contains `v`) it is `None`;
      that happens to every point that is not strictly inside a rectangle that
      is still split. */
  function GetIndex(r: Rectangle, index: (nat, nat), v: PVector): (res: Option<(nat, nat)>)
    ensures r.width < WIDTH_LIMIT ==> res == Some(index)
    ensures r.width >= WIDTH_LIMIT && !IsInside(r, v) ==> res == None
    ensures res.Some? ==> res.value.0 >= index.0 && res.value.1 >= index.1
    decreases r.width.Floor
  {
    if r.width < WIDTH_LIMIT then Some(index)
    else
      var i := FirstChildInside(r, v, 0);
      if i < 4 then
        ChildrenTile(r, v, i, i);
        GetIndex(Child(r, i), ((if i % 2 == 0 then 0 else 1) + index.0 * 2, (if i / 2 == 0 then 0 else 1) + index.1 * 2), v)
      else None
  }

  // ---- the tree as a value ----------------------------------------------------

  /** What a tree holds: a leaf with its animals in insertion order, or a
      branch with its four children in `child(0)` … `child(3)` order, each
      tagged with the rectangle it covers. */
  datatype Node<T> =
    | Leaf(rect: Rectangle, animals: seq<T>)
    | Branch(rect: Rectangle, q0: Node<T>, q1: Node<T>, q2: Node<T>, q3: Node<T>)

  /** Child `i` of a branch. */
  function Kid<T>(t: Node<T>, i: nat): (k: Node<T>)
    requires t.Branch? && i < 4
    ensures k < t
  {
    if i == 0 then t.q0 else if i == 1 then t.q1 else if i == 2 then t.q2 else t.q3
  }

  /** The shape `new_tree` builds: a node is split exactly when its rectangle
      is at least `WIDTH_LIMIT` wide, and then into the four quarters in order. */
  predicate WellFormed<T>(t: Node<T>)
  {
    match t
    case Leaf(rect, _) => rect.width < WIDTH_LIMIT
    case Branch(rect, q0, q1, q2, q3) =>
      rect.width >= WIDTH_LIMIT
      && q0.rect == Child(rect, 0) && q1.rect == Child(rect, 1)
      && q2.rect == Child(rect, 2) && q3.rect == Child(rect, 3)
      && WellFormed(q0) && WellFormed(q1) && WellFormed(q2) && WellFormed(q3)
  }

  /** Everything stored in the tree: the leaves' lists, left to right. */
  function Elements<T>(t: Node<T>): seq<T>
  {
    match t
    case Leaf(_, animals) => animals
    case Branch(_, q0, q1, q2, q3) => Elements(q0) + Elements(q1) + Elements(q2) + Elements(q3)
  }

  /** `new_tree`: one leaf per rectangle that is too narrow to split, all empty. */
  function NewTreeSpec<T>(rect: Rectangle): (t: Node<T>)
    ensures t.rect == rect
    ensures t.Branch? <==> rect.width >= WIDTH_LIMIT
    ensures WellFormed(t)
    ensures Elements(t) == []
    decreases rect.width.Floor
  {
    if rect.width >= WIDTH_LIMIT then
      Branch(rect, NewTreeSpec(Child(rect, 0)), NewTreeSpec(Child(rect, 1)),
        NewTreeSpec(Child(rect, 2)), NewTreeSpec(Child(rect, 3)))
    else Leaf(rect, [])
  }

  // ---- append -------------------------------------------------------------------

  /** Whether `append` stores an animal at `pos` anywhere: a leaf always does,
      a branch when some child strictly contains `pos` and stores it. */
  predicate Stored<T>(t: Node<T>, pos: PVector)
    decreases t, 1
  {
    match t
    case Leaf(_, _) => true
    case Branch(_, q0, q1, q2, q3) => StoredIn(q0, pos) || StoredIn(q1, pos) || StoredIn(q2, pos) || StoredIn(q3, pos)
  }

  predicate StoredIn<T>(k: Node<T>, pos: PVector)
    decreases k, 2
  {
    IsInside(k.rect, pos) && Stored(k, pos)
  }

  /** `append`: a leaf pushes at the back; a branch passes the animal to every
      child whose rectangle strictly contains its position. */
  function AppendSpec<T>(t: Node<T>, a: T, body: T -> Body): Node<T>
    decreases t, 1
  {
    match t
    case Leaf(rect, animals) => Leaf(rect, animals + [a])
    case Branch(rect, q0, q1, q2, q3) =>
      Branch(rect, AppendChild(q0, a, body), AppendChild(q1, a, body), AppendChild(q2, a, body), AppendChild(q3, a, body))
  }

  function AppendChild<T>(k: Node<T>, a: T, body: T -> Body): Node<T>
    decreases k, 2
  {
    if IsInside(k.rect, body(a).position) then AppendSpec(k, a, body) else k
  }

  /** What one child gains. */
  function Gain<T>(k: Node<T>, a: T, body: T -> Body): multiset<T>
  {
    if StoredIn(k, body(a).position) then multiset{a} else multiset{}
  }

  /** The animal ends up in at most one leaf, so the contents grow by it or
      stay the same, and the shape is kept. */
  lemma {:induction false} AppendContents<T>(t: Node<T>, a: T, body: T -> Body)
    requires WellFormed(t)
    ensures WellFormed(AppendSpec(t, a, body))
    ensures AppendSpec(t, a, body).rect == t.rect
    ensures multiset(Elements(AppendSpec(t, a, body))) ==
      multiset(Elements(t)) + (if Stored(t, body(a).position) then multiset{a} else multiset{})
    decreases t, 0
  {
    match t
    case Leaf(rect, animals) =>
    case Branch(rect, q0, q1, q2, q3) =>
      AppendChildContents(q0, a, body);
      AppendChildContents(q1, a, body);
      AppendChildContents(q2, a, body);
      AppendChildContents(q3, a, body);
      var pos := body(a).position;
      QuartersDisjoint(rect, pos);
      AtMostOneGain(Gain(q0, a, body), Gain(q1, a, body), Gain(q2, a, body), Gain(q3, a, body), a, Stored(t, pos));
      var k0, k1, k2, k3 := AppendChild(q0, a, body), AppendChild(q1, a, body), AppendChild(q2, a, body), AppendChild(q3, a, body);
      assert AppendSpec(t, a, body) == Branch(rect, k0, k1, k2, k3);
      Multiset4(Elements(k0), Elements(k1), Elements(k2), Elements(k3));
      Multiset4(Elements(q0), Elements(q1), Elements(q2), Elements(q3));
      Regroup(multiset(Elements(q0)), multiset(Elements(q1)), multiset(Elements(q2)), multiset(Elements(q3)),
        Gain(q0, a, body), Gain(q1, a, body), Gain(q2, a, body), Gain(q3, a, body));
  }

  lemma {:induction false} AppendChildContents<T>(k: Node<T>, a: T, body: T -> Body)
    requires WellFormed(k)
    ensures WellFormed(AppendChild(k, a, body)) && AppendChild(k, a, body).rect == k.rect
    ensures multiset(Elements(AppendChild(k, a, body))) == multiset(Elements(k)) + Gain(k, a, body)
    decreases k, 1
  {
    if IsInside(k.rect, body(a).position) {
      AppendContents(k, a, body);
    }
  }

  /** `get_index` finds a cell exactly for the positions that `append` stores
      in a fresh tree over the same rectangle: both descend into the quarter
      that strictly contains the point, and no point is in two quarters. */
  lemma {:induction false} GetIndexStored<T>(r: Rectangle, index: (nat, nat), v: PVector)
    ensures GetIndex(r, index, v).Some? <==> Stored(NewTreeSpec<T>(r), v)
    decreases r.width.Floor
  {
    if r.width >= WIDTH_LIMIT {
      var i := FirstChildInside(r, v, 0);
      var t := NewTreeSpec<T>(r);
      StoredInFirst(t, v, i);
      if i < 4 {
        ChildrenTile(r, v, i, i);
        var next := ((if i % 2 == 0 then 0 else 1) + index.0 * 2, (if i / 2 == 0 then 0 else 1) + index.1 * 2);
        assert GetIndex(r, index, v) == GetIndex(Child(r, i), next, v);
        GetIndexStored<T>(Child(r, i), next, v);
        assert Kid(t, i) == NewTreeSpec<T>(Child(r, i));
      } else {
        assert GetIndex(r, index, v) == None;
      }
    }
  }

  /** In a well-formed branch, a position is stored exactly when the first
      quarter that contains it stores it, and not at all when none does. */
  lemma StoredInFirst<T>(t: Node<T>, v: PVector, i: nat)
    requires t.Branch? && WellFormed(t) && i == FirstChildInside(t.rect, v, 0)
    ensures i < 4 ==> (Stored(t, v) <==> Stored(Kid(t, i), v))
    ensures i == 4 ==> !Stored(t, v)
  {
    QuartersDisjoint(t.rect, v);
  }

  /** Appending one animal to a fresh tree stores it exactly when `get_index`
      finds a cell for its position. */
  lemma AppendFreshIndexed<T>(r: Rectangle, index: (nat, nat), a: T, body: T -> Body)
    ensures GetIndex(r, index, body(a).position).Some? <==>
      multiset(Elements(AppendSpec(NewTreeSpec<T>(r), a, body))) == multiset{a}
  {
    AppendContents(NewTreeSpec<T>(r), a, body);
    GetIndexStored<T>(r, index, body(a).position);
  }

  /** No point is strictly inside two of the four quarters. */
  lemma QuartersDisjoint(r: Rectangle, v: PVector)
    ensures !(IsInside(Child(r, 0), v) && IsInside(Child(r, 1), v))
    ensures !(IsInside(Child(r, 0), v) && IsInside(Child(r, 2), v))
    ensures !(IsInside(Child(r, 0), v) && IsInside(Child(r, 3), v))
    ensures !(IsInside(Child(r, 1), v) && IsInside(Child(r, 2), v))
    ensures !(IsInside(Child(r, 1), v) && IsInside(Child(r, 3), v))
    ensures !(IsInside(Child(r, 2), v) && IsInside(Child(r, 3), v))
  {
    ChildrenDisjoint(r, v, 0, 1);
    ChildrenDisjoint(r, v, 0, 2);
    ChildrenDisjoint(r, v, 0, 3);
    ChildrenDisjoint(r, v, 1, 2);
    ChildrenDisjoint(r, v, 1, 3);
    ChildrenDisjoint(r, v, 2, 3);
  }

  lemma Multiset4<T>(a: seq<T>, b: seq<T>, c: seq<T>, d: seq<T>)
    ensures multiset(a + b + c + d) == multiset(a) + multiset(b) + multiset(c) + multiset(d)
  {
  }

  lemma Regroup<T>(m0: multiset<T>, m1: multiset<T>, m2: multiset<T>, m3: multiset<T>,
                   g0: multiset<T>, g1: multiset<T>, g2: multiset<T>, g3: multiset<T>)
    ensures (m0 + g0) + (m1 + g1) + (m2 + g2) + (m3 + g3) == (m0 + m1 + m2 + m3) + (g0 + g1 + g2 + g3)
  {
  }

  /** Four gains of which at most one is non-empty add up to their disjunction. */
  lemma AtMostOneGain<T>(g0: multiset<T>, g1: multiset<T>, g2: multiset<T>, g3: multiset<T>, a: T, any: bool)
    requires g0 == multiset{} || g0 == multiset{a}
    requires g1 == multiset{} || g1 == multiset{a}
    requires g2 == multiset{} || g2 == multiset{a}
    requires g3 == multiset{} || g3 == multiset{a}
    requires any <==> (g0 != multiset{} || g1 != multiset{} || g2 != multiset{} || g3 != multiset{})
    requires (g0 == multiset{} || g1 == multiset{}) && (g0 == multiset{} || g2 == multiset{})
    requires (g0 == multiset{} || g3 == multiset{}) && (g1 == multiset{} || g2 == multiset{})
    requires (g1 == multiset{} || g3 == multiset{}) && (g2 == multiset{} || g3 == multiset{})
    ensures g0 + g1 + g2 + g3 == if any then multiset{a} else multiset{}
  {
  }

  /** Hence the number of stored animals grows by at most one. */
  lemma AppendCount<T>(t: Node<T>, a: T, body: T -> Body)
    requires WellFormed(t)
    ensures |Elements(AppendSpec(t, a, body))| == |Elements(t)| + (if Stored(t, body(a).position) then 1 else 0)
  {
    AppendContents(t, a, body);
    assert |multiset(Elements(AppendSpec(t, a, body)))| == |Elements(AppendSpec(t, a, body))|;
  }

  /** A point on a branch's dividing lines, or not strictly inside it, is
      stored nowhere. */
  lemma NotStoredOffInterior<T>(t: Node<T>, pos: PVector)
    requires WellFormed(t) && t.Branch?
    requires !IsInside(t.rect, pos) || pos.x == t.rect.x + t.rect.width / 2.0 || pos.y == t.rect.y + t.rect.height / 2.0
    ensures !Stored(t, pos)
  {
    forall i: nat | i < 4 ensures !IsInside(Child(t.rect, i), pos) {
      ChildInParent(t.rect, pos, i);
    }
  }

  // ---- remove ---------------------------------------------------------------------

  /** The filter of a leaf in `remove`: keep the animals with another id. */
  function OtherId<T>(body: T -> Body, id: nat): T -> bool
  {
    (x: T) => body(x).id != id
  }

  /** `remove`: a branch follows only the first child that strictly contains
      the position, and does nothing when there is none; a leaf drops every
      entry with the animal's id. */
  function RemoveSpec<T>(t: Node<T>, a: T, body: T -> Body): Node<T>
  {
    var pos := body(a).position;
    match t
    case Leaf(rect, animals) => Leaf(rect, Filter(animals, OtherId(body, body(a).id)))
    case Branch(rect, q0, q1, q2, q3) =>
      if IsInside(q0.rect, pos) then t.(q0 := RemoveSpec(q0, a, body))
      else if IsInside(q1.rect, pos) then t.(q1 := RemoveSpec(q1, a, body))
      else if IsInside(q2.rect, pos) then t.(q2 := RemoveSpec(q2, a, body))
      else if IsInside(q3.rect, pos) then t.(q3 := RemoveSpec(q3, a, body))
      else t
  }

  /** Removal keeps the shape of the tree. */
  lemma {:induction false} RemoveShape<T>(t: Node<T>, a: T, body: T -> Body)
    ensures RemoveSpec(t, a, body).rect == t.rect
    ensures WellFormed(t) ==> WellFormed(RemoveSpec(t, a, body))
    decreases t
  {
    match t
    case Leaf(_, _) =>
    case Branch(_, q0, q1, q2, q3) =>
      RemoveShape(q0, a, body);
      RemoveShape(q1, a, body);
      RemoveShape(q2, a, body);
      RemoveShape(q3, a, body);
  }

  /** Removal deletes only entries with the animal's id: what it keeps is
      part of the old contents, and includes every entry with another id. */
  lemma {:induction false} RemoveContents<T>(t: Node<T>, a: T, body: T -> Body)
    ensures multiset(Elements(RemoveSpec(t, a, body))) <= multiset(Elements(t))
    ensures multiset(Filter(Elements(t), OtherId(body, body(a).id))) <= multiset(Elements(RemoveSpec(t, a, body)))
    decreases t
  {
    var pos := body(a).position;
    var p := OtherId(body, body(a).id);
    match t
    case Leaf(rect, animals) =>
      FilterMultiset(animals, p);
    case Branch(rect, q0, q1, q2, q3) =>
      var e0, e1, e2, e3 := Elements(q0), Elements(q1), Elements(q2), Elements(q3);
      FilterMultiset(e0, p);
      FilterMultiset(e1, p);
      FilterMultiset(e2, p);
      FilterMultiset(e3, p);
      if IsInside(q0.rect, pos) {
        RemoveContents(q0, a, body);
        Pieces(e0, e1, e2, e3, Elements(RemoveSpec(q0, a, body)), e1, e2, e3, p);
      } else if IsInside(q1.rect, pos) {
        RemoveContents(q1, a, body);
        Pieces(e0, e1, e2, e3, e0, Elements(RemoveSpec(q1, a, body)), e2, e3, p);
      } else if IsInside(q2.rect, pos) {
        RemoveContents(q2, a, body);
        Pieces(e0, e1, e2, e3, e0, e1, Elements(RemoveSpec(q2, a, body)), e3, p);
      } else if IsInside(q3.rect, pos) {
        RemoveContents(q3, a, body);
        Pieces(e0, e1, e2, e3, e0, e1, e2, Elements(RemoveSpec(q3, a, body)), p);
      } else {
        Pieces(e0, e1, e2, e3, e0, e1, e2, e3, p);
      }
  }

  /** Four parts each kept between their filter and themselves keep their
      concatenation between its filter and itself. */
  lemma Pieces<T>(e0: seq<T>, e1: seq<T>, e2: seq<T>, e3: seq<T>,
                  f0: seq<T>, f1: seq<T>, f2: seq<T>, f3: seq<T>, p: T -> bool)
    requires multiset(f0) <= multiset(e0) && multiset(f1) <= multiset(e1)
    requires multiset(f2) <= multiset(e2) && multiset(f3) <= multiset(e3)
    requires multiset(Filter(e0, p)) <= multiset(f0) && multiset(Filter(e1, p)) <= multiset(f1)
    requires multiset(Filter(e2, p)) <= multiset(f2) && multiset(Filter(e3, p)) <= multiset(f3)
    ensures multiset(f0 + f1 + f2 + f3) <= multiset(e0 + e1 + e2 + e3)
    ensures multiset(Filter(e0 + e1 + e2 + e3, p)) <= multiset(f0 + f1 + f2 + f3)
  {
    FilterConcat(e0 + e1 + e2, e3, p);
    FilterConcat(e0 + e1, e2, p);
    FilterConcat(e0, e1, p);
  }

  /** So removal keeps the count of every entry with another id. */
  lemma RemoveKeepsOthers<T>(t: Node<T>, a: T, body: T -> Body, x: T)
    requires body(x).id != body(a).id
    ensures multiset(Elements(RemoveSpec(t, a, body)))[x] == multiset(Elements(t))[x]
  {
    RemoveContents(t, a, body);
    FilterMultiset(Elements(t), OtherId(body, body(a).id));
    assert OtherId(body, body(a).id)(x);
  }

  /** `remove` undoes `append` for an animal whose id is not yet in the tree. */
  lemma {:induction false} RemoveAppend<T>(t: Node<T>, a: T, body: T -> Body)
    requires WellFormed(t)
    requires forall x :: x in Elements(t) ==> body(x).id != body(a).id
    ensures RemoveSpec(AppendSpec(t, a, body), a, body) == t
    decreases t
  {
    var pos := body(a).position;
    match t
    case Leaf(rect, animals) =>
      var p := OtherId(body, body(a).id);
      FilterAll(animals, p);
      FilterSnoc(animals, a, p);
    case Branch(rect, q0, q1, q2, q3) =>
      AppendChildContents(q0, a, body);
      AppendChildContents(q1, a, body);
      AppendChildContents(q2, a, body);
      AppendChildContents(q3, a, body);
      QuartersDisjoint(rect, pos);
      if IsInside(q0.rect, pos) {
        RemoveAppend(q0, a, body);
      } else if IsInside(q1.rect, pos) {
        RemoveAppend(q1, a, body);
      } else if IsInside(q2.rect, pos) {
        RemoveAppend(q2, a, body);
      } else if IsInside(q3.rect, pos) {
        RemoveAppend(q3, a, body);
      }
  }

  // ---- search ----------------------------------------------------------------------

  /** The filter of a leaf in `search`: `other.is_within(query, radius)`. */
  function Near<T>(body: T -> Body, q: Body, radius: real): T -> bool
  {
    (x: T) => Within(body(x).position, q.position, radius)
  }

  /** `search`: nothing when the rectangle is farther than `radius`; a leaf's
      animals within `radius` of the query; a branch's results from the
      children closer than `radius`, in child order. */
  function SearchSpec<T>(t: Node<T>, q: Body, radius: real, sqrt: real -> real, body: T -> Body): seq<T>
    decreases t, 1
  {
    if MinDist(t.rect, q.position, sqrt) > radius then []
    else match t
      case Leaf(_, animals) => Filter(animals, Near(body, q, radius))
      case Branch(_, q0, q1, q2, q3) =>
        SearchChild(q0, q, radius, sqrt, body) + SearchChild(q1, q, radius, sqrt, body)
        + SearchChild(q2, q, radius, sqrt, body) + SearchChild(q3, q, radius, sqrt, body)
  }

  function SearchChild<T>(k: Node<T>, q: Body, radius: real, sqrt: real -> real, body: T -> Body): seq<T>
    decreases k, 2
  {
    if MinDist(k.rect, q.position, sqrt) < radius then SearchSpec(k, q, radius, sqrt, body) else []
  }

  /** Everything `search` returns is stored in the tree and within `radius`
      of the query. */
  lemma {:induction false} SearchSound<T>(t: Node<T>, q: Body, radius: real, sqrt: real -> real, body: T -> Body)
    ensures forall x :: x in SearchSpec(t, q, radius, sqrt, body) ==>
      x in Elements(t) && Within(body(x).position, q.position, radius)
    decreases t, 0
  {
    if MinDist(t.rect, q.position, sqrt) <= radius {
      match t
      case Leaf(_, animals) =>
      case Branch(rect, q0, q1, q2, q3) =>
        SearchChildSound(q0, q, radius, sqrt, body);
        SearchChildSound(q1, q, radius, sqrt, body);
        SearchChildSound(q2, q, radius, sqrt, body);
        SearchChildSound(q3, q, radius, sqrt, body);
    }
  }

  lemma {:induction false} SearchChildSound<T>(k: Node<T>, q: Body, radius: real, sqrt: real -> real, body: T -> Body)
    ensures forall x :: x in SearchChild(k, q, radius, sqrt, body) ==>
      x in Elements(k) && Within(body(x).position, q.position, radius)
    decreases k, 1
  {
    if MinDist(k.rect, q.position, sqrt) < radius {
      SearchSound(k, q, radius, sqrt, body);
    }
  }

  lemma SearchLeaf<T>(rect: Rectangle, animals: seq<T>, q: Body, radius: real, sqrt: real -> real, body: T -> Body)
    requires MinDist(rect, q.position, sqrt) <= radius
    ensures SearchSpec(Leaf(rect, animals), q, radius, sqrt, body) == Filter(animals, Near(body, q, radius))
  {
  }

  /** The query animal itself is not excluded: a leaf that strictly contains
      it returns it for any positive radius. */
  lemma SearchFindsItself<T>(rect: Rectangle, animals: seq<T>, a: T, radius: real, sqrt: real -> real, body: T -> Body)
    requires a in animals && IsInside(rect, body(a).position) && radius > 0.0
    ensures a in SearchSpec(Leaf(rect, animals), body(a), radius, sqrt, body)
  {
    SearchLeaf(rect, animals, body(a), radius, sqrt, body);
    WithinSelf(body(a).position, radius);
    assert Near(body, body(a), radius)(a);
    var i :| 0 <= i < |animals| && animals[i] == a;
  }

  /** A non-negative square root of a value above 1 is above 1. */
  lemma SqrtAbove(s: real, t: real)
    requires s >= 0.0 && s * s == t
    ensures t > 1.0 ==> s > 1.0
  {
    if s <= 1.0 {
      SquareMono(s, 1.0);
    }
  }

  /** `search` is not complete. The query lies outside the leaf cell at
      `(100, 97.5)` of size 5 by 3.75, close to its corner `(x + width, y)`,
      and an animal inside that cell is 0.5 away from it. The query is beside
      neither axis of the cell, so `min_dist` is taken from the two corners that
      `point` produces, about 5.30 and 3.96 away, which is more than the radius
      1: the cell is skipped and the animal is not found. */
  lemma SearchMissesNeighbour(sqrt: real -> real)
    requires forall t :: t >= 0.0 ==> sqrt(t) >= 0.0 && sqrt(t) * sqrt(t) == t
    ensures var cell := Rectangle(100.0, 97.5, 5.0, 3.75);
      var a := Body(PVector(104.9, 97.6), 1);
      var q := Body(PVector(105.3, 97.3), 2);
      IsInside(cell, a.position) && Within(a.position, q.position, 1.0)
      && MinDist(cell, q.position, sqrt) > 1.0
      && SearchSpec(Leaf(cell, [a]), q, 1.0, sqrt, (b: Body) => b) == []
      && SearchChild(Leaf(cell, [a]), q, 1.0, sqrt, (b: Body) => b) == []
  {
    var a := Body(PVector(104.9, 97.6), 1);
    var q := Body(PVector(105.3, 97.3), 2);
    assert Offset(a.position, q.position) == PVector(0.4, -0.3);
    assert LenSq(PVector(0.4, -0.3)) == 0.25;
    CornersFar(sqrt);
  }

  /** The two corners of the cell that `point` produces are more than 1 away
      from the query, and the query is beside neither axis of the cell. */
  lemma CornersFar(sqrt: real -> real)
    requires forall t :: t >= 0.0 ==> sqrt(t) >= 0.0 && sqrt(t) * sqrt(t) == t
    ensures MinDist(Rectangle(100.0, 97.5, 5.0, 3.75), PVector(105.3, 97.3), sqrt) > 1.0
  {
    var cell := Rectangle(100.0, 97.5, 5.0, 3.75);
    var pos := PVector(105.3, 97.3);
    var o0 := Offset(PVector(cell.x, cell.y), pos);
    var o1 := Offset(PVector(cell.x + cell.width, cell.y + cell.height), pos);
    assert o0 == PVector(5.3, -0.2) && LenSq(o0) == 28.13;
    assert o1 == PVector(0.3, -3.95) && LenSq(o1) == 15.6925;
    SqrtAbove(sqrt(LenSq(o0)), LenSq(o0));
    SqrtAbove(sqrt(LenSq(o1)), LenSq(o1));
    assert MinDist(cell, pos, sqrt) == CornerDist(cell, pos, sqrt);
  }

  // ---- shape facts -------------------------------------------------------------------

  /** How deep the leftmost leaf lies, and that leaf's rectangle. */
  function Depth<T>(t: Node<T>): nat
  {
    match t
    case Leaf(_, _) => 0
    case Branch(_, q0, _, _, _) => 1 + Depth(q0)
  }

  function LeftmostLeaf<T>(t: Node<T>): Rectangle
  {
    match t
    case Leaf(rect, _) => rect
    case Branch(_, q0, _, _, _) => LeftmostLeaf(q0)
  }

  lemma Pow2Seven()
    ensures Pow2(7) == 128.0
  {
    assert Pow2(0) == 1.0;
    assert Pow2(1) == 2.0;
    assert Pow2(2) == 4.0;
    assert Pow2(3) == 8.0;
    assert Pow2(4) == 16.0;
    assert Pow2(5) == 32.0;
    assert Pow2(6) == 64.0;
  }

  /** A rectangle at the origin that is `2^k` times 7.8125 by 15.625 has a
      leftmost leaf of that size, `k` levels down. */
  lemma {:induction false} LeftmostOfScaled<T>(rect: Rectangle, k: nat)
    requires rect.x == 0.0 && rect.y == 0.0
    requires rect.width == 7.8125 * Pow2(k) && rect.height == 15.625 * Pow2(k)
    ensures Depth<T>(NewTreeSpec(rect)) == k
    ensures LeftmostLeaf<T>(NewTreeSpec(rect)) == Rectangle(0.0, 0.0, 7.8125, 15.625)
    decreases k
  {
    if k > 0 {
      Pow2AtLeastOne(k - 1);
      LeftmostOfScaled<T>(Child(rect, 0), k - 1);
    }
  }

  /** A 1000 by 2000 rectangle gives seven levels of branches above a
      leftmost leaf of 7.8125 by 15.625. */
  lemma NewTreeDepthSeven<T>()
    ensures Depth<T>(NewTreeSpec(Rectangle(0.0, 0.0, 1000.0, 2000.0))) == 7
    ensures LeftmostLeaf<T>(NewTreeSpec(Rectangle(0.0, 0.0, 1000.0, 2000.0))) == Rectangle(0.0, 0.0, 7.8125, 15.625)
  {
    Pow2Seven();
    LeftmostOfScaled<T>(Rectangle(0.0, 0.0, 1000.0, 2000.0), 7);
  }

  /** Every leaf has the given size. */
  predicate LeavesSized<T>(t: Node<T>, w: real, h: real)
  {
    match t
    case Leaf(rect, _) => rect.width == w && rect.height == h
    case Branch(_, q0, q1, q2, q3) =>
      LeavesSized(q0, w, h) && LeavesSized(q1, w, h) && LeavesSized(q2, w, h) && LeavesSized(q3, w, h)
  }

  lemma {:induction false} LeavesOfScaled<T>(rect: Rectangle, k: nat)
    requires rect.width == C.MIN_WIDTH * Pow2(k) && rect.height == C.MIN_HEIGTH * Pow2(k)
    ensures LeavesSized<T>(NewTreeSpec(rect), C.MIN_WIDTH, C.MIN_HEIGTH)
    decreases k
  {
    if k > 0 {
      Pow2AtLeastOne(k - 1);
      LeavesOfScaled<T>(Child(rect, 0), k - 1);
      LeavesOfScaled<T>(Child(rect, 1), k - 1);
      LeavesOfScaled<T>(Child(rect, 2), k - 1);
      LeavesOfScaled<T>(Child(rect, 3), k - 1);
    }
  }

  /** The tree over the whole screen has leaves of `MIN_WIDTH` by `MIN_HEIGTH`
      (640 and 480 halved seven times). */
  lemma WholeScreenLeaves<T>()
    ensures LeavesSized<T>(NewTreeSpec(WholeScreen()), C.MIN_WIDTH, C.MIN_HEIGTH)
  {
    Pow2Seven();
    LeavesOfScaled<T>(WholeScreen(), 7);
  }

  // ---- new ---------------------------------------------------------------------------

  /** `new`: the given tree with the animals appended one by one. */
  function AppendAll<T>(t: Node<T>, animals: seq<T>, body: T -> Body): Node<T>
  {
    if animals == [] then t
    else AppendSpec(AppendAll(t, animals[..|animals| - 1], body), animals[|animals| - 1], body)
  }

  /** Every stored animal was one of the inputs, none is stored twice, and the
      shape of the tree is kept. */
  lemma {:induction false} AppendAllContents<T>(t: Node<T>, animals: seq<T>, body: T -> Body)
    requires WellFormed(t)
    ensures WellFormed(AppendAll(t, animals, body)) && AppendAll(t, animals, body).rect == t.rect
    ensures multiset(Elements(AppendAll(t, animals, body))) <= multiset(Elements(t)) + multiset(animals)
    decreases |animals|
  {
    if animals != [] {
      var n := |animals| - 1;
      AppendAllContents(t, animals[..n], body);
      AppendContents(AppendAll(t, animals[..n], body), animals[n], body);
      assert animals == animals[..n] + [animals[n]];
    }
  }

  /** A tree built by `new_tree` and filled by appends stores each input
      animal at most once; `QuadTree::new` is this over the whole screen. */
  lemma NewStoresAtMostOnce<T>(rect: Rectangle, animals: seq<T>, body: T -> Body)
    ensures multiset(Elements(AppendAll(NewTreeSpec(rect), animals, body))) <= multiset(animals)
    ensures |Elements(AppendAll(NewTreeSpec(rect), animals, body))| <= |animals|
  {
    var t0 := NewTreeSpec<T>(rect);
    AppendAllContents(t0, animals, body);
    var e := Elements(AppendAll(t0, animals, body));
    assert multiset(e) <= multiset(animals);
    SubMultisetSize(multiset(e), multiset(animals));
  }

  lemma SubMultisetSize<T>(a: multiset<T>, b: multiset<T>)
    requires a <= b
    ensures |a| <= |b|
  {
    assert b == a + (b - a);
  }

  // ---- the tree as an object -----------------------------------------------------

  /** The children of a branch, searched one by one: the results of the
      first `n` children in order. */
  function SearchKids<T>(t: Node<T>, n: nat, q: Body, radius: real, sqrt: real -> real, body: T -> Body): seq<T>
    requires t.Branch? && n <= 4
  {
    if n == 0 then []
    else if n == 1 then SearchChild(t.q0, q, radius, sqrt, body)
    else SearchKids(t, n - 1, q, radius, sqrt, body) + SearchChild(Kid(t, n - 1), q, radius, sqrt, body)
  }

  lemma SearchKidsAll<T>(t: Node<T>, q: Body, radius: real, sqrt: real -> real, body: T -> Body)
    requires t.Branch? && !(MinDist(t.rect, q.position, sqrt) > radius)
    ensures SearchKids(t, 4, q, radius, sqrt, body) == SearchSpec(t, q, radius, sqrt, body)
  {
    var c0, c1, c2, c3 := SearchChild(t.q0, q, radius, sqrt, body), SearchChild(t.q1, q, radius, sqrt, body),
      SearchChild(t.q2, q, radius, sqrt, body), SearchChild(t.q3, q, radius, sqrt, body);
    assert SearchSpec(t, q, radius, sqrt, body) == c0 + c1 + c2 + c3;
    assert SearchKids(t, 2, q, radius, sqrt, body) == c0 + c1;
    assert SearchKids(t, 3, q, radius, sqrt, body) == c0 + c1 + c2;
  }

  /** A node of the tree. A branch owns its four children; `Repr` is the set
      of nodes below and including this one, so the children's subtrees are
      disjoint and an update of one child leaves the others alone. `model` is
      the value the node stands for. */
  class QuadTree<T> {
    const rectangle: Rectangle
    const children: Option<seq<QuadTree<T>>>
    var animals: Option<seq<T>>
    ghost var model: Node<T>
    ghost const Repr: set<object>

    /** `c` is a child whose subtree lies below this node. */
    ghost predicate Owns(c: QuadTree<T>)
    {
      c in Repr && c.Repr <= Repr && this !in c.Repr
    }

    /** The fixed part of validity, on constant fields only: a branch has four
        children below it whose subtrees are disjoint. */
    ghost predicate Shape()
    {
      this in Repr
      && (children.None? ==> Repr == {this})
      && (children.Some? ==>
        var k := children.value;
        |k| == 4
        && Owns(k[0]) && Owns(k[1]) && Owns(k[2]) && Owns(k[3])
        && k[0].Repr !! k[1].Repr && k[0].Repr !! k[2].Repr && k[0].Repr !! k[3].Repr
        && k[1].Repr !! k[2].Repr && k[1].Repr !! k[3].Repr && k[2].Repr !! k[3].Repr)
    }

    /** Exactly one of `children` and `animals` is present, the children are
        valid, and `model` is built from the leaf's list or from the
        children's models. */
    ghost predicate Valid()
      reads this, Repr
      decreases Repr
    {
      Shape()
      && (children.Some? <==> animals.None?)
      && (children.None? ==> model == Leaf(rectangle, animals.value))
      && (children.Some? ==>
        var k := children.value;
        k[0].Valid() && k[1].Valid() && k[2].Valid() && k[3].Valid()
        && model == Branch(rectangle, k[0].model, k[1].model, k[2].model, k[3].model))
    }

    /** The `i`-th child of a valid branch is valid, lies below it and
        stands for the `i`-th child of the model. */
    lemma KidFacts(i: nat)
      requires Valid() && children.Some? && i < 4
      ensures children.value[i].Valid() && children.value[i] in Repr
      ensures children.value[i].Repr < Repr
      ensures model.Branch? && children.value[i].model == Kid(model, i)
      ensures children.value[i].rectangle == Kid(model, i).rect
    {
    }

    /** A tree none of whose nodes changed is still valid and means the same. */
    static twostate lemma ValidFrame(c: QuadTree<T>)
      requires old(c.Valid()) && unchanged(c.Repr)
      ensures c.Valid() && c.model == old(c.model)
    {
    }

    constructor LeafNode(rect: Rectangle)
      ensures Valid() && fresh(Repr)
      ensures model == Leaf(rect, [])
    {
      rectangle := rect;
      children := None;
      animals := Some([]);
      model := Leaf(rect, []);
      Repr := {this};
    }

    constructor BranchNode(rect: Rectangle, kids: seq<QuadTree<T>>, ghost m: Node<T>)
      requires |kids| == 4
      requires kids[0].Valid() && kids[1].Valid() && kids[2].Valid() && kids[3].Valid()
      requires kids[0].Repr !! kids[1].Repr && kids[0].Repr !! kids[2].Repr && kids[0].Repr !! kids[3].Repr
      requires kids[1].Repr !! kids[2].Repr && kids[1].Repr !! kids[3].Repr && kids[2].Repr !! kids[3].Repr
      requires m == Branch(rect, kids[0].model, kids[1].model, kids[2].model, kids[3].model)
      ensures Valid()
      ensures Repr == {this} + kids[0].Repr + kids[1].Repr + kids[2].Repr + kids[3].Repr
      ensures model == m
    {
      rectangle := rect;
      children := Some(kids);
      animals := None;
      model := m;
      Repr := {this} + kids[0].Repr + kids[1].Repr + kids[2].Repr + kids[3].Repr;
      new;
      assert Owns(kids[0]) && Owns(kids[1]) && Owns(kids[2]) && Owns(kids[3]);
    }

    /** `new_tree`. */
    static method NewTree(rect: Rectangle) returns (t: QuadTree<T>)
      ensures t.Valid() && fresh(t.Repr)
      ensures t.model == NewTreeSpec(rect)
      decreases rect.width.Floor, 1
    {
      if rect.width >= WIDTH_LIMIT {
        var kids := NewChildren(rect);
        ghost var m := Branch(rect, kids[0].model, kids[1].model, kids[2].model, kids[3].model);
        t := new QuadTree.BranchNode(rect, kids, m);
      } else {
        t := new QuadTree.LeafNode(rect);
      }
    }

    /** The loop of `new_tree` that builds the four children in order. */
    static method NewChildren(rect: Rectangle) returns (kids: seq<QuadTree<T>>)
      requires rect.width >= WIDTH_LIMIT
      ensures |kids| == 4
      ensures kids[0].Valid() && kids[1].Valid() && kids[2].Valid() && kids[3].Valid()
      ensures fresh(kids[0].Repr + kids[1].Repr + kids[2].Repr + kids[3].Repr)
      ensures kids[0].Repr !! kids[1].Repr && kids[0].Repr !! kids[2].Repr && kids[0].Repr !! kids[3].Repr
      ensures kids[1].Repr !! kids[2].Repr && kids[1].Repr !! kids[3].Repr && kids[2].Repr !! kids[3].Repr
      ensures Branch(rect, kids[0].model, kids[1].model, kids[2].model, kids[3].model) == NewTreeSpec(rect)
      decreases rect.width.Floor, 0
    {
      kids := [];
      for n := 0 to 4
        invariant |kids| == n
        invariant forall i :: 0 <= i < n ==>
          kids[i].Valid() && fresh(kids[i].Repr) && kids[i].model == NewTreeSpec(Child(rect, i))
        invariant forall i, j :: 0 <= i < j < n ==> kids[i].Repr !! kids[j].Repr
      {
        var c := NewTree(Child(rect, n));
        kids := kids + [c];
      }
      assert fresh(kids[0].Repr) && fresh(kids[1].Repr) && fresh(kids[2].Repr) && fresh(kids[3].Repr);
    }

    /** `append`, in place. */
    method Append(animal: T, body: T -> Body)
      requires Valid()
      modifies Repr
      ensures Valid()
      ensures model == AppendSpec(old(model), animal, body)
      decreases Repr, 3
    {
      if animals.Some? {
        animals := Some(animals.value + [animal]);
        model := Leaf(rectangle, animals.value);
      } else {
        var kids := children.value;
        AppendToChildren(animal, body);
        model := Branch(rectangle, kids[0].model, kids[1].model, kids[2].model, kids[3].model);
      }
    }

    /** The loop of `append` over the children of a branch: every child whose
        rectangle strictly contains the position receives the animal. */
    method AppendToChildren(animal: T, body: T -> Body)
      requires Valid() && children.Some?
      modifies Repr - {this}
      ensures var k := children.value;
        k[0].Valid() && k[1].Valid() && k[2].Valid() && k[3].Valid()
      ensures var k := children.value;
        k[0].model == AppendChild(old(k[0].model), animal, body)
        && k[1].model == AppendChild(old(k[1].model), animal, body)
        && k[2].model == AppendChild(old(k[2].model), animal, body)
        && k[3].model == AppendChild(old(k[3].model), animal, body)
      decreases Repr, 2
    {
      var kids := children.value;
      ghost var before := [kids[0].model, kids[1].model, kids[2].model, kids[3].model];
      KidFacts(0); KidFacts(1); KidFacts(2); KidFacts(3);
      assert kids[0].Repr !! kids[1].Repr && kids[0].Repr !! kids[2].Repr && kids[0].Repr !! kids[3].Repr;
      assert kids[1].Repr !! kids[2].Repr && kids[1].Repr !! kids[3].Repr && kids[2].Repr !! kids[3].Repr;
      for i := 0 to 4
        invariant kids[0].Valid() && kids[1].Valid() && kids[2].Valid() && kids[3].Valid()
        invariant kids[0].model == if 0 < i then AppendChild(before[0], animal, body) else before[0]
        invariant kids[1].model == if 1 < i then AppendChild(before[1], animal, body) else before[1]
        invariant kids[2].model == if 2 < i then AppendChild(before[2], animal, body) else before[2]
        invariant kids[3].model == if 3 < i then AppendChild(before[3], animal, body) else before[3]
      {
        AppendAt(i, animal, body);
      }
    }

    /** The body of that loop: child `i` is offered the animal and the other
        three are untouched. */
    method AppendAt(i: nat, animal: T, body: T -> Body)
      requires children.Some? && Shape() && i < 4
      requires var k := children.value;
        k[0].Valid() && k[1].Valid() && k[2].Valid() && k[3].Valid()
      modifies children.value[i].Repr
      ensures var k := children.value;
        k[0].Valid() && k[1].Valid() && k[2].Valid() && k[3].Valid()
      ensures var k := children.value;
        forall j :: 0 <= j < 4 ==>
          k[j].model == if j == i then AppendChild(old(k[j].model), animal, body) else old(k[j].model)
      decreases Repr, 1
    {
      var kids := children.value;
      kids[i].AppendIfInside(animal, body);
      if i != 0 { ValidFrame(kids[0]); }
      if i != 1 { ValidFrame(kids[1]); }
      if i != 2 { ValidFrame(kids[2]); }
      if i != 3 { ValidFrame(kids[3]); }
    }

    /** One step of that loop: the child receives the animal when its
        rectangle strictly contains the position. */
    method AppendIfInside(animal: T, body: T -> Body)
      requires Valid()
      modifies Repr
      ensures Valid()
      ensures model == AppendChild(old(model), animal, body)
      decreases Repr, 4
    {
      if IsInside(rectangle, body(animal).position) {
        Append(animal, body);
      }
    }

    /** `remove`, in place: the first child that strictly contains the
        position, and then no other. */
    method Remove(animal: T, body: T -> Body)
      requires Valid()
      modifies Repr
      ensures Valid()
      ensures model == RemoveSpec(old(model), animal, body)
      decreases Repr, 2
    {
      if children.Some? {
        var kids := children.value;
        RemoveFromChildren(animal, body);
        model := Branch(rectangle, kids[0].model, kids[1].model, kids[2].model, kids[3].model);
      } else {
        animals := Some(Filter(animals.value, OtherId(body, body(animal).id)));
        model := Leaf(rectangle, animals.value);
      }
    }

    /** The loop of `remove` over the children of a branch: the first child
        that strictly contains the position removes the animal, and the loop
        stops there. */
    method RemoveFromChildren(animal: T, body: T -> Body)
      requires Valid() && children.Some?
      modifies Repr - {this}
      ensures var k := children.value;
        k[0].Valid() && k[1].Valid() && k[2].Valid() && k[3].Valid()
      ensures var k := children.value;
        Branch(rectangle, k[0].model, k[1].model, k[2].model, k[3].model) == RemoveSpec(old(model), animal, body)
      decreases Repr, 1
    {
      var kids := children.value;
      var pos := body(animal).position;
      for i := 0 to 4
        invariant Valid() && model == old(model)
        invariant forall j :: 0 <= j < i ==> !IsInside(kids[j].rectangle, pos)
      {
        if IsInside(kids[i].rectangle, pos) {
          RemoveAt(i, animal, body);
          return;
        }
      }
    }

    /** The body of that loop once a child strictly contains the position:
        that child removes the animal and the other three are untouched. */
    method RemoveAt(i: nat, animal: T, body: T -> Body)
      requires Valid() && children.Some? && i < 4
      modifies Repr - {this}
      ensures var k := children.value;
        k[0].Valid() && k[1].Valid() && k[2].Valid() && k[3].Valid()
      ensures var k := children.value;
        forall j :: 0 <= j < 4 ==>
          k[j].model == if j == i then RemoveSpec(old(k[j].model), animal, body) else old(k[j].model)
      decreases Repr, 0
    {
      var kids := children.value;
      KidFacts(0); KidFacts(1); KidFacts(2); KidFacts(3);
      assert kids[0].Repr !! kids[1].Repr && kids[0].Repr !! kids[2].Repr && kids[0].Repr !! kids[3].Repr;
      assert kids[1].Repr !! kids[2].Repr && kids[1].Repr !! kids[3].Repr && kids[2].Repr !! kids[3].Repr;
      var c := kids[i];
      c.Remove(animal, body);
      if i != 0 { ValidFrame(kids[0]); }
      if i != 1 { ValidFrame(kids[1]); }
      if i != 2 { ValidFrame(kids[2]); }
      if i != 3 { ValidFrame(kids[3]); }
    }

    /** `QuadTree::new`: the whole-screen tree with the animals appended in order. */
    static method New(animals: seq<T>, body: T -> Body) returns (t: QuadTree<T>)
      ensures t.Valid() && fresh(t.Repr)
      ensures t.model == AppendAll(NewTreeSpec(WholeScreen()), animals, body)
    {
      t := NewIn(WholeScreen(), animals, body);
    }

    /** The body of `QuadTree::new` for any rectangle: a fresh tree, then
        each animal appended in order. */
    static method NewIn(rect: Rectangle, animals: seq<T>, body: T -> Body) returns (t: QuadTree<T>)
      ensures t.Valid() && fresh(t.Repr)
      ensures t.model == AppendAll(NewTreeSpec(rect), animals, body)
    {
      t := NewTree(rect);
      for i := 0 to |animals|
        invariant t.Valid() && fresh(t.Repr)
        invariant t.model == AppendAll(NewTreeSpec(rect), animals[..i], body)
      {
        assert animals[..i + 1][..i] == animals[..i];
        t.Append(animals[i], body);
      }
      assert animals[..|animals|] == animals;
    }

    /** `search`, collecting the children's results into one list. */
    method Search(q: Body, radius: real, sqrt: real -> real, body: T -> Body) returns (found: seq<T>)
      requires Valid()
      ensures found == SearchSpec(model, q, radius, sqrt, body)
      decreases Repr
    {
      if MinDist(rectangle, q.position, sqrt) > radius {
        return [];
      } else if animals.Some? {
        return Filter(animals.value, Near(body, q, radius));
      }
      var kids := children.value;
      var ret: seq<T> := [];
      for i := 0 to 4
        invariant ret == SearchKids(model, i, q, radius, sqrt, body)
      {
        KidFacts(i);
        if MinDist(kids[i].rectangle, q.position, sqrt) < radius {
          var more := kids[i].Search(q, radius, sqrt, body);
          if i == 0 {
            assert ret + more == more;
          }
          ret := ret + more;
        }
      }
      SearchKidsAll(model, q, radius, sqrt, body);
      return ret;
    }
  }
}
