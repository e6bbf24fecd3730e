/** The older quad tree: an enum whose branches record their rectangle and
    whose leaves hold the animals. A branch is split into four equal
    quarters, and an else-if chain routes every point to exactly one of
    them, so every appended animal lands in exactly one leaf. */
module QuadTreeEnum {
  import opened PVectors
  import opened Seqs
  import opened Powers
  import C = Consts

  /** `QuadTree::{Leef, Branch}`. The children are owned (boxed), so the tree is a value. */
  datatype Tree<T> =
    | Leef(animals: seq<T>)
    | Branch(leftUp: Tree<T>, rightUp: Tree<T>, leftDown: Tree<T>, rightDown: Tree<T>,
             x: real, y: real, width: real, height: real)

  /** The four quarters of a branch, in the order the routing chain tests them. */
  datatype Quadrant = LeftUp | LeftDown | RightUp | RightDown

  /** The child of a branch in quarter `q`. */
  function Kid<T>(t: Tree<T>, q: Quadrant): (k: Tree<T>)
    requires t.Branch?
    ensures k < t
  {
    match q
    case LeftUp => t.leftUp
    case LeftDown => t.leftDown
    case RightUp => t.rightUp
    case RightDown => t.rightDown
  }

  // ---- shape ---------------------------------------------------------------

  /** A tree built for the rectangle (`x`, `y`, `w`, `h`): a leaf exactly when
      `w` is at most `CELL_WIDTH`, and otherwise a branch recording that rectangle. */
  predicate Placed<T>(t: Tree<T>, x: real, y: real, w: real, h: real)
  {
    (t.Leef? <==> w <= C.CELL_WIDTH)
    && (t.Branch? ==> t.x == x && t.y == y && t.width == w && t.height == h)
  }

  /** Every branch's children are placed on its four half-size quarters. */
  predicate WellFormed<T>(t: Tree<T>)
  {
    match t
    case Leef(_) => true
    case Branch(lu, ru, ld, rd, x, y, w, h) =>
      var cw, ch := w / 2.0, h / 2.0;
      Placed(lu, x, y, cw, ch) && Placed(ru, x + cw, y, cw, ch)
      && Placed(ld, x, y + ch, cw, ch) && Placed(rd, x + cw, y + ch, cw, ch)
      && WellFormed(lu) && WellFormed(ru) && WellFormed(ld) && WellFormed(rd)
  }

  /** The animals of every leaf, left-up, right-up, left-down, right-down. */
  function Elements<T>(t: Tree<T>): seq<T>
  {
    match t
    case Leef(animals) => animals
    case Branch(lu, ru, ld, rd, _, _, _, _) => Elements(lu) + Elements(ru) + Elements(ld) + Elements(rd)
  }

  /** The leaves' lists, in the same order. */
  function Leaves<T>(t: Tree<T>): (r: seq<seq<T>>)
    ensures |r| >= 1
  {
    match t
    case Leef(animals) => [animals]
    case Branch(lu, ru, ld, rd, _, _, _, _) => Leaves(lu) + Leaves(ru) + Leaves(ld) + Leaves(rd)
  }

  /** `new_tree`: split while wider than `CELL_WIDTH`, into quarters at
      (x, y), (x + w/2, y), (x, y + h/2) and (x + w/2, y + h/2). */
  function NewTree<T>(x: real, y: real, w: real, h: real): (t: Tree<T>)
    ensures Placed(t, x, y, w, h)
    decreases if w > C.CELL_WIDTH then w.Floor else 0
  {
    if w <= C.CELL_WIDTH then Leef([])
    else
      var nw, nh := w / 2.0, h / 2.0;
      var leftUp := NewTree(x, y, nw, nh);
      var rightUp := NewTree(x + nw, y, nw, nh);
      var leftDown := NewTree(x, y + nh, nw, nh);
      var rightDown := NewTree(x + nw, y + nh, nw, nh);
      Branch(leftUp, rightUp, leftDown, rightDown, x, y, w, h)
  }

  /** `new_tree` builds a well-formed tree with nothing stored in it. */
  lemma {:induction false} NewTreeWellFormed<T>(x: real, y: real, w: real, h: real)
    ensures WellFormed(NewTree<T>(x, y, w, h)) && Elements(NewTree<T>(x, y, w, h)) == []
    decreases if w > C.CELL_WIDTH then w.Floor else 0
  {
    if w > C.CELL_WIDTH {
      var cw, ch := w / 2.0, h / 2.0;
      var lu, ru, ld, rd := NewTree<T>(x, y, cw, ch), NewTree<T>(x + cw, y, cw, ch),
        NewTree<T>(x, y + ch, cw, ch), NewTree<T>(x + cw, y + ch, cw, ch);
      assert NewTree<T>(x, y, w, h) == Branch(lu, ru, ld, rd, x, y, w, h);
      NewTreeWellFormed<T>(x, y, cw, ch);
      NewTreeWellFormed<T>(x + cw, y, cw, ch);
      NewTreeWellFormed<T>(x, y + ch, cw, ch);
      NewTreeWellFormed<T>(x + cw, y + ch, cw, ch);
      assert Elements(Branch(lu, ru, ld, rd, x, y, w, h)) == [];
    }
  }

  /** Every leaf of an empty tree is empty. */
  lemma {:induction false} EmptyLeaves<T>(t: Tree<T>)
    requires Elements(t) == []
    ensures forall k :: 0 <= k < |Leaves(t)| ==> Leaves(t)[k] == []
    decreases t
  {
    match t
    case Leef(_) =>
    case Branch(lu, ru, ld, rd, _, _, _, _) =>
      EmptyLeaves(lu);
      EmptyLeaves(ru);
      EmptyLeaves(ld);
      EmptyLeaves(rd);
  }

  // ---- the screen tree -------------------------------------------------------

  /** Every path from `t` down to a leaf passes exactly `k` branches. */
  predicate LeavesAt<T>(t: Tree<T>, k: nat)
  {
    match t
    case Leef(_) => k == 0
    case Branch(lu, ru, ld, rd, _, _, _, _) =>
      k > 0 && LeavesAt(lu, k - 1) && LeavesAt(ru, k - 1) && LeavesAt(ld, k - 1) && LeavesAt(rd, k - 1)
  }

  /** The width and height of the region of every leaf, in leaf order, for a
      tree whose root region is `w` by `h`. */
  function Cells<T>(t: Tree<T>, w: real, h: real): (r: seq<(real, real)>)
    ensures |r| == |Leaves(t)|
  {
    match t
    case Leef(_) => [(w, h)]
    case Branch(lu, ru, ld, rd, _, _, tw, th) =>
      Cells(lu, tw / 2.0, th / 2.0) + Cells(ru, tw / 2.0, th / 2.0)
      + Cells(ld, tw / 2.0, th / 2.0) + Cells(rd, tw / 2.0, th / 2.0)
  }

  /** A well-formed tree on a rectangle of 40·2^k by 30·2^k is split `k`
      times, into 4^k leaves. */
  lemma {:induction false} ScaledShape<T>(t: Tree<T>, k: nat, x: real, y: real, w: real, h: real)
    requires Placed(t, x, y, w, h) && WellFormed(t)
    requires w == 40.0 * Pow2(k) && h == 30.0 * Pow2(k)
    ensures LeavesAt(t, k)
    ensures |Leaves(t)| == Pow4(k)
    decreases t
  {
    ScaledSize(k, w, h);
    match t
    case Leef(_) =>
    case Branch(lu, ru, ld, rd, _, _, _, _) =>
      var cw, ch := w / 2.0, h / 2.0;
      assert Placed(lu, x, y, cw, ch) && Placed(ru, x + cw, y, cw, ch)
        && Placed(ld, x, y + ch, cw, ch) && Placed(rd, x + cw, y + ch, cw, ch);
      ScaledShape(lu, k - 1, x, y, cw, ch);
      ScaledShape(ru, k - 1, x + cw, y, cw, ch);
      ScaledShape(ld, k - 1, x, y + ch, cw, ch);
      ScaledShape(rd, k - 1, x + cw, y + ch, cw, ch);
  }

  /** ... and every one of those leaves covers 40 by 30. */
  lemma {:induction false} ScaledCells<T>(t: Tree<T>, k: nat, x: real, y: real, w: real, h: real)
    requires Placed(t, x, y, w, h) && WellFormed(t)
    requires w == 40.0 * Pow2(k) && h == 30.0 * Pow2(k)
    ensures forall i :: 0 <= i < |Cells(t, w, h)| ==> Cells(t, w, h)[i] == (40.0, 30.0)
    decreases t
  {
    ScaledSize(k, w, h);
    match t
    case Leef(_) =>
    case Branch(lu, ru, ld, rd, _, _, _, _) =>
      var cw, ch := w / 2.0, h / 2.0;
      assert Placed(lu, x, y, cw, ch) && Placed(ru, x + cw, y, cw, ch)
        && Placed(ld, x, y + ch, cw, ch) && Placed(rd, x + cw, y + ch, cw, ch);
      ScaledCells(lu, k - 1, x, y, cw, ch);
      ScaledCells(ru, k - 1, x + cw, y, cw, ch);
      ScaledCells(ld, k - 1, x, y + ch, cw, ch);
      ScaledCells(rd, k - 1, x + cw, y + ch, cw, ch);
      AllEqualFour(Cells(lu, cw, ch), Cells(ru, cw, ch), Cells(ld, cw, ch), Cells(rd, cw, ch), (40.0, 30.0));
  }

  /** A region of 40·2^k by 30·2^k is split exactly when `k > 0`, into
      regions of 40·2^(k-1) by 30·2^(k-1). */
  lemma ScaledSize(k: nat, w: real, h: real)
    requires w == 40.0 * Pow2(k) && h == 30.0 * Pow2(k)
    ensures k == 0 <==> w <= C.CELL_WIDTH
    ensures k > 0 ==> w / 2.0 == 40.0 * Pow2(k - 1) && h / 2.0 == 30.0 * Pow2(k - 1)
  {
    if k > 0 {
      Pow2AtLeastOne(k - 1);
    }
  }

  /** Four sequences holding only `v` concatenate to one holding only `v`. */
  lemma AllEqualFour<U>(a: seq<U>, b: seq<U>, c: seq<U>, d: seq<U>, v: U)
    requires forall i :: 0 <= i < |a| ==> a[i] == v
    requires forall i :: 0 <= i < |b| ==> b[i] == v
    requires forall i :: 0 <= i < |c| ==> c[i] == v
    requires forall i :: 0 <= i < |d| ==> d[i] == v
    ensures forall i :: 0 <= i < |a + b + c + d| ==> (a + b + c + d)[i] == v
  {
  }

  /** The screen tree of `new`: 640 by 480 with `CELL_WIDTH` 64 has four
      levels of branches above 256 leaves of 40 by 30. */
  lemma ScreenShape<T>(x: real, y: real)
    ensures LeavesAt(NewTree<T>(x, y, C.WIDTH, C.HEIGHT), 4)
    ensures |Leaves(NewTree<T>(x, y, C.WIDTH, C.HEIGHT))| == 256
    ensures forall i :: 0 <= i < |Cells(NewTree<T>(x, y, C.WIDTH, C.HEIGHT), C.WIDTH, C.HEIGHT)| ==>
      Cells(NewTree<T>(x, y, C.WIDTH, C.HEIGHT), C.WIDTH, C.HEIGHT)[i] == (40.0, 30.0)
  {
    assert Pow2(4) == 16.0 by {
      assert Pow2(1) == 2.0;
      assert Pow2(2) == 4.0;
      assert Pow2(3) == 8.0;
    }
    assert Pow4(4) == 256 by {
      assert Pow4(1) == 4;
      assert Pow4(2) == 16;
      assert Pow4(3) == 64;
    }
    NewTreeWellFormed<T>(x, y, C.WIDTH, C.HEIGHT);
    ScaledShape(NewTree<T>(x, y, C.WIDTH, C.HEIGHT), 4, x, y, C.WIDTH, C.HEIGHT);
    ScaledCells(NewTree<T>(x, y, C.WIDTH, C.HEIGHT), 4, x, y, C.WIDTH, C.HEIGHT);
  }

  // ---- routing and append ----------------------------------------------------

  /** The else-if chain of `append`: the quarter it picks for `p` from the
      offset of `p` to the branch's corner. */
  function Route(x: real, y: real, w: real, h: real, p: PVector): Quadrant
  {
    var offset := Add(Mult(PVectors.New(x, y), -1.0), p);
    if offset.x < w / 2.0 && offset.y < h / 2.0 then LeftUp
    else if offset.x < w / 2.0 then LeftDown
    else if offset.y < h / 2.0 then RightUp
    else RightDown
  }

  /** Each quarter is picked exactly for the points on its side of both midlines. */
  lemma RouteCases(x: real, y: real, w: real, h: real, p: PVector)
    ensures Route(x, y, w, h, p) == LeftUp <==> p.x - x < w / 2.0 && p.y - y < h / 2.0
    ensures Route(x, y, w, h, p) == LeftDown <==> p.x - x < w / 2.0 && p.y - y >= h / 2.0
    ensures Route(x, y, w, h, p) == RightUp <==> p.x - x >= w / 2.0 && p.y - y < h / 2.0
    ensures Route(x, y, w, h, p) == RightDown <==> p.x - x >= w / 2.0 && p.y - y >= h / 2.0
  {
  }

  function RouteOf<T>(t: Tree<T>, p: PVector): Quadrant
    requires t.Branch?
  {
    Route(t.x, t.y, t.width, t.height, p)
  }

  /** `append`: push to the back of a leaf, or descend into the one quarter
      the chain picks. */
  function Append<T>(t: Tree<T>, animal: T, pos: T -> PVector): Tree<T>
  {
    match t
    case Leef(animals) => Leef(animals + [animal])
    case Branch(leftUp, rightUp, leftDown, rightDown, x, y, width, height) =>
      match Route(x, y, width, height, pos(animal))
      case LeftUp => t.(leftUp := Append(leftUp, animal, pos))
      case LeftDown => t.(leftDown := Append(leftDown, animal, pos))
      case RightUp => t.(rightUp := Append(rightUp, animal, pos))
      case RightDown => t.(rightDown := Append(rightDown, animal, pos))
  }

  /** At a branch, `append` descends into the routed quarter, leaves the
      other three children as they were and keeps the rectangle. */
  lemma AppendRoutes<T>(t: Tree<T>, animal: T, pos: T -> PVector, other: Quadrant)
    requires t.Branch?
    ensures Append(t, animal, pos).Branch?
    ensures Kid(Append(t, animal, pos), RouteOf(t, pos(animal))) == Append(Kid(t, RouteOf(t, pos(animal))), animal, pos)
    ensures other != RouteOf(t, pos(animal)) ==> Kid(Append(t, animal, pos), other) == Kid(t, other)
    ensures var r := Append(t, animal, pos);
      r.x == t.x && r.y == t.y && r.width == t.width && r.height == t.height
  {
  }

  /** `u` has the branches of `t`, with the same rectangles; only the
      leaves' lists may differ. */
  predicate SameShape<T>(t: Tree<T>, u: Tree<T>)
  {
    match t
    case Leef(_) => u.Leef?
    case Branch(lu, ru, ld, rd, x, y, w, h) =>
      u.Branch? && u.x == x && u.y == y && u.width == w && u.height == h
      && SameShape(lu, u.leftUp) && SameShape(ru, u.rightUp)
      && SameShape(ld, u.leftDown) && SameShape(rd, u.rightDown)
  }

  lemma {:induction false} SameShapeRefl<T>(t: Tree<T>)
    ensures SameShape(t, t)
    decreases t
  {
    match t
    case Leef(_) =>
    case Branch(lu, ru, ld, rd, _, _, _, _) =>
      SameShapeRefl(lu);
      SameShapeRefl(ru);
      SameShapeRefl(ld);
      SameShapeRefl(rd);
  }

  /** `append` changes no branch. */
  lemma {:induction false} AppendSameShape<T>(t: Tree<T>, animal: T, pos: T -> PVector)
    ensures SameShape(t, Append(t, animal, pos))
    decreases t
  {
    match t
    case Leef(_) =>
    case Branch(lu, ru, ld, rd, x, y, w, h) =>
      SameShapeRefl(lu);
      SameShapeRefl(ru);
      SameShapeRefl(ld);
      SameShapeRefl(rd);
      match Route(x, y, w, h, pos(animal))
      case LeftUp => AppendSameShape(lu, animal, pos);
      case LeftDown => AppendSameShape(ld, animal, pos);
      case RightUp => AppendSameShape(ru, animal, pos);
      case RightDown => AppendSameShape(rd, animal, pos);
  }

  /** Trees of the same shape are placed alike and are well-formed alike. */
  lemma {:induction false} SameShapeWellFormed<T>(t: Tree<T>, u: Tree<T>, x: real, y: real, w: real, h: real)
    requires SameShape(t, u) && Placed(t, x, y, w, h) && WellFormed(t)
    ensures Placed(u, x, y, w, h) && WellFormed(u)
    decreases t
  {
    match t
    case Leef(_) =>
    case Branch(lu, ru, ld, rd, _, _, _, _) =>
      var cw, ch := w / 2.0, h / 2.0;
      SameShapeWellFormed(lu, u.leftUp, x, y, cw, ch);
      SameShapeWellFormed(ru, u.rightUp, x + cw, y, cw, ch);
      SameShapeWellFormed(ld, u.leftDown, x, y + ch, cw, ch);
      SameShapeWellFormed(rd, u.rightDown, x + cw, y + ch, cw, ch);
  }

  /** The stored animals grow by exactly the appended one: it goes to one
      leaf, never to none and never to two. */
  lemma {:induction false} AppendElements<T>(t: Tree<T>, animal: T, pos: T -> PVector)
    ensures multiset(Elements(Append(t, animal, pos))) == multiset(Elements(t)) + multiset{animal}
    ensures |Elements(Append(t, animal, pos))| == |Elements(t)| + 1
    decreases t
  {
    match t
    case Leef(_) =>
    case Branch(lu, ru, ld, rd, x, y, w, h) =>
      match Route(x, y, w, h, pos(animal))
      case LeftUp => AppendElements(lu, animal, pos);
      case LeftDown => AppendElements(ld, animal, pos);
      case RightUp => AppendElements(ru, animal, pos);
      case RightDown => AppendElements(rd, animal, pos);
  }

  /** The index, among the leaves, of the leaf the routing chain leads `p` to. */
  function LeafIndex<T>(t: Tree<T>, p: PVector): (i: nat)
    ensures i < |Leaves(t)|
  {
    match t
    case Leef(_) => 0
    case Branch(lu, ru, ld, rd, _, _, _, _) =>
      match RouteOf(t, p)
      case LeftUp => LeafIndex(lu, p)
      case RightUp => |Leaves(lu)| + LeafIndex(ru, p)
      case LeftDown => |Leaves(lu)| + |Leaves(ru)| + LeafIndex(ld, p)
      case RightDown => |Leaves(lu)| + |Leaves(ru)| + |Leaves(ld)| + LeafIndex(rd, p)
  }

  /** `append` changes only the leaf it routes to, and adds at its back. */
  lemma {:induction false} AppendLeaves<T>(t: Tree<T>, animal: T, pos: T -> PVector)
    ensures Leaves(Append(t, animal, pos))
      == Leaves(t)[LeafIndex(t, pos(animal)) := Leaves(t)[LeafIndex(t, pos(animal))] + [animal]]
    decreases t
  {
    match t
    case Leef(_) =>
    case Branch(lu, ru, ld, rd, x, y, w, h) =>
      var p := pos(animal);
      var a, b, c, d := Leaves(lu), Leaves(ru), Leaves(ld), Leaves(rd);
      match Route(x, y, w, h, p)
      case LeftUp =>
        AppendLeaves(lu, animal, pos);
        var i := LeafIndex(lu, p);
        UpdateFour(a, b, c, d, i, a[i] + [animal]);
      case RightUp =>
        AppendLeaves(ru, animal, pos);
        var i := LeafIndex(ru, p);
        UpdateFour(a, b, c, d, |a| + i, b[i] + [animal]);
      case LeftDown =>
        AppendLeaves(ld, animal, pos);
        var i := LeafIndex(ld, p);
        UpdateFour(a, b, c, d, |a| + |b| + i, c[i] + [animal]);
      case RightDown =>
        AppendLeaves(rd, animal, pos);
        var i := LeafIndex(rd, p);
        UpdateFour(a, b, c, d, |a| + |b| + |c| + i, d[i] + [animal]);
  }

  /** Updating one element of four concatenated sequences updates it in its part. */
  lemma UpdateFour<U>(a: seq<U>, b: seq<U>, c: seq<U>, d: seq<U>, j: nat, v: U)
    requires j < |a| + |b| + |c| + |d|
    ensures j < |a| ==> (a + b + c + d)[j := v] == a[j := v] + b + c + d
    ensures |a| <= j < |a| + |b| ==> (a + b + c + d)[j := v] == a + b[j - |a| := v] + c + d
    ensures |a| + |b| <= j < |a| + |b| + |c| ==> (a + b + c + d)[j := v] == a + b + c[j - |a| - |b| := v] + d
    ensures |a| + |b| + |c| <= j ==> (a + b + c + d)[j := v] == a + b + c + d[j - |a| - |b| - |c| := v]
    ensures (a + b + c + d)[j] ==
      if j < |a| then a[j] else if j < |a| + |b| then b[j - |a|]
      else if j < |a| + |b| + |c| then c[j - |a| - |b|] else d[j - |a| - |b| - |c|]
  {
  }

  /** Trees of the same shape have as many leaves and route every point to
      the same leaf. */
  lemma {:induction false} SameShapeRouting<T>(t: Tree<T>, u: Tree<T>, p: PVector)
    requires SameShape(t, u)
    ensures |Leaves(u)| == |Leaves(t)|
    ensures LeafIndex(u, p) == LeafIndex(t, p)
    decreases t
  {
    match t
    case Leef(_) =>
    case Branch(lu, ru, ld, rd, _, _, _, _) =>
      SameShapeRouting(lu, u.leftUp, p);
      SameShapeRouting(ru, u.rightUp, p);
      SameShapeRouting(ld, u.leftDown, p);
      SameShapeRouting(rd, u.rightDown, p);
  }

  // ---- new ---------------------------------------------------------------

  /** The animals that `t` routes to leaf `k`. */
  function RoutedTo<T>(t: Tree<T>, pos: T -> PVector, k: nat): T -> bool
  {
    a => LeafIndex(t, pos(a)) == k
  }

  /** `new`: the screen tree with every animal appended in order. Each animal
      is stored exactly once, and every leaf holds, in input order, exactly
      the animals routed to it. */
  method New<T>(animals: seq<T>, pos: T -> PVector) returns (t: Tree<T>)
    ensures Placed(t, 0.0, 0.0, C.WIDTH, C.HEIGHT) && WellFormed(t)
    ensures multiset(Elements(t)) == multiset(animals) && |Elements(t)| == |animals|
    ensures forall k :: 0 <= k < |Leaves(t)| ==> Leaves(t)[k] == Filter(animals, RoutedTo(t, pos, k))
  {
    t := NewIn(0.0, 0.0, C.WIDTH, C.HEIGHT, animals, pos);
  }

  /** One step of `new`: appending `a` to a tree whose leaves filter `s`
      leaves a tree whose leaves filter `s + [a]`. */
  lemma LeavesStep<T>(t: Tree<T>, t0: Tree<T>, s: seq<T>, a: T, pos: T -> PVector)
    requires |Leaves(t)| == |Leaves(t0)| && LeafIndex(t, pos(a)) == LeafIndex(t0, pos(a))
    requires forall k :: 0 <= k < |Leaves(t)| ==> Leaves(t)[k] == Filter(s, RoutedTo(t0, pos, k))
    ensures |Leaves(Append(t, a, pos))| == |Leaves(t)|
    ensures forall k :: 0 <= k < |Leaves(t)| ==> Leaves(Append(t, a, pos))[k] == Filter(s + [a], RoutedTo(t0, pos, k))
  {
    AppendLeaves(t, a, pos);
    forall k | 0 <= k < |Leaves(t)| ensures Leaves(Append(t, a, pos))[k] == Filter(s + [a], RoutedTo(t0, pos, k)) {
      FilterSnoc(s, a, RoutedTo(t0, pos, k));
    }
  }

  /** The body of `new` for any rectangle. */
  method NewIn<T>(x: real, y: real, w: real, h: real, animals: seq<T>, pos: T -> PVector) returns (t: Tree<T>)
    ensures Placed(t, x, y, w, h) && WellFormed(t)
    ensures multiset(Elements(t)) == multiset(animals) && |Elements(t)| == |animals|
    ensures forall k :: 0 <= k < |Leaves(t)| ==> Leaves(t)[k] == Filter(animals, RoutedTo(t, pos, k))
  {
    t := NewTree(x, y, w, h);
    NewTreeWellFormed<T>(x, y, w, h);
    ghost var t0 := t;
    EmptyLeaves(t0);
    for i := 0 to |animals|
      invariant Placed(t, x, y, w, h) && WellFormed(t)
      invariant multiset(Elements(t)) == multiset(animals[..i]) && |Elements(t)| == i
      invariant |Leaves(t)| == |Leaves(t0)|
      invariant forall p :: LeafIndex(t, p) == LeafIndex(t0, p)
      invariant forall k :: 0 <= k < |Leaves(t)| ==> Leaves(t)[k] == Filter(animals[..i], RoutedTo(t0, pos, k))
    {
      var a := animals[i];
      assert animals[..i + 1] == animals[..i] + [a];
      LeavesStep(t, t0, animals[..i], a, pos);
      AppendSameShape(t, a, pos);
      SameShapeWellFormed(t, Append(t, a, pos), x, y, w, h);
      AppendElements(t, a, pos);
      forall p | true ensures LeafIndex(Append(t, a, pos), p) == LeafIndex(t, p) {
        SameShapeRouting(t, Append(t, a, pos), p);
      }
      t := Append(t, a, pos);
    }
    assert animals[..|animals|] == animals;
    forall k | 0 <= k < |Leaves(t)| ensures Leaves(t)[k] == Filter(animals, RoutedTo(t, pos, k)) {
      FilterExt(animals, RoutedTo(t0, pos, k), RoutedTo(t, pos, k));
    }
  }
}
