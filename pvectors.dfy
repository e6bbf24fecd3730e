/** Two-dimensional vectors on the wrap-around plane. Positions live on a
    torus of `WIDTH` by `HEIGHT`; the displacement between two positions is
    taken per axis along the shorter of the direct and the wrapped path. */
module PVectors {

  /** pvector.rs keeps its own copy of the plane size. */
  const WIDTH: real := 640.0
  const HEIGHT: real := 480.0

  datatype PVector = PVector(x: real, y: real)

  function New(x: real, y: real): (v: PVector)
    ensures v.x == x && v.y == y
  {
    PVector(x, y)
  }

  /** The squared length; `len` is its square root. */
  function LenSq(v: PVector): (r: real)
    ensures r >= 0.0
  {
    v.x * v.x + v.y * v.y
  }

  /** `len`, with the square root left to the caller. */
  function Len(v: PVector, sqrt: real -> real): (r: real)
    ensures (forall t :: t >= 0.0 ==> sqrt(t) >= 0.0 && sqrt(t) * sqrt(t) == t) ==> r >= 0.0 && r * r == LenSq(v)
  {
    sqrt(LenSq(v))
  }

  /** The signed nearest displacement from `s` to `o` along an axis of the
      given extent; `offset_x` and `offset_y` are this rule for the two axes. */
  function NearestOffset(s: real, o: real, extent: real): (r: real)
    requires extent > 0.0
    ensures r == o - s || r == o - s - extent || r == o - s + extent
    ensures 0.0 <= s <= extent && 0.0 <= o <= extent ==> -extent / 2.0 <= r <= extent / 2.0
  {
    var d := o - s;
    if s < o && d < extent - d then d
    else if s < o then d - extent
    else if -extent - d < d then d
    else extent + d
  }

  function OffsetX(s: real, o: real): (r: real)
    ensures r == o - s || r == o - s - WIDTH || r == o - s + WIDTH
    ensures 0.0 <= s <= WIDTH && 0.0 <= o <= WIDTH ==> -WIDTH / 2.0 <= r <= WIDTH / 2.0
  {
    NearestOffset(s, o, WIDTH)
  }

  function OffsetY(s: real, o: real): (r: real)
    ensures r == o - s || r == o - s - HEIGHT || r == o - s + HEIGHT
    ensures 0.0 <= s <= HEIGHT && 0.0 <= o <= HEIGHT ==> -HEIGHT / 2.0 <= r <= HEIGHT / 2.0
  {
    NearestOffset(s, o, HEIGHT)
  }

  /** `offset`: from `a` to `b` along the shorter way round on each axis;
      between two positions on the plane it is at most half the plane. */
  function Offset(a: PVector, b: PVector): (r: PVector)
    ensures r.x == b.x - a.x || r.x == b.x - a.x - WIDTH || r.x == b.x - a.x + WIDTH
    ensures r.y == b.y - a.y || r.y == b.y - a.y - HEIGHT || r.y == b.y - a.y + HEIGHT
    ensures 0.0 <= a.x <= WIDTH && 0.0 <= b.x <= WIDTH ==> -WIDTH / 2.0 <= r.x <= WIDTH / 2.0
    ensures 0.0 <= a.y <= HEIGHT && 0.0 <= b.y <= HEIGHT ==> -HEIGHT / 2.0 <= r.y <= HEIGHT / 2.0
  {
    PVector(OffsetX(a.x, b.x), OffsetY(a.y, b.y))
  }

  /** `add`: translating `a` by `b`; taking `a` away again leaves `b`. */
  function Add(a: PVector, b: PVector): (r: PVector)
    ensures r.x - a.x == b.x && r.y - a.y == b.y
  {
    PVector(a.x + b.x, a.y + b.y)
  }

  /** `mult`: scaling by 1 changes nothing and scaling by 0 gives `zero`;
      `MultLenSq` gives the length of the result. */
  function Mult(v: PVector, scalar: real): (r: PVector)
    ensures scalar == 1.0 ==> r == v
    ensures scalar == 0.0 ==> r == Zero()
  {
    PVector(v.x * scalar, v.y * scalar)
  }

  /** `zero`: adding it changes no vector. */
  function Zero(): (z: PVector)
    ensures forall v :: Add(v, z) == v
  {
    PVector(0.0, 0.0)
  }

  /** Scaling a vector scales its squared length by the square of the scale. */
  lemma MultLenSq(v: PVector, scalar: real)
    ensures LenSq(Mult(v, scalar)) == scalar * scalar * LenSq(v)
  {
    var m := Mult(v, scalar);
    assert m.x * m.x == scalar * scalar * (v.x * v.x);
    assert m.y * m.y == scalar * scalar * (v.y * v.y);
  }

  /** `PartialEq::eq`: componentwise comparison, which is value equality. */
  predicate Eq(a: PVector, b: PVector)
    ensures Eq(a, b) <==> a == b
  {
    a.x == b.x && a.y == b.y
  }

  /** `other.len() < radius`, stated without the square root: for a
      non-negative length `l`, `l < radius` holds exactly when the radius is
      positive and `l * l < radius * radius`. */
  predicate Within(a: PVector, b: PVector, radius: real)
  {
    0.0 < radius && LenSq(Offset(a, b)) < radius * radius
  }

  /** The per-axis screen wrap that every `move_self` applies: subtract the
      extent once if past it, then add it once if below zero. */
  function WrapOnce(v: real, extent: real): (r: real)
    requires extent > 0.0
    ensures r == v || r == v - extent || r == v + extent
    ensures -extent <= v <= 2.0 * extent ==> 0.0 <= r <= extent
    ensures 0.0 <= v <= extent ==> r == v
  {
    var a := if v > extent then v - extent else v;
    if a < 0.0 then a + extent else a
  }

  /** `Within` is `len() < radius` for any square root function. */
  lemma WithinIsLenLess(a: PVector, b: PVector, radius: real, sqrt: real -> real)
    requires forall t :: t >= 0.0 ==> sqrt(t) >= 0.0 && sqrt(t) * sqrt(t) == t
    ensures Within(a, b, radius) <==> Len(Offset(a, b), sqrt) < radius
  {
    var q := LenSq(Offset(a, b));
    var l := sqrt(q);
    assert l >= 0.0 && l * l == q;
    assert Len(Offset(a, b), sqrt) == l;
    if l < radius {
      SquareStrictMono(l, radius);
    } else if 0.0 < radius {
      SquareMono(radius, l);
    }
  }

  /** A point is within any positive radius of itself. */
  lemma WithinSelf(p: PVector, radius: real)
    requires radius > 0.0
    ensures Within(p, p, radius)
  {
    OffsetSelf(p);
    ZeroBelowSquare(LenSq(Offset(p, p)), radius);
  }

  lemma OffsetSelf(p: PVector)
    ensures Offset(p, p) == Zero() && LenSq(Offset(p, p)) == 0.0
  {
    assert Offset(p, p) == Zero();
  }

  lemma ZeroBelowSquare(q: real, radius: real)
    requires q == 0.0 && radius > 0.0
    ensures q < radius * radius
  {
    SquareStrictMono(q, radius);
  }

  lemma SquareStrictMono(l: real, r: real)
    requires 0.0 <= l < r
    ensures l * l < r * r
  {
    var ll, lr, rr := l * l, l * r, r * r;
    assert ll <= lr;
    assert lr < rr;
  }

  lemma SquareMono(l: real, r: real)
    requires 0.0 <= l <= r
    ensures l * l <= r * r
  {
    var ll, lr, rr := l * l, l * r, r * r;
    assert ll <= lr;
    assert lr <= rr;
  }

  // ---- properties of the nearest offset -------------------------------------

  lemma NearestOffsetAntisymmetric(s: real, o: real, extent: real)
    requires extent > 0.0
    ensures NearestOffset(s, o, extent) == -NearestOffset(o, s, extent)
  {
  }

  /** Among the three candidates the chosen one has the least magnitude. */
  lemma NearestOffsetIsNearest(s: real, o: real, extent: real)
    requires extent > 0.0
    requires 0.0 <= s <= extent && 0.0 <= o <= extent
    ensures var r := NearestOffset(s, o, extent);
      Abs(r) <= Abs(o - s) && Abs(r) <= Abs(o - s - extent) && Abs(r) <= Abs(o - s + extent)
  {
  }

  function Abs(r: real): real
  {
    if r < 0.0 then -r else r
  }

  lemma OffsetAntisymmetric(a: PVector, b: PVector)
    ensures Offset(a, b) == Mult(Offset(b, a), -1.0)
  {
    NearestOffsetAntisymmetric(a.x, b.x, WIDTH);
    NearestOffsetAntisymmetric(a.y, b.y, HEIGHT);
  }

  lemma OffsetIsNearest(a: PVector, b: PVector)
    requires 0.0 <= a.x <= WIDTH && 0.0 <= b.x <= WIDTH
    requires 0.0 <= a.y <= HEIGHT && 0.0 <= b.y <= HEIGHT
    ensures Abs(Offset(a, b).x) <= Abs(b.x - a.x) && Abs(Offset(a, b).x) <= Abs(b.x - a.x - WIDTH)
    ensures Abs(Offset(a, b).x) <= Abs(b.x - a.x + WIDTH)
    ensures Abs(Offset(a, b).y) <= Abs(b.y - a.y) && Abs(Offset(a, b).y) <= Abs(b.y - a.y - HEIGHT)
    ensures Abs(Offset(a, b).y) <= Abs(b.y - a.y + HEIGHT)
  {
    NearestOffsetIsNearest(a.x, b.x, WIDTH);
    NearestOffsetIsNearest(a.y, b.y, HEIGHT);
  }

  /** Points closer than half the plane along an axis get the plain difference. */
  lemma OffsetDirect(a: PVector, b: PVector)
    ensures Abs(b.x - a.x) < WIDTH / 2.0 ==> Offset(a, b).x == b.x - a.x
    ensures Abs(b.y - a.y) < HEIGHT / 2.0 ==> Offset(a, b).y == b.y - a.y
  {
  }

  /** At exactly half the plane ahead the wrapped value is returned. */
  lemma OffsetTieBreak(a: PVector, b: PVector)
    ensures a.x < b.x && b.x - a.x == WIDTH / 2.0 ==> Offset(a, b).x == -WIDTH / 2.0
    ensures a.y < b.y && b.y - a.y == HEIGHT / 2.0 ==> Offset(a, b).y == -HEIGHT / 2.0
  {
  }

  /** Across the seam: from x = 639 to x = 2 is 3 to the right. */
  lemma OffsetAcrossSeam()
    ensures Offset(PVector(639.0, 10.0), PVector(2.0, 10.0)) == PVector(3.0, 0.0)
  {
  }

  /** The squared length does not see the sign of the offset, so `Within` is symmetric. */
  lemma WithinSymmetric(a: PVector, b: PVector, radius: real)
    ensures Within(a, b, radius) == Within(b, a, radius)
  {
    OffsetAntisymmetric(a, b);
    LenSqFlip(Offset(b, a));
  }

  lemma LenSqFlip(u: PVector)
    ensures LenSq(Mult(u, -1.0)) == LenSq(u)
  {
    assert (u.x * -1.0) * (u.x * -1.0) == u.x * u.x;
    assert (u.y * -1.0) * (u.y * -1.0) == u.y * u.y;
  }

  // ---- vector algebra ----------------------------------------------------------

  lemma AddComponentwise(a: PVector, b: PVector)
    ensures Add(a, b).x == a.x + b.x && Add(a, b).y == a.y + b.y
    ensures Add(a, b) == Add(b, a)
    ensures Add(a, Zero()) == a
  {
  }

  lemma MultComponentwise(v: PVector, s: real, t: real)
    ensures Mult(v, s).x == v.x * s && Mult(v, s).y == v.y * s
    ensures Mult(v, 0.0) == Zero() && Mult(v, 1.0) == v
    ensures Mult(Mult(v, s), t) == Mult(v, s * t)
  {
  }

  lemma MultDistributes(a: PVector, b: PVector, s: real)
    ensures Mult(Add(a, b), s) == Add(Mult(a, s), Mult(b, s))
  {
  }
}
