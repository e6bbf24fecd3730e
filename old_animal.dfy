/** The older single-struct lineage, animal.rs: one `Animal` record for cats
    and rats alike, with movement on the wrap-around plane, the toroidal
    offset and distance, and the first version of `chase`. */
module OldAnimal {
  import opened PVectors
  import opened Seqs
  import Animals
  import Consts

  /** animal.rs keeps its own copy of the plane size. */
  const WIDTH: real := 640.0
  const HEIGHT: real := 480.0

  /** The speed every constructor of this lineage gives. */
  const SPEED: real := 0.5

  datatype Animal = Animal(x: real, y: real, velocity: real, vx: real, vy: real)

  /** `Animal::new`: a uniform position on the plane and a uniform heading
      `theta`, moving at speed 0.5 along it. */
  function New(ux: real, uy: real, ut: real, trig: Animals.Trig): (a: Animal)
    requires Animals.Unit(ux) && Animals.Unit(uy) && Animals.Unit(ut)
    ensures 0.0 <= a.x < WIDTH && 0.0 <= a.y < HEIGHT
    ensures a.velocity == SPEED
    ensures exists theta ::
      (0.0 <= theta < 2.0 * Consts.PI && a.vx == trig.cos(theta) * SPEED && a.vy == trig.sin(theta) * SPEED)
  {
    var theta := ut * 2.0 * Consts.PI;
    Animal(ux * WIDTH, uy * HEIGHT, SPEED, trig.cos(theta) * SPEED, trig.sin(theta) * SPEED)
  }

  /** `new2`: the fixed animal one unit left of the right edge, halfway
      down, heading right (heading 0). */
  function New2(trig: Animals.Trig): (a: Animal)
    requires trig.cos(0.0) == 1.0 && trig.sin(0.0) == 0.0
    ensures a.x == WIDTH - 1.0 && a.y == HEIGHT / 2.0
    ensures a.velocity == SPEED && a.vx == SPEED && a.vy == 0.0
  {
    var theta := 0.0;
    Animal(WIDTH - 1.0, HEIGHT / 2.0, SPEED, trig.cos(theta) * SPEED, trig.sin(theta) * SPEED)
  }

  /** `new3`: the fixed animal one unit right of the left edge, halfway
      down, heading right. */
  function New3(trig: Animals.Trig): (a: Animal)
    requires trig.cos(0.0) == 1.0 && trig.sin(0.0) == 0.0
    ensures a.x == 1.0 && a.y == HEIGHT / 2.0
    ensures a.velocity == SPEED && a.vx == SPEED && a.vy == 0.0
  {
    var theta := 0.0;
    Animal(1.0, HEIGHT / 2.0, SPEED, trig.cos(theta) * SPEED, trig.sin(theta) * SPEED)
  }

  /** `as_pvector`: the position. */
  function AsPVector(a: Animal): (p: PVector)
    ensures p.x == a.x && p.y == a.y
  {
    PVector(a.x, a.y)
  }

  /** `offset`: the nearest displacement from `a` to `b` on the torus, at
      most half the plane on each axis between animals on the plane. */
  function Offset(a: Animal, b: Animal): (r: PVector)
    ensures 0.0 <= a.x <= WIDTH && 0.0 <= b.x <= WIDTH ==> -WIDTH / 2.0 <= r.x <= WIDTH / 2.0
    ensures 0.0 <= a.y <= HEIGHT && 0.0 <= b.y <= HEIGHT ==> -HEIGHT / 2.0 <= r.y <= HEIGHT / 2.0
  {
    PVectors.Offset(AsPVector(a), AsPVector(b))
  }

  /** `dist`: the length of that displacement. */
  function Dist(a: Animal, b: Animal, sqrt: real -> real): (d: real)
    ensures (forall t :: t >= 0.0 ==> sqrt(t) >= 0.0 && sqrt(t) * sqrt(t) == t) ==>
      d >= 0.0 && d * d == LenSq(Offset(a, b))
  {
    Len(Offset(a, b), sqrt)
  }

  /** The displacement back is the displacement there, negated. */
  lemma OffsetAntisymmetric(a: Animal, b: Animal)
    ensures Offset(a, b) == Mult(Offset(b, a), -1.0)
  {
    PVectors.OffsetAntisymmetric(AsPVector(a), AsPVector(b));
  }

  /** Distance is symmetric, whatever the square root function. */
  lemma DistSymmetric(a: Animal, b: Animal, sqrt: real -> real)
    ensures Dist(a, b, sqrt) == Dist(b, a, sqrt)
  {
    OffsetAntisymmetric(a, b);
    LenSqFlip(Offset(b, a));
  }

  /** The two fixtures are two units apart across the left and right edges:
      the nearest way from `new3` to `new2` is leftwards over the seam. */
  lemma FixturesAcrossSeam(trig: Animals.Trig)
    requires trig.cos(0.0) == 1.0 && trig.sin(0.0) == 0.0
    ensures Offset(New3(trig), New2(trig)) == PVector(-2.0, 0.0)
    ensures Offset(New2(trig), New3(trig)) == PVector(2.0, 0.0)
  {
  }

  /** `move_self`: one step along `(vx, vy)`, then `new_x` is wrapped by
      subtracting `WIDTH` when above it and adding `WIDTH` when below zero,
      and `new_y` likewise with `HEIGHT`; the speed and the velocity are
      copied. */
  function MoveSelf(a: Animal): (r: Animal)
    ensures r.velocity == a.velocity && r.vx == a.vx && r.vy == a.vy
    ensures r.x == a.x + a.vx || r.x == a.x + a.vx - WIDTH || r.x == a.x + a.vx + WIDTH
    ensures r.y == a.y + a.vy || r.y == a.y + a.vy - HEIGHT || r.y == a.y + a.vy + HEIGHT
    ensures 0.0 <= a.x <= WIDTH && -WIDTH <= a.vx <= WIDTH ==> 0.0 <= r.x <= WIDTH
    ensures 0.0 <= a.y <= HEIGHT && -HEIGHT <= a.vy <= HEIGHT ==> 0.0 <= r.y <= HEIGHT
    ensures 0.0 <= a.x + a.vx <= WIDTH ==> r.x == a.x + a.vx
    ensures 0.0 <= a.y + a.vy <= HEIGHT ==> r.y == a.y + a.vy
  {
    Animal(WrapOnce(a.x + a.vx, WIDTH), WrapOnce(a.y + a.vy, HEIGHT), a.velocity, a.vx, a.vy)
  }

  /** Moving `new2` to the right takes it half a unit further, still inside
      the plane. */
  lemma New2Moves(trig: Animals.Trig)
    requires trig.cos(0.0) == 1.0 && trig.sin(0.0) == 0.0
    ensures MoveSelf(New2(trig)) == Animal(WIDTH - 0.5, HEIGHT / 2.0, SPEED, SPEED, 0.0)
  {
  }

  /** The positions of a list of animals, in order: the value `to_pvectors`
      builds. */
  function Positions(animals: seq<Animal>): (r: seq<PVector>)
    ensures |r| == |animals|
    ensures forall i :: 0 <= i < |animals| ==> r[i] == AsPVector(animals[i])
  {
    if animals == [] then []
    else Positions(animals[..|animals| - 1]) + [AsPVector(animals[|animals| - 1])]
  }

  /** `to_pvectors`: push the position of each animal in turn. */
  method ToPVectors(animals: seq<Animal>) returns (r: seq<PVector>)
    ensures r == Positions(animals)
  {
    r := [];
    for i := 0 to |animals|
      invariant r == Positions(animals[..i])
    {
      assert animals[..i + 1][..i] == animals[..i];
      r := r + [AsPVector(animals[i])];
    }
    assert animals[..|animals|] == animals;
  }

  /** What `chase` calls on `PVector` that pvector.rs does not define
      (`find_near`, `add_all`), and `normalize`. */
  datatype Finder = Finder(
    findNear: (PVector, seq<PVector>, real) -> seq<PVector>,
    addAll: seq<PVector> -> PVector,
    normalize: PVector -> PVector)

  /** The preyers' positions that `find_near` reports within 10.0. */
  function NearPreyers(a: Animal, preyers: seq<Animal>, f: Finder): seq<PVector>
  {
    f.findNear(AsPVector(a), Positions(preyers), 10.0)
  }

  /** `chase`: with nobody near the animal is returned as it is; otherwise
      only its velocity changes, to the normalised sum of the near positions
      scaled to its speed. Position and speed are always kept. */
  function Chase(a: Animal, preyers: seq<Animal>, f: Finder): (r: Animal)
    ensures r.x == a.x && r.y == a.y && r.velocity == a.velocity
    ensures NearPreyers(a, preyers, f) == [] ==> r == a
    ensures NearPreyers(a, preyers, f) != [] ==>
      PVector(r.vx, r.vy) == Mult(f.normalize(f.addAll(NearPreyers(a, preyers, f))), a.velocity)
  {
    var near := NearPreyers(a, preyers, f);
    if |near| <= 0 then a
    else
      var next := Mult(f.normalize(f.addAll(near)), a.velocity);
      Animal(a.x, a.y, a.velocity, next.x, next.y)
  }

  // ---- what cat.rs and rat.rs call on `Animal` -------------------------------

  /** The `Animal` methods that cat.rs and rat.rs call but animal.rs does not
      define, left uninterpreted. */
  datatype Helpers = Helpers(
    isWithin: (Animal, Animal, real) -> bool,
    calculateDirection: (Animal, seq<Animal>) -> PVector,
    asVelocity: Animal -> PVector,
    applyVelocity: (Animal, PVector) -> Animal,
    normalize: PVector -> PVector,
    lifeManage: seq<Animal> -> seq<Animal>)

  /** `collect_near_pvectors`: the animals within `radius` of `me`, in order. */
  function CollectNear(h: Helpers, me: Animal, animals: seq<Animal>, radius: real): (r: seq<Animal>)
    ensures Subseq(r, animals)
    ensures forall i :: 0 <= i < |r| ==> h.isWithin(me, r[i], radius)
    ensures forall i :: 0 <= i < |animals| && h.isWithin(me, animals[i], radius) ==> animals[i] in r
  {
    FilterSubseq(animals, a => h.isWithin(me, a, radius));
    Filter(animals, a => h.isWithin(me, a, radius))
  }

  /** Nobody lies within `radius` of `me`. */
  predicate NoneNear(h: Helpers, me: Animal, animals: seq<Animal>, radius: real)
  {
    forall i :: 0 <= i < |animals| ==> !h.isWithin(me, animals[i], radius)
  }

  /** The neighbour list is empty exactly when nobody is near. */
  lemma CollectNearEmpty(h: Helpers, me: Animal, animals: seq<Animal>, radius: real)
    ensures CollectNear(h, me, animals, radius) == [] <==> NoneNear(h, me, animals, radius)
  {
    var r := CollectNear(h, me, animals, radius);
    if r != [] {
      assert r[0] in animals && h.isWithin(me, r[0], radius);
      var i :| 0 <= i < |animals| && animals[i] == r[0];
    }
  }
}
