/** The older cat rules, cat.rs: the cats eat the rats within 1.0 one after
    another, and a cat steers by four weighted terms, eats at the position it
    stands on, and only then moves. */
module OldCat {
  import opened PVectors
  import opened Seqs
  import opened OldAnimal
  import OldRat

  /** The meal's worth of energy that `eat` adds. */
  const EAT_ENERGY: int := 300

  /** A cat of this lineage: the animal.rs record together with the fields
      cat.rs reads besides it (`energy` and the four steering weights), which
      the animal.rs struct does not declare. */
  datatype Cat = Cat(
    animal: Animal,
    energy: int,
    chaseWeight: real, separateWeight: real, alignWeight: real, cohensionWeight: real)

  /** `eat_rats`: every cat in turn removes the rats within its reach. */
  method EatRats(cats: seq<Animal>, rats: seq<Animal>, h: Helpers) returns (r: seq<Animal>)
    ensures r == OldRat.AfterEatAll(cats, rats, h)
    ensures r == Filter(rats, OldRat.UneatenByAll(h, cats))
  {
    r := rats;
    for i := 0 to |cats|
      invariant r == OldRat.AfterEatAll(cats[..i], rats, h)
    {
      assert cats[..i + 1][..i] == cats[..i];
      r := OldRat.AfterEat(cats[i], r, h);
    }
    assert cats[..|cats|] == cats;
    OldRat.AfterEatAllIsFilter(cats, rats, h);
  }

  // ---- steering terms ------------------------------------------------------

  /** `chase_vector`: against the direction of the rats within 10.0, weighted
      by `chase_weight`; zero when there are none. */
  function ChaseVector(c: Cat, preyers: seq<Animal>, h: Helpers): (v: PVector)
    ensures NoneNear(h, c.animal, preyers, 10.0) ==> v == Zero()
  {
    var near := CollectNear(h, c.animal, preyers, 10.0);
    CollectNearEmpty(h, c.animal, preyers, 10.0);
    if |near| <= 0 then Zero()
    else Mult(h.calculateDirection(c.animal, near), -1.0 * c.chaseWeight)
  }

  /** `separate_same`: along the direction of the cats within 5.0, weighted
      by `separate_weight`; zero when there are none. */
  function SeparateSame(c: Cat, sameKind: seq<Animal>, h: Helpers): (v: PVector)
    ensures NoneNear(h, c.animal, sameKind, 5.0) ==> v == Zero()
  {
    var near := CollectNear(h, c.animal, sameKind, 5.0);
    CollectNearEmpty(h, c.animal, sameKind, 5.0);
    if |near| <= 0 then Zero()
    else Mult(h.calculateDirection(c.animal, near), c.separateWeight)
  }

  /** `.map(as_velocity).fold(zero, |folded, v| v.add(folded))`. */
  function SumVelocities(animals: seq<Animal>, h: Helpers): PVector
  {
    if animals == [] then Zero()
    else
      var n := |animals| - 1;
      Add(h.asVelocity(animals[n]), SumVelocities(animals[..n], h))
  }

  /** The sum over two lists one after the other is the sum of their sums. */
  lemma {:induction false} SumVelocitiesAppend(a: seq<Animal>, b: seq<Animal>, h: Helpers)
    ensures SumVelocities(a + b, h) == Add(SumVelocities(a, h), SumVelocities(b, h))
    decreases |b|
  {
    if b == [] {
      assert a + b == a;
    } else {
      var n := |b| - 1;
      assert (a + b)[..|a + b| - 1] == a + b[..n];
      assert (a + b)[|a + b| - 1] == b[n];
      SumVelocitiesAppend(a, b[..n], h);
    }
  }

  /** `add_velocity`: the normalised sum of the velocities. */
  function AddVelocity(animals: seq<Animal>, h: Helpers): PVector
  {
    h.normalize(SumVelocities(animals, h))
  }

  /** `align`: along the velocities of the cats within 10.0, weighted by
      `align_weight`; zero when there are none. */
  function Align(c: Cat, sameKind: seq<Animal>, h: Helpers): (v: PVector)
    ensures NoneNear(h, c.animal, sameKind, 10.0) ==> v == Zero()
  {
    var near := CollectNear(h, c.animal, sameKind, 10.0);
    CollectNearEmpty(h, c.animal, sameKind, 10.0);
    if |near| <= 0 then Zero()
    else Mult(AddVelocity(near, h), c.alignWeight)
  }

  /** `cohension`: against the direction of the cats within 15.0, weighted
      by `cohension_weight`; zero when there are none. */
  function Cohension(c: Cat, sameKind: seq<Animal>, h: Helpers): (v: PVector)
    ensures NoneNear(h, c.animal, sameKind, 15.0) ==> v == Zero()
  {
    var near := CollectNear(h, c.animal, sameKind, 15.0);
    CollectNearEmpty(h, c.animal, sameKind, 15.0);
    if |near| <= 0 then Zero()
    else Mult(h.calculateDirection(c.animal, near), -1.0 * c.cohensionWeight)
  }

  /** Alone on the plane, a cat steers by its own velocity only. */
  lemma LonelySteering(c: Cat, rats: seq<Animal>, cats: seq<Animal>, h: Helpers)
    requires forall i :: 0 <= i < |rats| ==> !h.isWithin(c.animal, rats[i], 10.0)
    requires forall i :: 0 <= i < |cats| ==> !h.isWithin(c.animal, cats[i], 15.0)
    requires forall i :: 0 <= i < |cats| ==> !h.isWithin(c.animal, cats[i], 10.0)
    requires forall i :: 0 <= i < |cats| ==> !h.isWithin(c.animal, cats[i], 5.0)
    ensures NextVelocity(c, rats, cats, h) == Mult(h.normalize(h.asVelocity(c.animal)), c.animal.velocity)
  {
    var v := h.asVelocity(c.animal);
    assert Add(Add(Add(Add(v, Zero()), Zero()), Zero()), Zero()) == v;
  }

  // ---- eating and one tick --------------------------------------------------

  /** Some rat lies within 1.0 of the cat. */
  predicate CanEat(a: Animal, rats: seq<Animal>, h: Helpers)
  {
    exists i :: 0 <= i < |rats| && h.isWithin(a, rats[i], 1.0)
  }

  /** `eat`: 300 more energy when any rat is within reach, however many are;
      otherwise the cat is unchanged. Nothing but the energy ever changes. */
  function Eat(c: Cat, rats: seq<Animal>, h: Helpers): (r: Cat)
    ensures r == c.(energy := r.energy)
    ensures r.energy == c.energy + EAT_ENERGY <==> CanEat(c.animal, rats, h)
    ensures !CanEat(c.animal, rats, h) ==> r == c
  {
    var canEat := Any(rats, rat => h.isWithin(c.animal, rat, 1.0));
    if canEat then c.(energy := c.energy + EAT_ENERGY) else c
  }

  /** The steering sum of `chase`, normalised and scaled to the cat's speed. */
  function NextVelocity(c: Cat, rats: seq<Animal>, cats: seq<Animal>, h: Helpers): PVector
  {
    Mult(h.normalize(
      Add(Add(Add(Add(h.asVelocity(c.animal), ChaseVector(c, rats, h)), SeparateSame(c, cats, h)),
              Align(c, cats, h)),
          Cohension(c, cats, h))),
      c.animal.velocity)
  }

  /** `chase`: steer, then eat, then move. Eating is decided for the steered
      cat before it moves, the move is the last step, and the energy and the
      weights are otherwise kept. */
  function Chase(c: Cat, rats: seq<Animal>, cats: seq<Animal>, h: Helpers): (r: Cat)
    ensures var steered := h.applyVelocity(c.animal, NextVelocity(c, rats, cats, h));
      r.animal == MoveSelf(steered)
      && r.energy == c.energy + (if CanEat(steered, rats, h) then EAT_ENERGY else 0)
    ensures r.chaseWeight == c.chaseWeight && r.separateWeight == c.separateWeight
    ensures r.alignWeight == c.alignWeight && r.cohensionWeight == c.cohensionWeight
  {
    var steered := c.(animal := h.applyVelocity(c.animal, NextVelocity(c, rats, cats, h)));
    var fed := Eat(steered, rats, h);
    fed.(animal := MoveSelf(fed.animal))
  }

  /** The animal records of the cats, in order: `cats` as the steering terms
      see them. */
  function AnimalsOf(cats: seq<Cat>): (r: seq<Animal>)
    ensures |r| == |cats|
    ensures forall i :: 0 <= i < |cats| ==> r[i] == cats[i].animal
  {
    if cats == [] then [] else AnimalsOf(cats[..|cats| - 1]) + [cats[|cats| - 1].animal]
  }

  /** `next_states_cats`: every cat chases against the lists as they were
      at the start of the tick, then `life_manage`, left uninterpreted. */
  function NextStatesCats(cats: seq<Cat>, rats: seq<Animal>, h: Helpers, lifeManage: seq<Cat> -> seq<Cat>): seq<Cat>
  {
    lifeManage(Map(cats, c => Chase(c, rats, AnimalsOf(cats), h)))
  }

  /** In a tick every cat, in order, chases against the rats and the cats as
      they were at its start. */
  lemma NextStatesCatsChasesAll(cats: seq<Cat>, rats: seq<Animal>, h: Helpers, lifeManage: seq<Cat> -> seq<Cat>)
    ensures exists moved: seq<Cat> ::
      NextStatesCats(cats, rats, h, lifeManage) == lifeManage(moved) && |moved| == |cats|
      && forall i :: 0 <= i < |cats| ==> moved[i] == Chase(cats[i], rats, AnimalsOf(cats), h)
  {
    var moved := Map(cats, c => Chase(c, rats, AnimalsOf(cats), h));
    assert NextStatesCats(cats, rats, h, lifeManage) == lifeManage(moved);
  }
}
