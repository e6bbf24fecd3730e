/** The predator: one tick of a cat (`chase`), its life cycle, and the
    genetic-algorithm step that breeds the next generation from the cats that
    ate least. */
module Cats {
  import opened PVectors
  import opened Seqs
  import opened Animals
  import C = Consts

  // ---- construction -------------------------------------------------------

  /** The draws `Cat::new` takes from the random number generator. */
  datatype CatDraws = CatDraws(
    theta: real, ux: real, uy: real,
    uChase: real, uSeparate: real, uAlign: real, uCohension: real,
    id: nat)

  predicate ValidCatDraws(d: CatDraws)
  {
    Unit(d.theta) && Unit(d.ux) && Unit(d.uy)
    && Unit(d.uChase) && Unit(d.uSeparate) && Unit(d.uAlign) && Unit(d.uCohension)
    && d.id < C.U64_LIMIT
  }

  /** `u * m` for a unit draw lies in `[0, m)`. */
  lemma ScaleUnit(u: real, m: real)
    requires Unit(u) && m > 0.0
    ensures 0.0 <= u * m < m
  {
    var um := u * m;
    assert um < 1.0 * m;
  }

  /** `Cat::new`: a random place, a random heading at `CAT_VELOCITY`, random
      weights, full energy, nothing eaten yet. */
  function New(d: CatDraws, trig: Trig): (c: Cat)
    ensures c.velocity == C.CAT_VELOCITY && c.energy == C.ENERGY_MAX && c.ate == 0 && c.id == d.id
    ensures c.vx == trig.cos(d.theta * 2.0 * C.PI) * C.CAT_VELOCITY
    ensures c.vy == trig.sin(d.theta * 2.0 * C.PI) * C.CAT_VELOCITY
    ensures ValidCatDraws(d) ==>
      0.0 <= c.x < C.WIDTH && 0.0 <= c.y < C.HEIGHT
      && 0.0 <= c.chaseWeight < C.CHASE_MAX && 0.0 <= c.separateWeight < C.SEPARATE_MAX
      && 0.0 <= c.alignWeight < C.ALIGN_MAX && 0.0 <= c.cohensionWeight < C.COHENSION_MAX
  {
    var theta := d.theta * 2.0 * C.PI;
    if ValidCatDraws(d) then
      ScaleUnit(d.ux, C.WIDTH);
      ScaleUnit(d.uy, C.HEIGHT);
      ScaleUnit(d.uChase, C.CHASE_MAX);
      ScaleUnit(d.uSeparate, C.SEPARATE_MAX);
      ScaleUnit(d.uAlign, C.ALIGN_MAX);
      ScaleUnit(d.uCohension, C.COHENSION_MAX);
      Build(d, theta, trig)
    else
      Build(d, theta, trig)
  }

  function Build(d: CatDraws, theta: real, trig: Trig): Cat
  {
    Cat(d.ux * C.WIDTH, d.uy * C.HEIGHT, C.CAT_VELOCITY,
        trig.cos(theta) * C.CAT_VELOCITY, trig.sin(theta) * C.CAT_VELOCITY,
        d.uChase * C.CHASE_MAX, d.uSeparate * C.SEPARATE_MAX,
        d.uAlign * C.ALIGN_MAX, d.uCohension * C.COHENSION_MAX,
        C.ENERGY_MAX, 0, d.id)
  }

  // ---- movement and velocity ----------------------------------------------

  /** `move_self`: one step along the velocity, wrapped once per axis, at the
      cost of one unit of energy (an unsigned subtraction, hence `energy >= 1`). */
  function MoveSelf(c: Cat): (r: Cat)
    requires c.energy >= 1
    ensures r.energy == c.energy - 1
    ensures r.(x := c.x, y := c.y, energy := c.energy) == c
    ensures r.x == c.x + c.vx || r.x == c.x + c.vx - C.WIDTH || r.x == c.x + c.vx + C.WIDTH
    ensures r.y == c.y + c.vy || r.y == c.y + c.vy - C.HEIGHT || r.y == c.y + c.vy + C.HEIGHT
    ensures 0.0 <= c.x <= C.WIDTH && -C.WIDTH <= c.vx <= C.WIDTH ==> 0.0 <= r.x <= C.WIDTH
    ensures 0.0 <= c.y <= C.HEIGHT && -C.HEIGHT <= c.vy <= C.HEIGHT ==> 0.0 <= r.y <= C.HEIGHT
    ensures 0.0 <= c.x + c.vx <= C.WIDTH ==> r.x == c.x + c.vx
    ensures 0.0 <= c.y + c.vy <= C.HEIGHT ==> r.y == c.y + c.vy
  {
    c.(x := WrapOnce(c.x + c.vx, C.WIDTH), y := WrapOnce(c.y + c.vy, C.HEIGHT), energy := c.energy - 1)
  }

  function AsVelocity(c: Cat): PVector
  {
    PVector(c.vx, c.vy)
  }

  /** `apply_velocity`: replaces the velocity and nothing else. */
  function ApplyVelocity(c: Cat, v: PVector): (r: Cat)
    ensures AsVelocity(r) == v
    ensures r.(vx := c.vx, vy := c.vy) == c
  {
    c.(vx := v.x, vy := v.y)
  }

  /** Putting back the velocity one read is the identity. */
  lemma ApplyOwnVelocity(c: Cat)
    ensures ApplyVelocity(c, AsVelocity(c)) == c
  {
  }

  function Position(c: Cat): PVector
  {
    PVector(c.x, c.y)
  }

  /** `is_within`: the nearest offset from this cat to `other` is shorter
      than `radius`; it holds either way round and only for a positive radius. */
  predicate IsWithin(c: Cat, other: Body, radius: real)
    ensures IsWithin(c, other, radius) <==> Within(other.position, Position(c), radius)
    ensures IsWithin(c, other, radius) ==> radius > 0.0
  {
    WithinSymmetric(Position(c), other.position, radius);
    Within(Position(c), other.position, radius)
  }

  // ---- steering terms ------------------------------------------------------

  /** `chase_vector`: towards the rats within `CHASE_RADIOUS`, weighted by `chase_weight`. */
  function ChaseVector(c: Cat, rats: seq<Rat>, normalize: PVector -> PVector): (r: PVector)
    ensures NoneNear(CatBody(c), rats, RatBody, C.CHASE_RADIOUS) ==> r == Zero()
  {
    var near := CollectNear(CatBody(c), rats, RatBody, C.CHASE_RADIOUS);
    CollectNearEmpty(CatBody(c), rats, RatBody, C.CHASE_RADIOUS);
    if |near| <= 0 then Zero()
    else Mult(CalculateDirection(Position(c), near, RatBody, normalize), c.chaseWeight)
  }

  /** `separate_same`: away from the cats within `SEPARATE_RADIOUS`. */
  function SeparateSame(c: Cat, cats: seq<Cat>, normalize: PVector -> PVector): (r: PVector)
    ensures NoneNear(CatBody(c), cats, CatBody, C.SEPARATE_RADIOUS) ==> r == Zero()
  {
    var near := CollectNear(CatBody(c), cats, CatBody, C.SEPARATE_RADIOUS);
    CollectNearEmpty(CatBody(c), cats, CatBody, C.SEPARATE_RADIOUS);
    if |near| <= 0 then Zero()
    else Mult(CalculateDirection(Position(c), near, CatBody, normalize), -1.0 * c.separateWeight)
  }

  /** `.map(as_velocity).fold(zero, |folded, v| v.add(folded))`. */
  function SumVelocities(cats: seq<Cat>): PVector
  {
    if cats == [] then Zero()
    else
      var n := |cats| - 1;
      Add(AsVelocity(cats[n]), SumVelocities(cats[..n]))
  }

  /** The sum over two lists one after the other is the sum of their sums. */
  lemma {:induction false} SumVelocitiesAppend(a: seq<Cat>, b: seq<Cat>)
    ensures SumVelocities(a + b) == Add(SumVelocities(a), SumVelocities(b))
    decreases |b|
  {
    if b == [] {
      assert a + b == a;
    } else {
      var n := |b| - 1;
      assert (a + b)[..|a + b| - 1] == a + b[..n];
      assert (a + b)[|a + b| - 1] == b[n];
      SumVelocitiesAppend(a, b[..n]);
    }
  }

  /** `add_velocity`: the normalised sum of the neighbours' velocities. */
  function AddVelocity(cats: seq<Cat>, normalize: PVector -> PVector): PVector
  {
    normalize(SumVelocities(cats))
  }

  /** `align`: along the velocities of the cats within `ALIGN_RADIOUS`. */
  function Align(c: Cat, cats: seq<Cat>, normalize: PVector -> PVector): (r: PVector)
    ensures NoneNear(CatBody(c), cats, CatBody, C.ALIGN_RADIOUS) ==> r == Zero()
  {
    var near := CollectNear(CatBody(c), cats, CatBody, C.ALIGN_RADIOUS);
    CollectNearEmpty(CatBody(c), cats, CatBody, C.ALIGN_RADIOUS);
    if |near| <= 0 then Zero()
    else Mult(AddVelocity(near, normalize), c.alignWeight)
  }

  /** `cohension`: towards the cats within `COHENSION_RADIOUS`. */
  function Cohension(c: Cat, cats: seq<Cat>, normalize: PVector -> PVector): (r: PVector)
    ensures NoneNear(CatBody(c), cats, CatBody, C.COHENSION_RADIOUS) ==> r == Zero()
  {
    var near := CollectNear(CatBody(c), cats, CatBody, C.COHENSION_RADIOUS);
    CollectNearEmpty(CatBody(c), cats, CatBody, C.COHENSION_RADIOUS);
    if |near| <= 0 then Zero()
    else Mult(CalculateDirection(Position(c), near, CatBody, normalize), c.cohensionWeight)
  }

  // ---- eating and one tick --------------------------------------------------

  /** Some rat lies within `EATEN_RADIOUS` of the cat. */
  predicate CanEat(c: Cat, rats: seq<Rat>)
  {
    exists i :: 0 <= i < |rats| && IsWithin(c, RatBody(rats[i]), C.EATEN_RADIOUS)
  }

  /** `eat`: one meal's worth of energy and one more meal counted when any rat
      is close enough, however many are; otherwise the cat is unchanged. */
  function Eat(c: Cat, rats: seq<Rat>): (r: Cat)
    ensures CanEat(c, rats) ==> r == c.(energy := c.energy + C.EAT_ENERGY, ate := c.ate + 1)
    ensures !CanEat(c, rats) ==> r == c
  {
    var canEat := Any(rats, (rat: Rat) => IsWithin(c, RatBody(rat), C.EATEN_RADIOUS));
    if canEat then c.(energy := c.energy + C.EAT_ENERGY, ate := c.ate + 1) else c
  }

  /** With no rat within `CHASE_RADIOUS` and no other cat within any of the
      three flocking radii, a cat keeps its own direction, normalised, at its
      speed. */
  lemma LonelySteering(c: Cat, cats: seq<Cat>, rats: seq<Rat>, normalize: PVector -> PVector)
    requires NoneNear(CatBody(c), rats, RatBody, C.CHASE_RADIOUS)
    requires NoneNear(CatBody(c), cats, CatBody, C.SEPARATE_RADIOUS)
    requires NoneNear(CatBody(c), cats, CatBody, C.ALIGN_RADIOUS)
    requires NoneNear(CatBody(c), cats, CatBody, C.COHENSION_RADIOUS)
    ensures NextVelocity(c, cats, rats, normalize) == Mult(normalize(AsVelocity(c)), c.velocity)
  {
    var v := AsVelocity(c);
    assert Add(Add(Add(Add(v, Zero()), Zero()), Zero()), Zero()) == v;
  }

  /** The steering sum of `chase`, normalised and scaled to the cat's speed. */
  function NextVelocity(c: Cat, cats: seq<Cat>, rats: seq<Rat>, normalize: PVector -> PVector): PVector
  {
    Mult(normalize(
      Add(Add(Add(Add(AsVelocity(c), ChaseVector(c, rats, normalize)), SeparateSame(c, cats, normalize)),
              Align(c, cats, normalize)),
          Cohension(c, cats, normalize))),
      c.velocity)
  }

  /** `chase`: steer, then eat at the position before the move, then move.
      The cat ends up with the new velocity, one unit of energy spent, a meal
      added when a rat was within reach of where it stood, and its genes,
      speed and id untouched. */
  function Chase(c: Cat, cats: seq<Cat>, rats: seq<Rat>, normalize: PVector -> PVector): (r: Cat)
    requires c.energy >= 1
    ensures AsVelocity(r) == NextVelocity(c, cats, rats, normalize)
    ensures r.energy == c.energy - 1 + (if CanEat(c, rats) then C.EAT_ENERGY else 0)
    ensures r.ate == c.ate + (if CanEat(c, rats) then 1 else 0)
    ensures r.x == c.x + r.vx || r.x == c.x + r.vx - C.WIDTH || r.x == c.x + r.vx + C.WIDTH
    ensures r.y == c.y + r.vy || r.y == c.y + r.vy - C.HEIGHT || r.y == c.y + r.vy + C.HEIGHT
    ensures r.velocity == c.velocity && r.id == c.id
    ensures r.chaseWeight == c.chaseWeight && r.separateWeight == c.separateWeight
    ensures r.alignWeight == c.alignWeight && r.cohensionWeight == c.cohensionWeight
  {
    var steered := ApplyVelocity(c, NextVelocity(c, cats, rats, normalize));
    assert CanEat(steered, rats) <==> CanEat(c, rats) by {
      assert Position(steered) == Position(c);
    }
    MoveSelf(Eat(steered, rats))
  }

  // ---- genetic algorithm --------------------------------------------------

  /** The draws of one `mutate` call per weight. */
  datatype MutationDraws = MutationDraws(chase: real, separate: real, align: real, cohension: real)

  /** The draws a descendant is built from: those of `Cat::new` and the mutations. */
  datatype DescendantDraws = DescendantDraws(base: CatDraws, mutation: MutationDraws)

  predicate ValidDescendantDraws(d: DescendantDraws)
  {
    ValidCatDraws(d.base)
    && Unit(d.mutation.chase) && Unit(d.mutation.separate)
    && Unit(d.mutation.align) && Unit(d.mutation.cohension)
  }

  /** `f64::min` and `f64::max` on ordinary numbers. */
  function Min(a: real, b: real): real { if a <= b then a else b }
  function Max(a: real, b: real): real { if a >= b then a else b }

  /** `mutate`: shift by a uniform amount in `[-MUTATE_ABS, MUTATE_ABS)`, then
      clamp to `[0, max]`. For an in-range value the result moves by at most
      `MUTATE_ABS` (the clamp only brings it closer). */
  function Mutate(value: real, valueMax: real, u: real): (r: real)
    requires valueMax >= 0.0
    ensures 0.0 <= r <= valueMax
    ensures Unit(u) && 0.0 <= value <= valueMax ==> -C.MUTATE_ABS <= r - value <= C.MUTATE_ABS
    ensures 0.0 <= u * C.MUTATE_ABS * 2.0 - C.MUTATE_ABS + value <= valueMax ==>
      r == u * C.MUTATE_ABS * 2.0 - C.MUTATE_ABS + value
  {
    Max(Min(u * C.MUTATE_ABS * 2.0 - C.MUTATE_ABS + value, valueMax), 0.0)
  }

  /** `descendant`: a fresh random cat that inherits its parent's speed and
      mutated copies of its four weights, starting with full energy and no meals. */
  function Descendant(c: Cat, d: DescendantDraws, trig: Trig): (r: Cat)
    ensures r.velocity == c.velocity && r.ate == 0 && r.energy == C.ENERGY_MAX && r.id == d.base.id
    ensures 0.0 <= r.chaseWeight <= C.CHASE_MAX && 0.0 <= r.separateWeight <= C.SEPARATE_MAX
    ensures 0.0 <= r.alignWeight <= C.ALIGN_MAX && 0.0 <= r.cohensionWeight <= C.COHENSION_MAX
    ensures ValidDescendantDraws(d) && 0.0 <= c.chaseWeight <= C.CHASE_MAX ==>
      -C.MUTATE_ABS <= r.chaseWeight - c.chaseWeight <= C.MUTATE_ABS
    ensures ValidDescendantDraws(d) && 0.0 <= c.separateWeight <= C.SEPARATE_MAX ==>
      -C.MUTATE_ABS <= r.separateWeight - c.separateWeight <= C.MUTATE_ABS
    ensures ValidDescendantDraws(d) && 0.0 <= c.alignWeight <= C.ALIGN_MAX ==>
      -C.MUTATE_ABS <= r.alignWeight - c.alignWeight <= C.MUTATE_ABS
    ensures ValidDescendantDraws(d) && 0.0 <= c.cohensionWeight <= C.COHENSION_MAX ==>
      -C.MUTATE_ABS <= r.cohensionWeight - c.cohensionWeight <= C.MUTATE_ABS
    ensures ValidDescendantDraws(d) ==> 0.0 <= r.x < C.WIDTH && 0.0 <= r.y < C.HEIGHT
  {
    var ret := New(d.base, trig);
    ret.(chaseWeight := Mutate(c.chaseWeight, C.CHASE_MAX, d.mutation.chase),
         separateWeight := Mutate(c.separateWeight, C.SEPARATE_MAX, d.mutation.separate),
         alignWeight := Mutate(c.alignWeight, C.ALIGN_MAX, d.mutation.align),
         cohensionWeight := Mutate(c.cohensionWeight, C.COHENSION_MAX, d.mutation.cohension),
         velocity := c.velocity,
         ate := 0)
  }

  function CatEnergy(c: Cat): nat
  {
    c.energy
  }

  /** `descendant` as the value `life_manage` is parameterised by. */
  function Descend(trig: Trig): (Cat, DescendantDraws) -> Cat
  {
    (c: Cat, d: DescendantDraws) => Descendant(c, d, trig)
  }

  /** One tick for all cats: each chases, seeing the cats and rats as they
      were, then `life_manage` removes the starved ones and adds offspring.
      Every cat that comes out still has energy to spend on its next move. */
  method NextStates(cats: seq<Cat>, rats: seq<Rat>, normalize: PVector -> PVector,
                    draws: seq<LifeDraw<DescendantDraws>>, trig: Trig)
    returns (r: seq<Cat>)
    requires forall i :: 0 <= i < |cats| ==> cats[i].energy >= 1
    requires |draws| >= |cats|
    ensures r == LifeManageSpec(seq(|cats|, i requires 0 <= i < |cats| => Chase(cats[i], cats, rats, normalize)),
                                draws, CatEnergy, Descend(trig))
    ensures forall i :: 0 <= i < |r| ==> r[i].energy >= 1
  {
    var moved := seq(|cats|, i requires 0 <= i < |cats| => Chase(cats[i], cats, rats, normalize));
    r := LifeManage(moved, draws, CatEnergy, Descend(trig));
    LifeKeepsEnergy(moved, draws, trig);
    forall i | 0 <= i < |r| ensures r[i].energy >= 1 {
      assert r[i] in r;
    }
  }

  /** `life_manage` lets through only cats with energy left and newborns at
      full energy. */
  lemma LifeKeepsEnergy(moved: seq<Cat>, draws: seq<LifeDraw<DescendantDraws>>, trig: Trig)
    requires |draws| >= |moved|
    ensures forall x :: x in LifeManageSpec(moved, draws, CatEnergy, Descend(trig)) ==> x.energy >= 1
  {
    LifeManageOrigins(moved, draws, CatEnergy, Descend(trig));
  }

  /** `std::cmp::Ordering`. */
  datatype Ordering = Less | Equal | Greater

  /** `comp_by_ate`: the order of the meal counts. */
  function CompByAte(a: Cat, b: Cat): (r: Ordering)
    ensures r == Less <==> a.ate < b.ate
    ensures r == Greater <==> a.ate > b.ate
    ensures r == Equal <==> a.ate == b.ate
  {
    if a.ate < b.ate then Less
    else if a.ate > b.ate then Greater
    else Equal
  }

  function Flip(o: Ordering): Ordering
  {
    match o
    case Less => Greater
    case Equal => Equal
    case Greater => Less
  }

  /** `comp_by_ate` is a total order: antisymmetric and transitive. */
  lemma CompByAteIsOrder(a: Cat, b: Cat, c: Cat)
    ensures CompByAte(a, b) == Flip(CompByAte(b, a))
    ensures CompByAte(a, b) != Greater && CompByAte(b, c) != Greater ==> CompByAte(a, c) != Greater
  {
  }

  /** Non-decreasing in `ate`: the order `sort_by(comp_by_ate)` produces. */
  predicate SortedByAte(s: seq<Cat>)
  {
    forall i, j :: 0 <= i < j < |s| ==> s[i].ate <= s[j].ate
  }

  /** `sort_by(comp_by_ate)` on the vector, in place: an insertion sort. */
  method SortByAte(a: array<Cat>)
    modifies a
    ensures SortedByAte(a[..])
    ensures multiset(a[..]) == multiset(old(a[..]))
  {
    var i := 0;
    while i < a.Length
      invariant 0 <= i <= a.Length
      invariant SortedByAte(a[..i])
      invariant multiset(a[..]) == multiset(old(a[..]))
    {
      InsertLeft(a, i);
      i := i + 1;
    }
    assert a[..a.Length] == a[..];
  }

  /** One insertion step: the cat at `i` is swapped left past every cat
      before it that ate more, so that `a[..i + 1]` becomes sorted. */
  method InsertLeft(a: array<Cat>, i: nat)
    requires i < a.Length
    requires SortedByAte(a[..i])
    modifies a
    ensures SortedByAte(a[..i + 1])
    ensures multiset(a[..]) == multiset(old(a[..]))
  {
    var j := i;
    while j > 0 && a[j - 1].ate > a[j].ate
      invariant 0 <= j <= i
      invariant forall k, l :: 0 <= k < l <= i && k != j && l != j ==> a[k].ate <= a[l].ate
      invariant forall l :: j < l <= i ==> a[j].ate <= a[l].ate
      invariant multiset(a[..]) == multiset(old(a[..]))
    {
      Swap(a, j - 1, j);
      j := j - 1;
    }
  }

  /** Exchanges two cats; the vector keeps the same cats. */
  method Swap(a: array<Cat>, i: nat, j: nat)
    requires i < j < a.Length
    modifies a
    ensures a[..] == old(a[..])[i := old(a[j])][j := old(a[i])]
    ensures multiset(a[..]) == multiset(old(a[..]))
  {
    ghost var s := a[..];
    a[i], a[j] := a[j], a[i];
    SwapMultiset(s, i, j);
  }

  lemma SwapMultiset<T>(s: seq<T>, i: nat, j: nat)
    requires i < j < |s|
    ensures multiset(s[i := s[j]][j := s[i]]) == multiset(s)
  {
    var t := s[i := s[j]][j := s[i]];
    assert s == s[..i] + [s[i]] + s[i + 1..j] + [s[j]] + s[j + 1..];
    assert t == s[..i] + [s[j]] + s[i + 1..j] + [s[i]] + s[j + 1..];
  }

  /** `collect_servive`: sort a copy by meals eaten and keep the first tenth,
      so the survivors are the cats that ate LEAST: each of them ate no more
      than any cat left behind. */
  method CollectServive(cats: seq<Cat>) returns (r: seq<Cat>)
    ensures |r| == |cats| / 10
    ensures SortedByAte(r)
    ensures multiset(r) <= multiset(cats)
    ensures forall x, y :: x in r && y in multiset(cats) - multiset(r) ==> x.ate <= y.ate
  {
    var a := new Cat[|cats|](i requires 0 <= i < |cats| => cats[i]);
    assert a[..] == cats;
    SortByAte(a);
    var sorted := a[..];
    r := sorted[..|cats| / 10];
    SortedPrefixLowest(sorted, |cats| / 10);
  }

  /** A prefix of a sorted sequence is sorted, and no element of it ate more
      than any element of the rest. */
  lemma SortedPrefixLowest(s: seq<Cat>, k: nat)
    requires SortedByAte(s) && k <= |s|
    ensures SortedByAte(s[..k])
    ensures multiset(s[..k]) <= multiset(s)
    ensures forall x, y :: x in s[..k] && y in multiset(s) - multiset(s[..k]) ==> x.ate <= y.ate
  {
    var p, q := s[..k], s[k..];
    assert s == p + q;
    assert multiset(s) - multiset(p) == multiset(q);
    forall x, y | x in p && y in multiset(q) ensures x.ate <= y.ate {
      PrefixBelowSuffix(s, k, x, y);
    }
  }

  lemma PrefixBelowSuffix(s: seq<Cat>, k: nat, x: Cat, y: Cat)
    requires SortedByAte(s) && k <= |s|
    requires x in s[..k] && y in s[k..]
    ensures x.ate <= y.ate
  {
    var i :| 0 <= i < k && s[i] == x;
    var j :| k <= j < |s| && s[j] == y;
  }

  /** The `n`-th descendant `next_generation` makes: of survivor `n mod k`,
      from the `n`-th draws. */
  function Offspring(superior: seq<Cat>, n: nat, draws: nat -> DescendantDraws, trig: Trig): Cat
    requires |superior| >= 1
  {
    Descendant(superior[n % |superior|], draws(n), trig)
  }

  /** The refilling loop of `next_generation`: append a descendant of every
      survivor, round after round, until there are at least 20, then keep 20.
      The `n`-th descendant made uses draws `draws(n)`. */
  method Repopulate(superior: seq<Cat>, draws: nat -> DescendantDraws, trig: Trig) returns (r: seq<Cat>)
    requires |superior| >= 1
    ensures |r| == 20
    ensures forall i :: 0 <= i < 20 ==> r[i] == Descendant(superior[i % |superior|], draws(i), trig)
  {
    var k := |superior|;
    var ret: seq<Cat> := [];
    ghost var rounds: nat := 0;
    while |ret| < 20
      invariant |ret| == rounds * k
      invariant |ret| < 20 + k
      invariant forall i :: 0 <= i < |ret| ==> ret[i] == Offspring(superior, i, draws, trig)
      decreases 20 - |ret|
    {
      ModUnique(|ret|, k, rounds, 0);
      var appended := Round(superior, |ret|, draws, trig);
      ExtendOffspring(superior, draws, trig, ret, appended);
      MulStep(rounds, k);
      ret := ret + appended;
      rounds := rounds + 1;
    }
    r := ret[..20];
    KeepOffspring(superior, draws, trig, ret, r);
  }

  /** One round of the loop: a descendant of every survivor in order, the
      `j`-th from draws `base + j`; after whole rounds these are the next
      `k` offspring. */
  method Round(superior: seq<Cat>, base: nat, draws: nat -> DescendantDraws, trig: Trig) returns (appended: seq<Cat>)
    requires |superior| >= 1 && base % |superior| == 0
    ensures |appended| == |superior|
    ensures forall j :: 0 <= j < |appended| ==> appended[j] == Offspring(superior, base + j, draws, trig)
  {
    appended := seq(|superior|, j requires 0 <= j < |superior| => Descendant(superior[j], draws(base + j), trig));
    RoundOffspring(superior, base, draws, trig, appended);
  }

  lemma MulStep(a: nat, k: nat)
    ensures (a + 1) * k == a * k + k
  {
  }

  /** The first 20 offspring, written out. */
  lemma KeepOffspring(superior: seq<Cat>, draws: nat -> DescendantDraws, trig: Trig, ret: seq<Cat>, r: seq<Cat>)
    requires |superior| >= 1 && |ret| >= 20 && r == ret[..20]
    requires forall i :: 0 <= i < |ret| ==> ret[i] == Offspring(superior, i, draws, trig)
    ensures forall i :: 0 <= i < 20 ==> r[i] == Descendant(superior[i % |superior|], draws(i), trig)
  {
  }

  /** Offspring in order, followed by the next ones in order, are offspring in order. */
  lemma ExtendOffspring(superior: seq<Cat>, draws: nat -> DescendantDraws, trig: Trig, ret: seq<Cat>, appended: seq<Cat>)
    requires |superior| >= 1
    requires forall i :: 0 <= i < |ret| ==> ret[i] == Offspring(superior, i, draws, trig)
    requires forall j :: 0 <= j < |appended| ==> appended[j] == Offspring(superior, |ret| + j, draws, trig)
    ensures forall i :: 0 <= i < |ret + appended| ==> (ret + appended)[i] == Offspring(superior, i, draws, trig)
  {
    forall i | 0 <= i < |ret + appended| ensures (ret + appended)[i] == Offspring(superior, i, draws, trig) {
      if i >= |ret| {
        assert (ret + appended)[i] == appended[i - |ret|];
      }
    }
  }

  /** One round of the loop appends the next `k` offspring. */
  lemma RoundOffspring(superior: seq<Cat>, base: nat, draws: nat -> DescendantDraws, trig: Trig, appended: seq<Cat>)
    requires |superior| >= 1 && base % |superior| == 0 && |appended| == |superior|
    requires forall j :: 0 <= j < |superior| ==> appended[j] == Descendant(superior[j], draws(base + j), trig)
    ensures forall j :: 0 <= j < |superior| ==> appended[j] == Offspring(superior, base + j, draws, trig)
  {
    forall j | 0 <= j < |superior| ensures appended[j] == Offspring(superior, base + j, draws, trig) {
      ModShift(j, base, |superior|);
    }
  }

  /** Adding a multiple of `k` does not change a remainder. */
  lemma ModShift(j: nat, base: nat, k: nat)
    requires k >= 1 && j < k && base % k == 0
    ensures (base + j) % k == j
  {
    ModUnique(base + j, k, base / k, j);
  }

  /** Euclidean division is unique: the quotient and remainder of `x` by `k`
      are the only pair `q`, `r` with `x == q * k + r` and `0 <= r < k`. */
  lemma ModUnique(x: int, k: int, q: int, r: int)
    requires k > 0 && 0 <= r < k && x == q * k + r
    ensures x % k == r && x / k == q
  {
    var q2, r2 := x / k, x % k;
    assert x == q2 * k + r2;
    var t := q - q2;
    assert t * k == r2 - r by {
      assert q * k - q2 * k == r2 - r;
      assert t * k == q * k - q2 * k;
    }
    if t >= 1 {
      MulAtLeast(t, k);
    } else if t <= -1 {
      MulAtLeast(-t, k);
    }
  }

  lemma MulAtLeast(a: int, b: int)
    requires a >= 1 && b >= 1
    ensures a * b >= b
  {
    var p := a * b;
    assert p == (a - 1) * b + b;
  }

  /** `next_generation`: 20 descendants of the survivors, taken in turn in
      ascending order of meals, so with more than 20 survivors the 20 that ate
      least breed. Below ten cats there are no survivors and the source loops forever,
      hence the requirement. */
  method NextGeneration(cats: seq<Cat>, draws: nat -> DescendantDraws, trig: Trig)
    returns (r: seq<Cat>, ghost superior: seq<Cat>)
    requires |cats| >= 10
    ensures |superior| == |cats| / 10 && superior != []
    ensures SortedByAte(superior)
    ensures multiset(superior) <= multiset(cats)
    ensures forall x, y :: x in superior && y in multiset(cats) - multiset(superior) ==> x.ate <= y.ate
    ensures |r| == 20
    ensures forall i :: 0 <= i < 20 ==> r[i] == Descendant(superior[i % |superior|], draws(i), trig)
    ensures forall i :: 0 <= i < 20 ==> r[i].ate == 0 && r[i].energy == C.ENERGY_MAX
  {
    var survivors := CollectServive(cats);
    superior := survivors;
    r := Repopulate(survivors, draws, trig);
  }
}
