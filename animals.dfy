/** The two species' records and what their `Animal` implementations share:
    the neighbour filter, the offset sum behind `calculate_direction`, and the
    per-tick life-cycle rule of `life_manage`. */
module Animals {
  import opened PVectors
  import opened Seqs
  import Consts

  /** A predator, with the fields that cat/mod.rs reads and writes. */
  datatype Cat = Cat(
    x: real, y: real,
    velocity: real,
    vx: real, vy: real,
    chaseWeight: real, separateWeight: real, alignWeight: real, cohensionWeight: real,
    energy: nat,
    ate: nat,
    id: nat)

  /** A prey. */
  datatype Rat = Rat(position: PVector, velocity: PVector, energy: nat, id: nat)

  /** What the `Animal` trait exposes of any individual: `position()` and `id()`. */
  datatype Body = Body(position: PVector, id: nat)

  function CatBody(c: Cat): Body
  {
    Body(PVector(c.x, c.y), c.id)
  }

  function RatBody(r: Rat): Body
  {
    Body(r.position, r.id)
  }

  /** The trigonometric functions used for random headings, left uninterpreted. */
  datatype Trig = Trig(cos: real -> real, sin: real -> real)

  /** A uniform draw from `rng.gen::<f64>()`. */
  predicate Unit(u: real)
  {
    0.0 <= u < 1.0
  }

  /** `collect_near_pvectors`: the animals that see `me` within `radius`
      (`animal.is_within(self, radius)`), minus those with `me`'s id, in order. */
  function CollectNear<T>(me: Body, animals: seq<T>, body: T -> Body, radius: real): (r: seq<T>)
    ensures forall i :: 0 <= i < |r| ==>
      r[i] in animals && Within(body(r[i]).position, me.position, radius) && body(r[i]).id != me.id
    ensures forall i :: 0 <= i < |animals| ==>
      Within(body(animals[i]).position, me.position, radius) && body(animals[i]).id != me.id ==> animals[i] in r
  {
    Filter(Filter(animals, a => Within(body(a).position, me.position, radius)), a => body(a).id != me.id)
  }

  /** No animal with an id other than `me`'s sees `me` within `radius`. */
  predicate NoneNear<T>(me: Body, animals: seq<T>, body: T -> Body, radius: real)
  {
    forall i :: 0 <= i < |animals| ==>
      !(Within(body(animals[i]).position, me.position, radius) && body(animals[i]).id != me.id)
  }

  /** Nobody qualifies exactly when the neighbour list is empty. */
  lemma CollectNearEmpty<T>(me: Body, animals: seq<T>, body: T -> Body, radius: real)
    ensures CollectNear(me, animals, body, radius) == [] <==> NoneNear(me, animals, body, radius)
  {
    var r := CollectNear(me, animals, body, radius);
    if r != [] {
      assert r[0] in r;
      var i :| 0 <= i < |animals| && animals[i] == r[0];
    }
  }

  /** The neighbour list keeps the input order. */
  lemma CollectNearSubseq<T>(me: Body, animals: seq<T>, body: T -> Body, radius: real)
    ensures Subseq(CollectNear(me, animals, body, radius), animals)
  {
    var p := (a: T) => Within(body(a).position, me.position, radius);
    var q := (a: T) => body(a).id != me.id;
    var pq := (a: T) => p(a) && q(a);
    FilterFilter(animals, p, q, pq);
    FilterSubseq(animals, pq);
  }

  /** `.map(|a| self.offset(&a)).fold(zero, |folded, v| v.add(folded))`. */
  function SumOffsets<T>(from: PVector, animals: seq<T>, body: T -> Body): PVector
  {
    if animals == [] then Zero()
    else
      var n := |animals| - 1;
      Add(Offset(from, body(animals[n]).position), SumOffsets(from, animals[..n], body))
  }

  /** The fold adds up the offsets whatever the split: the sum over two lists
      one after the other is the sum of their sums. */
  lemma {:induction false} SumOffsetsAppend<T>(from: PVector, a: seq<T>, b: seq<T>, body: T -> Body)
    ensures SumOffsets(from, a + b, body) == Add(SumOffsets(from, a, body), SumOffsets(from, b, body))
    decreases |b|
  {
    if b == [] {
      assert a + b == a;
    } else {
      var n := |b| - 1;
      assert (a + b)[..|a + b| - 1] == a + b[..n];
      assert (a + b)[|a + b| - 1] == b[n];
      SumOffsetsAppend(from, a, b[..n], body);
    }
  }

  /** `calculate_direction`: the normalised sum of the offsets from `from`. */
  function CalculateDirection<T>(from: PVector, animals: seq<T>, body: T -> Body, normalize: PVector -> PVector): PVector
  {
    normalize(SumOffsets(from, animals, body))
  }

  // ---- life_manage ---------------------------------------------------------

  /** One animal's draws for a tick: the birth draw (`rng.gen::<f32>()`) and
      the draws its descendant would be built from. */
  datatype LifeDraw<D> = LifeDraw(birth: real, child: D)

  /** `rng.gen::<f32>() < 1.0 / (ENERGY_MAX as f32)`. */
  predicate Born(u: real)
  {
    u < 1.0 / (Consts.ENERGY_MAX as real)
  }

  /** What `life_manage` pushes for one animal. */
  function LifeStep<T, D>(a: T, d: LifeDraw<D>, energy: T -> nat, descend: (T, D) -> T): seq<T>
  {
    if energy(a) <= 0 then []
    else (if Born(d.birth) then [descend(a, d.child)] else []) + [a]
  }

  /** The whole output of `life_manage`: animal `i` uses draw `i`. */
  function LifeManageSpec<T, D>(animals: seq<T>, draws: seq<LifeDraw<D>>, energy: T -> nat, descend: (T, D) -> T): seq<T>
    requires |draws| >= |animals|
  {
    if animals == [] then []
    else LifeStep(animals[0], draws[0], energy, descend) + LifeManageSpec(animals[1..], draws[1..], energy, descend)
  }

  predicate Alive<T>(energy: T -> nat, a: T)
  {
    energy(a) > 0
  }

  /** The animals with energy left, in order. */
  function Living<T>(s: seq<T>, energy: T -> nat): seq<T>
  {
    Filter(s, a => Alive(energy, a))
  }

  lemma LivingCons<T>(s: seq<T>, energy: T -> nat)
    requires s != []
    ensures Living(s, energy) == (if energy(s[0]) > 0 then [s[0]] else []) + Living(s[1..], energy)
  {
  }

  /** When every animal has energy left, all of them are living. */
  lemma LivingAll<T>(s: seq<T>, energy: T -> nat)
    requires forall i :: 0 <= i < |s| ==> energy(s[i]) > 0
    ensures Living(s, energy) == s
  {
    FilterAll(s, a => Alive(energy, a));
  }

  lemma {:induction false} LifeManageSnoc<T, D>(s: seq<T>, x: T, draws: seq<LifeDraw<D>>, energy: T -> nat, descend: (T, D) -> T)
    requires |draws| > |s|
    ensures LifeManageSpec(s + [x], draws, energy, descend) ==
      LifeManageSpec(s, draws, energy, descend) + LifeStep(x, draws[|s|], energy, descend)
    decreases |s|
  {
    if s == [] {
      assert ([] + [x])[1..] == [];
    } else {
      assert (s + [x])[0] == s[0];
      assert (s + [x])[1..] == s[1..] + [x];
      LifeManageSnoc(s[1..], x, draws[1..], energy, descend);
    }
  }

  /** Dead animals disappear, every living one stays, and at most one
      descendant is added per living animal. An all-dead input gives []. */
  lemma {:induction false} LifeManageBounds<T, D>(s: seq<T>, draws: seq<LifeDraw<D>>, energy: T -> nat, descend: (T, D) -> T)
    requires |draws| >= |s|
    ensures |Living(s, energy)| <= |LifeManageSpec(s, draws, energy, descend)| <= 2 * |Living(s, energy)|
    decreases |s|
  {
    if s != [] {
      LivingCons(s, energy);
      LifeManageBounds(s[1..], draws[1..], energy, descend);
    }
  }

  lemma LifeManageAllDead<T, D>(s: seq<T>, draws: seq<LifeDraw<D>>, energy: T -> nat, descend: (T, D) -> T)
    requires |draws| >= |s|
    requires forall i :: 0 <= i < |s| ==> energy(s[i]) == 0
    ensures LifeManageSpec(s, draws, energy, descend) == []
  {
    LifeManageBounds(s, draws, energy, descend);
  }

  /** Every living animal is kept, in its original order. */
  lemma {:induction false} LifeManageKeepsAlive<T, D>(s: seq<T>, draws: seq<LifeDraw<D>>, energy: T -> nat, descend: (T, D) -> T)
    requires |draws| >= |s|
    ensures Subseq(Living(s, energy), LifeManageSpec(s, draws, energy, descend))
    decreases |s|
  {
    if s != [] {
      LivingCons(s, energy);
      LifeManageKeepsAlive(s[1..], draws[1..], energy, descend);
      var rest := LifeManageSpec(s[1..], draws[1..], energy, descend);
      var kept := Living(s[1..], energy);
      assert LifeManageSpec(s, draws, energy, descend) == LifeStep(s[0], draws[0], energy, descend) + rest;
      if energy(s[0]) > 0 {
        assert Living(s, energy) == [s[0]] + kept;
        var step := LifeStep(s[0], draws[0], energy, descend);
        var out := step + rest;
        assert ([s[0]] + rest)[1..] == rest;
        assert ([s[0]] + kept)[1..] == kept;
        assert Subseq([s[0]] + kept, [s[0]] + rest);
        if Born(draws[0].birth) {
          assert out == [descend(s[0], draws[0].child)] + ([s[0]] + rest);
          assert out[1..] == [s[0]] + rest;
          assert Subseq([s[0]] + kept, out);
        } else {
          assert out == [s[0]] + rest;
        }
      } else {
        assert Living(s, energy) == kept;
        assert LifeStep(s[0], draws[0], energy, descend) == [];
        assert LifeManageSpec(s, draws, energy, descend) == rest;
      }
    }
  }

  /** Everything in the output is a living input or the descendant of one
      whose birth draw succeeded. */
  lemma {:induction false} LifeManageOrigins<T, D>(s: seq<T>, draws: seq<LifeDraw<D>>, energy: T -> nat, descend: (T, D) -> T)
    requires |draws| >= |s|
    ensures forall x :: x in LifeManageSpec(s, draws, energy, descend) ==>
      (x in s && energy(x) > 0) ||
      exists i :: 0 <= i < |s| && energy(s[i]) > 0 && Born(draws[i].birth) && x == descend(s[i], draws[i].child)
    decreases |s|
  {
    if s != [] {
      LifeManageOrigins(s[1..], draws[1..], energy, descend);
      forall x | x in LifeManageSpec(s, draws, energy, descend)
        ensures (x in s && energy(x) > 0) ||
          exists i :: 0 <= i < |s| && energy(s[i]) > 0 && Born(draws[i].birth) && x == descend(s[i], draws[i].child)
      {
        if x in LifeManageSpec(s[1..], draws[1..], energy, descend) {
          if !(x in s[1..] && energy(x) > 0) {
            var i :| 0 <= i < |s[1..]| && energy(s[1..][i]) > 0 && Born(draws[1..][i].birth)
              && x == descend(s[1..][i], draws[1..][i].child);
            assert s[i + 1] == s[1..][i];
          }
        }
      }
    }
  }

  /** Without a successful birth draw the output is exactly the living animals. */
  lemma {:induction false} LifeManageNoBirths<T, D>(s: seq<T>, draws: seq<LifeDraw<D>>, energy: T -> nat, descend: (T, D) -> T)
    requires |draws| >= |s|
    requires forall i :: 0 <= i < |s| ==> !Born(draws[i].birth)
    ensures LifeManageSpec(s, draws, energy, descend) == Living(s, energy)
    decreases |s|
  {
    if s != [] {
      LivingCons(s, energy);
      assert !Born(draws[0].birth);
      LifeManageNoBirths(s[1..], draws[1..], energy, descend);
      assert LifeStep(s[0], draws[0], energy, descend) == (if energy(s[0]) > 0 then [s[0]] else []);
    }
  }

  /** `life_manage`: the `for` loop over the animals that skips the dead ones
      and pushes an optional descendant before each living animal. */
  method LifeManage<T, D>(animals: seq<T>, draws: seq<LifeDraw<D>>, energy: T -> nat, descend: (T, D) -> T)
    returns (r: seq<T>)
    requires |draws| >= |animals|
    ensures r == LifeManageSpec(animals, draws, energy, descend)
  {
    r := [];
    for i := 0 to |animals|
      invariant r == LifeManageSpec(animals[..i], draws, energy, descend)
    {
      LifeManageSnoc(animals[..i], animals[i], draws, energy, descend);
      assert animals[..i + 1] == animals[..i] + [animals[i]];
      if energy(animals[i]) <= 0 {
        continue;
      }
      if Born(draws[i].birth) {
        r := r + [descend(animals[i], draws[i].child)];
      }
      r := r + [animals[i]];
    }
    assert animals[..|animals|] == animals;
  }
}
