/** The prey: running away from nearby cats, being eaten, and the life cycle
    of rats, whose energy never runs down. */
module Rats {
  import opened PVectors
  import opened Seqs
  import opened Animals
  import C = Consts

  /** The draws `Rat::new` takes from the random number generator. */
  datatype RatDraws = RatDraws(theta: real, ux: real, uy: real, id: nat)

  predicate ValidRatDraws(d: RatDraws)
  {
    Unit(d.theta) && Unit(d.ux) && Unit(d.uy) && d.id < C.U64_LIMIT
  }

  /** `Rat::new`: a random place, a random heading at `RAT_VELOCITY`, full energy. */
  function New(d: RatDraws, trig: Trig): (r: Rat)
    ensures r.energy == C.ENERGY_MAX && r.id == d.id
    ensures r.velocity == Mult(PVector(trig.cos(d.theta * 2.0 * C.PI), trig.sin(d.theta * 2.0 * C.PI)), C.RAT_VELOCITY)
    ensures ValidRatDraws(d) ==> 0.0 <= r.position.x < C.WIDTH && 0.0 <= r.position.y < C.HEIGHT
  {
    var theta := d.theta * 2.0 * C.PI;
    var x := d.ux * C.WIDTH;
    var y := d.uy * C.HEIGHT;
    assert ValidRatDraws(d) ==> 0.0 <= x < C.WIDTH by {
      if ValidRatDraws(d) { assert x < 1.0 * C.WIDTH; }
    }
    assert ValidRatDraws(d) ==> 0.0 <= y < C.HEIGHT by {
      if ValidRatDraws(d) { assert y < 1.0 * C.HEIGHT; }
    }
    Rat(PVector(x, y), Mult(PVector(trig.cos(theta), trig.sin(theta)), C.RAT_VELOCITY), C.ENERGY_MAX, d.id)
  }

  /** `move_self`: one step along the velocity, wrapped once per axis. The
      energy decrement is commented out in the source, so energy is kept. */
  function MoveSelf(r: Rat): (m: Rat)
    ensures m.(position := r.position) == r
    ensures var p := Add(r.position, r.velocity);
      (m.position.x == p.x || m.position.x == p.x - C.WIDTH || m.position.x == p.x + C.WIDTH)
      && (m.position.y == p.y || m.position.y == p.y - C.HEIGHT || m.position.y == p.y + C.HEIGHT)
    ensures 0.0 <= r.position.x <= C.WIDTH && -C.WIDTH <= r.velocity.x <= C.WIDTH ==>
      0.0 <= m.position.x <= C.WIDTH
    ensures 0.0 <= r.position.y <= C.HEIGHT && -C.HEIGHT <= r.velocity.y <= C.HEIGHT ==>
      0.0 <= m.position.y <= C.HEIGHT
  {
    var p := Add(r.position, r.velocity);
    r.(position := PVector(WrapOnce(p.x, C.WIDTH), WrapOnce(p.y, C.HEIGHT)))
  }

  function AsVelocity(r: Rat): PVector
  {
    r.velocity
  }

  /** `apply_velocity`: replaces the velocity and nothing else. */
  function ApplyVelocity(r: Rat, v: PVector): (m: Rat)
    ensures AsVelocity(m) == v
    ensures m.(velocity := r.velocity) == r
  {
    r.(velocity := v)
  }

  /** `is_within`: the nearest offset from this rat to `other` is shorter
      than `radius`; it holds either way round and only for a positive radius. */
  predicate IsWithin(r: Rat, other: Body, radius: real)
    ensures IsWithin(r, other, radius) <==> Within(other.position, r.position, radius)
    ensures IsWithin(r, other, radius) ==> radius > 0.0
  {
    WithinSymmetric(r.position, other.position, radius);
    Within(r.position, other.position, radius)
  }

  /** `run_away_vector`: away from the cats within `RUNAWAY_RADIOUS`. */
  function RunAwayVector(r: Rat, cats: seq<Cat>, normalize: PVector -> PVector): (v: PVector)
    ensures NoneNear(RatBody(r), cats, CatBody, C.RUNAWAY_RADIOUS) ==> v == Zero()
  {
    var near := CollectNear(RatBody(r), cats, CatBody, C.RUNAWAY_RADIOUS);
    CollectNearEmpty(RatBody(r), cats, CatBody, C.RUNAWAY_RADIOUS);
    if |near| <= 0 then Zero()
    else Mult(CalculateDirection(r.position, near, CatBody, normalize), -1.0)
  }

  /** The velocity `run_away` steers to: the old one plus the escape term,
      normalised and scaled back to the old speed. */
  function NextVelocity(r: Rat, cats: seq<Cat>, normalize: PVector -> PVector, sqrt: real -> real): PVector
  {
    Mult(normalize(Add(AsVelocity(r), RunAwayVector(r, cats, normalize))), Len(r.velocity, sqrt))
  }

  /** With no cat within `RUNAWAY_RADIOUS` a rat keeps its own direction,
      normalised, at its speed. */
  lemma LonelyRunAway(r: Rat, cats: seq<Cat>, normalize: PVector -> PVector, sqrt: real -> real)
    requires NoneNear(RatBody(r), cats, CatBody, C.RUNAWAY_RADIOUS)
    ensures NextVelocity(r, cats, normalize, sqrt) == Mult(normalize(AsVelocity(r)), Len(r.velocity, sqrt))
  {
    assert Add(AsVelocity(r), Zero()) == AsVelocity(r);
  }

  /** `run_away`: steer, then move with the new velocity. */
  function RunAway(r: Rat, cats: seq<Cat>, normalize: PVector -> PVector, sqrt: real -> real): (m: Rat)
    ensures m.velocity == NextVelocity(r, cats, normalize, sqrt)
    ensures m.energy == r.energy && m.id == r.id
    ensures var p := Add(r.position, m.velocity);
      (m.position.x == p.x || m.position.x == p.x - C.WIDTH || m.position.x == p.x + C.WIDTH)
      && (m.position.y == p.y || m.position.y == p.y - C.HEIGHT || m.position.y == p.y + C.HEIGHT)
  {
    MoveSelf(ApplyVelocity(r, NextVelocity(r, cats, normalize, sqrt)))
  }

  /** `eaten`: some cat lies within 1.0 of the rat. */
  function Eaten(r: Rat, cats: seq<Cat>): (b: bool)
    ensures b <==> exists i :: 0 <= i < |cats| && IsWithin(r, CatBody(cats[i]), 1.0)
  {
    Any(cats, (cat: Cat) => IsWithin(r, CatBody(cat), 1.0))
  }

  /** The filter condition of `delete_eaten`. */
  function Survives(cats: seq<Cat>): Rat -> bool
  {
    (r: Rat) => !Eaten(r, cats)
  }

  /** `delete_eaten`: exactly the rats no cat is close enough to eat, in order. */
  function DeleteEaten(cats: seq<Cat>, rats: seq<Rat>): (alive: seq<Rat>)
    ensures forall i :: 0 <= i < |alive| ==> alive[i] in rats && !Eaten(alive[i], cats)
    ensures forall i :: 0 <= i < |rats| && !Eaten(rats[i], cats) ==> rats[i] in alive
  {
    Filter(rats, Survives(cats))
  }

  /** The survivors keep their order, and deleting twice deletes nothing more. */
  lemma DeleteEatenSubseq(cats: seq<Cat>, rats: seq<Rat>)
    ensures Subseq(DeleteEaten(cats, rats), rats)
    ensures DeleteEaten(cats, DeleteEaten(cats, rats)) == DeleteEaten(cats, rats)
  {
    FilterSubseq(rats, Survives(cats));
    FilterIdempotent(rats, Survives(cats));
  }

  /** If every rat is near a cat none survive; if none is, all do. */
  lemma DeleteEatenExtremes(cats: seq<Cat>, rats: seq<Rat>)
    ensures (forall i :: 0 <= i < |rats| ==> Eaten(rats[i], cats)) ==> DeleteEaten(cats, rats) == []
    ensures (forall i :: 0 <= i < |rats| ==> !Eaten(rats[i], cats)) ==> DeleteEaten(cats, rats) == rats
  {
    if forall i :: 0 <= i < |rats| ==> Eaten(rats[i], cats) {
      FilterNone(rats, Survives(cats));
    }
    if forall i :: 0 <= i < |rats| ==> !Eaten(rats[i], cats) {
      FilterAll(rats, Survives(cats));
    }
  }

  /** `descendant`: a fresh random rat with full energy; nothing is inherited. */
  function Descendant(r: Rat, d: RatDraws, trig: Trig): (child: Rat)
    ensures child == New(d, trig)
    ensures child.energy == C.ENERGY_MAX
  {
    New(d, trig).(energy := C.ENERGY_MAX)
  }

  function RatEnergy(r: Rat): nat
  {
    r.energy
  }

  /** `descendant` as the value `life_manage` is parameterised by. */
  function Descend(trig: Trig): (Rat, RatDraws) -> Rat
  {
    (r: Rat, d: RatDraws) => Descendant(r, d, trig)
  }

  /** The rats after eating and running away, before `life_manage`. */
  function Fled(cats: seq<Cat>, rats: seq<Rat>, normalize: PVector -> PVector, sqrt: real -> real): (s: seq<Rat>)
    ensures |s| == |DeleteEaten(cats, rats)|
    ensures forall i :: 0 <= i < |s| ==> s[i] == RunAway(DeleteEaten(cats, rats)[i], cats, normalize, sqrt)
  {
    var alive := DeleteEaten(cats, rats);
    seq(|alive|, i requires 0 <= i < |alive| => RunAway(alive[i], cats, normalize, sqrt))
  }

  /** Rats at full energy: what `new` and `descendant` produce and what
      `move_self` keeps. */
  predicate AllFull(rats: seq<Rat>)
  {
    forall i :: 0 <= i < |rats| ==> rats[i].energy == C.ENERGY_MAX
  }

  /** `next_states`: the eaten rats are removed before any rat moves, the rest
      run away, and `life_manage` adds offspring. */
  method NextStates(cats: seq<Cat>, rats: seq<Rat>, normalize: PVector -> PVector, sqrt: real -> real,
                    draws: seq<LifeDraw<RatDraws>>, trig: Trig)
    returns (r: seq<Rat>)
    requires |draws| >= |rats|
    ensures |DeleteEaten(cats, rats)| <= |draws|
    ensures r == LifeManageSpec(Fled(cats, rats, normalize, sqrt), draws, RatEnergy, Descend(trig))
  {
    var alive := DeleteEaten(cats, rats);
    var moved := seq(|alive|, i requires 0 <= i < |alive| => RunAway(alive[i], cats, normalize, sqrt));
    assert moved == Fled(cats, rats, normalize, sqrt);
    r := LifeManage(moved, draws, RatEnergy, Descend(trig));
  }

  /** What `life_manage` lets out for rats: the rats it was given, or newborns. */
  lemma LifeManageRatOrigins(moved: seq<Rat>, draws: seq<LifeDraw<RatDraws>>, trig: Trig)
    requires |draws| >= |moved|
    ensures forall x :: x in LifeManageSpec(moved, draws, RatEnergy, Descend(trig)) ==>
      x in moved || exists j :: 0 <= j < |draws| && x == New(draws[j].child, trig)
  {
    LifeManageOrigins(moved, draws, RatEnergy, Descend(trig));
    forall x | x in LifeManageSpec(moved, draws, RatEnergy, Descend(trig)) && x !in moved
      ensures exists j :: 0 <= j < |draws| && x == New(draws[j].child, trig)
    {
      var k :| 0 <= k < |moved| && RatEnergy(moved[k]) > 0 && Born(draws[k].birth)
        && x == Descend(trig)(moved[k], draws[k].child);
      assert x == New(draws[k].child, trig);
    }
  }

  /** Every rat that runs away is a rat no cat could eat, after its move. */
  lemma FledOrigins(cats: seq<Cat>, rats: seq<Rat>, normalize: PVector -> PVector, sqrt: real -> real)
    ensures forall x :: x in Fled(cats, rats, normalize, sqrt) ==>
      exists i :: 0 <= i < |rats| && !Eaten(rats[i], cats) && x == RunAway(rats[i], cats, normalize, sqrt)
  {
    var alive := DeleteEaten(cats, rats);
    var moved := Fled(cats, rats, normalize, sqrt);
    forall x | x in moved
      ensures exists i :: 0 <= i < |rats| && !Eaten(rats[i], cats) && x == RunAway(rats[i], cats, normalize, sqrt)
    {
      var k :| 0 <= k < |moved| && moved[k] == x;
      assert alive[k] in rats;
      var i :| 0 <= i < |rats| && rats[i] == alive[k];
    }
  }

  /** Nothing that comes out of `next_states` is an eaten rat: each rat is a
      surviving rat after its escape move, or newborn. */
  lemma NextStatesOrigins(cats: seq<Cat>, rats: seq<Rat>, normalize: PVector -> PVector, sqrt: real -> real,
                          draws: seq<LifeDraw<RatDraws>>, trig: Trig)
    requires |draws| >= |rats|
    ensures |DeleteEaten(cats, rats)| <= |draws|
    ensures forall x :: x in LifeManageSpec(Fled(cats, rats, normalize, sqrt), draws, RatEnergy, Descend(trig)) ==>
      (exists i :: 0 <= i < |rats| && !Eaten(rats[i], cats) && x == RunAway(rats[i], cats, normalize, sqrt))
      || (exists j :: 0 <= j < |draws| && x == New(draws[j].child, trig))
  {
    LifeManageRatOrigins(Fled(cats, rats, normalize, sqrt), draws, trig);
    FledOrigins(cats, rats, normalize, sqrt);
  }

  /** Rats at full energy stay at full energy through `next_states`, so no rat
      is ever dropped for lack of energy: every survivor is kept, in order. */
  lemma NextStatesKeepsFull(cats: seq<Cat>, rats: seq<Rat>, normalize: PVector -> PVector, sqrt: real -> real,
                            draws: seq<LifeDraw<RatDraws>>, trig: Trig)
    requires |draws| >= |rats|
    requires AllFull(rats)
    ensures |DeleteEaten(cats, rats)| <= |draws|
    ensures AllFull(LifeManageSpec(Fled(cats, rats, normalize, sqrt), draws, RatEnergy, Descend(trig)))
    ensures Subseq(Fled(cats, rats, normalize, sqrt),
                   LifeManageSpec(Fled(cats, rats, normalize, sqrt), draws, RatEnergy, Descend(trig)))
  {
    FledFull(cats, rats, normalize, sqrt);
    LifeManageKeepsFull(Fled(cats, rats, normalize, sqrt), draws, trig);
  }

  /** `life_manage` on rats at full energy drops none of them and adds only
      newborns, who are at full energy too. */
  lemma LifeManageKeepsFull(moved: seq<Rat>, draws: seq<LifeDraw<RatDraws>>, trig: Trig)
    requires |draws| >= |moved|
    requires AllFull(moved)
    ensures AllFull(LifeManageSpec(moved, draws, RatEnergy, Descend(trig)))
    ensures Subseq(moved, LifeManageSpec(moved, draws, RatEnergy, Descend(trig)))
  {
    forall i | 0 <= i < |moved| ensures RatEnergy(moved[i]) > 0 {
    }
    LivingAll(moved, RatEnergy);
    LifeManageKeepsAlive(moved, draws, RatEnergy, Descend(trig));
    LifeManageRatOrigins(moved, draws, trig);
    var out := LifeManageSpec(moved, draws, RatEnergy, Descend(trig));
    forall i | 0 <= i < |out| ensures out[i].energy == C.ENERGY_MAX {
      assert out[i] in out;
      if out[i] in moved {
        var k :| 0 <= k < |moved| && moved[k] == out[i];
      } else {
        var j :| 0 <= j < |draws| && out[i] == New(draws[j].child, trig);
      }
    }
  }

  /** Running away keeps full energy. */
  lemma FledFull(cats: seq<Cat>, rats: seq<Rat>, normalize: PVector -> PVector, sqrt: real -> real)
    requires AllFull(rats)
    ensures AllFull(Fled(cats, rats, normalize, sqrt))
  {
    var alive := DeleteEaten(cats, rats);
    var moved := Fled(cats, rats, normalize, sqrt);
    forall i | 0 <= i < |moved| ensures moved[i].energy == C.ENERGY_MAX {
      assert alive[i] in rats;
    }
  }
}
