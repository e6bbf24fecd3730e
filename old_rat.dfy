/** The older rat rules, rat.rs: a rat is eaten by any cat within 1.0, runs
    away from the cats within 10.0, and a tick removes the eaten rats before
    the survivors move. */
module OldRat {
  import opened PVectors
  import opened Seqs
  import opened OldAnimal
  import Animals

  /** `new_rat`: `Animal::new` with the speed set to 0.5, which it already had. */
  function NewRat(ux: real, uy: real, ut: real, trig: Animals.Trig): (r: Animal)
    requires Animals.Unit(ux) && Animals.Unit(uy) && Animals.Unit(ut)
    ensures r.velocity == SPEED
    ensures r == OldAnimal.New(ux, uy, ut, trig)
  {
    OldAnimal.New(ux, uy, ut, trig).(velocity := SPEED)
  }

  /** The rats out of `me`'s reach. */
  function Uneaten(h: Helpers, me: Animal): Animal -> bool
  {
    rat => !h.isWithin(me, rat, 1.0)
  }

  /** `after_eat`: the rats that `me` does not eat, in their order. */
  function AfterEat(me: Animal, rats: seq<Animal>, h: Helpers): (r: seq<Animal>)
    ensures forall i :: 0 <= i < |r| ==> r[i] in rats && !h.isWithin(me, r[i], 1.0)
    ensures forall i :: 0 <= i < |rats| && !h.isWithin(me, rats[i], 1.0) ==> rats[i] in r
  {
    Filter(rats, Uneaten(h, me))
  }

  /** What `after_eat` keeps is a sub-list of its input. */
  lemma AfterEatSubseq(me: Animal, rats: seq<Animal>, h: Helpers)
    ensures Subseq(AfterEat(me, rats, h), rats)
  {
    FilterSubseq(rats, Uneaten(h, me));
  }

  /** A second `after_eat` by the same animal removes nothing more. */
  lemma AfterEatIdempotent(me: Animal, rats: seq<Animal>, h: Helpers)
    ensures AfterEat(me, AfterEat(me, rats, h), h) == AfterEat(me, rats, h)
  {
    FilterIdempotent(rats, Uneaten(h, me));
  }

  /** `after_eat` by each cat in turn, first to last: the value `eat_rats`
      (cat.rs) computes. */
  function AfterEatAll(cats: seq<Animal>, rats: seq<Animal>, h: Helpers): seq<Animal>
  {
    if cats == [] then rats
    else AfterEat(cats[|cats| - 1], AfterEatAll(cats[..|cats| - 1], rats, h), h)
  }

  /** A rat out of the reach of every cat. */
  function UneatenByAll(h: Helpers, cats: seq<Animal>): Animal -> bool
  {
    rat => !Any(cats, c => h.isWithin(c, rat, 1.0))
  }

  /** The cats one after another keep exactly the rats that no cat reaches,
      in their order. */
  lemma {:induction false} AfterEatAllIsFilter(cats: seq<Animal>, rats: seq<Animal>, h: Helpers)
    ensures AfterEatAll(cats, rats, h) == Filter(rats, UneatenByAll(h, cats))
    decreases |cats|
  {
    if cats == [] {
      FilterAll(rats, UneatenByAll(h, cats));
    } else {
      var n := |cats| - 1;
      var init := cats[..n];
      AfterEatAllIsFilter(init, rats, h);
      forall x
        ensures UneatenByAll(h, cats)(x) == (UneatenByAll(h, init)(x) && Uneaten(h, cats[n])(x))
      {
        AnySnoc(init, cats[n], c => h.isWithin(c, x, 1.0));
      }
      FilterFilter(rats, UneatenByAll(h, init), Uneaten(h, cats[n]), UneatenByAll(h, cats));
    }
  }

  lemma AnySnoc<T>(s: seq<T>, x: T, p: T -> bool)
    ensures Any(s + [x], p) == (Any(s, p) || p(x))
  {
    assert (s + [x])[|s|] == x;
    if Any(s + [x], p) && !p(x) {
      var i :| 0 <= i < |s + [x]| && p((s + [x])[i]);
      assert i < |s| && s[i] == (s + [x])[i];
    }
    if Any(s, p) {
      var i :| 0 <= i < |s| && p(s[i]);
      assert (s + [x])[i] == s[i];
    }
  }

  /** So the order in which the cats eat does not matter. */
  lemma AfterEatAllOrderFree(cats: seq<Animal>, others: seq<Animal>, rats: seq<Animal>, h: Helpers)
    requires multiset(cats) == multiset(others)
    ensures AfterEatAll(cats, rats, h) == AfterEatAll(others, rats, h)
  {
    AfterEatAllIsFilter(cats, rats, h);
    AfterEatAllIsFilter(others, rats, h);
    forall i | 0 <= i < |rats| ensures UneatenByAll(h, cats)(rats[i]) == UneatenByAll(h, others)(rats[i]) {
      var p := c => h.isWithin(c, rats[i], 1.0);
      if Any(cats, p) {
        var j :| 0 <= j < |cats| && p(cats[j]);
        assert cats[j] in multiset(others);
        var k :| 0 <= k < |others| && others[k] == cats[j];
      }
      if Any(others, p) {
        var j :| 0 <= j < |others| && p(others[j]);
        assert others[j] in multiset(cats);
        var k :| 0 <= k < |cats| && cats[k] == others[j];
      }
    }
    FilterExt(rats, UneatenByAll(h, cats), UneatenByAll(h, others));
  }

  /** `run_away_vector`: zero with no cat within 10.0; otherwise
      `calculate_direction` over the near cats, not negated. */
  function RunAwayVector(me: Animal, preyers: seq<Animal>, h: Helpers): (v: PVector)
    ensures NoneNear(h, me, preyers, 10.0) ==> v == Zero()
    ensures !NoneNear(h, me, preyers, 10.0) ==> v == h.calculateDirection(me, CollectNear(h, me, preyers, 10.0))
  {
    var near := CollectNear(h, me, preyers, 10.0);
    CollectNearEmpty(h, me, preyers, 10.0);
    if |near| <= 0 then Zero() else h.calculateDirection(me, near)
  }

  /** The velocity `run_away` steers to: the old velocity plus the run-away
      vector, normalised and scaled to the speed. */
  function NextVelocity(me: Animal, preyers: seq<Animal>, h: Helpers): PVector
  {
    Mult(h.normalize(Add(h.asVelocity(me), RunAwayVector(me, preyers, h))), me.velocity)
  }

  /** `run_away`: steer, then move once with the steered velocity, wrapping
      each coordinate at most once. */
  function RunAway(me: Animal, preyers: seq<Animal>, h: Helpers): (r: Animal)
    ensures var steered := h.applyVelocity(me, NextVelocity(me, preyers, h));
      r.velocity == steered.velocity && r.vx == steered.vx && r.vy == steered.vy
      && (r.x == steered.x + steered.vx || r.x == steered.x + steered.vx - OldAnimal.WIDTH || r.x == steered.x + steered.vx + OldAnimal.WIDTH)
      && (r.y == steered.y + steered.vy || r.y == steered.y + steered.vy - OldAnimal.HEIGHT || r.y == steered.y + steered.vy + OldAnimal.HEIGHT)
  {
    MoveSelf(h.applyVelocity(me, NextVelocity(me, preyers, h)))
  }

  /** With no cat within 10.0 a rat keeps its own direction, normalised, at
      its speed. */
  lemma LonelyRunAway(me: Animal, preyers: seq<Animal>, h: Helpers)
    requires NoneNear(h, me, preyers, 10.0)
    ensures NextVelocity(me, preyers, h) == Mult(h.normalize(h.asVelocity(me)), me.velocity)
  {
    assert Add(h.asVelocity(me), Zero()) == h.asVelocity(me);
  }

  /** `next_states_rats`: eat first, then run away, then `life_manage`. */
  function NextStatesRats(cats: seq<Animal>, rats: seq<Animal>, h: Helpers): seq<Animal>
  {
    var survivors := AfterEatAll(cats, rats, h);
    h.lifeManage(Map(survivors, rat => RunAway(rat, cats, h)))
  }

  /** A tick runs away exactly the rats out of reach of every cat, in the
      input order, before `life_manage`: no eaten rat moves. */
  lemma NextStatesRatsEatsFirst(cats: seq<Animal>, rats: seq<Animal>, h: Helpers)
    ensures NextStatesRats(cats, rats, h)
      == h.lifeManage(Map(Filter(rats, UneatenByAll(h, cats)), rat => RunAway(rat, cats, h)))
  {
    AfterEatAllIsFilter(cats, rats, h);
  }

  /** The rats that survive the cats are a sub-list of the rats, each out of
      reach of every cat, and every rat out of reach of every cat survives. */
  lemma SurvivorsExact(cats: seq<Animal>, rats: seq<Animal>, h: Helpers)
    ensures var survivors := Filter(rats, UneatenByAll(h, cats));
      Subseq(survivors, rats)
      && (forall i, j :: 0 <= i < |survivors| && 0 <= j < |cats| ==> !h.isWithin(cats[j], survivors[i], 1.0))
      && (forall i :: 0 <= i < |rats| && (forall j :: 0 <= j < |cats| ==> !h.isWithin(cats[j], rats[i], 1.0))
            ==> rats[i] in survivors)
  {
    FilterSubseq(rats, UneatenByAll(h, cats));
  }
}
