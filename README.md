# chase_and_runaway in Dafny

This is a model of the engine of `chase_and_runaway`, a predator–prey simulation. Cats and rats move on a wrap-around
plane of 640 by 480. Each tick:

- every cat steers by four weighted terms: chase, separation, alignment and cohesion;
- a cat eats a rat it stands on;
- every surviving rat runs away from the cats near it;
- a life-cycle step removes the starved animals and adds offspring.

At the end of a generation a genetic algorithm keeps a tenth of the cats and breeds twenty mutated descendants from
them. Two quad trees index the animals by position. The older single-struct lineage of the code is modelled too, one
module per file.

The modules, file by file:

| file | module | source |
|---|---|---|
| `consts.dfy` | `Consts` | the configuration constants, `src/consts.rs` |
| `pvectors.dfy` | `PVectors` | two-dimensional vectors and the nearest offset on the torus, `src/pvector.rs` |
| `animals.dfy` | `Animals` | the `Cat` and `Rat` records, and what both species' `Animal` implementations share: the neighbour filter, the offset sum, and `life_manage` as a specification function with its loop as a method |
| `cats.dfy` | `Cats` | `src/animal/cat/mod.rs`, including the in-place `sort_by` as an insertion sort on an `array` |
| `rats.dfy` | `Rats` | `src/animal/rat/mod.rs` |
| `quadtree.dfy` | `QuadTree` | `src/quad_tree/mod.rs` |
| `quadtree_enum.dfy` | `QuadTreeEnum` | the enum tree of `src/quad_tree.rs` |
| `old_animal.dfy`, `old_cat.dfy`, `old_rat.dfy` | `OldAnimal`, `OldCat`, `OldRat` | the older `src/animal.rs`, `src/animal/cat.rs` and `src/animal/rat.rs` |
| `seqs.dfy`, `powers.dfy` | `Seqs`, `Powers` | generic helpers: order-preserving filters, and powers of two and four |

The `QuadTree` module has the tree twice:

- `QuadTree.Node` is the tree as a value, with recursive specification functions (`NewTreeSpec`, `AppendSpec`,
  `RemoveSpec`, `SearchSpec`) and lemmas about them.
- The class `QuadTree.QuadTree` is the same tree as mutable objects. Its `append`, `remove` and `new` change the
  nodes in place. Each method is proved to leave the node valid, with its `model` equal to the specification
  function applied to the old model.

Modelling conventions:

- `f64` is `real`.
- `len() < r` is stated without the square root, as `0 < r && x*x + y*y < r*r`. `PVectors.WithinIsLenLess` proves
  this equal to `len() < r` for any square root function.
- `sqrt`, `normalize`, `cos` and `sin` are function-valued parameters, left uninterpreted.
- Each draw from the random number generator is an explicit parameter. A `u` in `[0, 1)` stands for
  `rng.gen::<f64>()`.
- Integer fields are `nat`. The one unsigned subtraction, the cat's `energy -= 1`, is guarded by `energy >= 1`.

Behaviour of the code that a reader may not expect, which the model follows:

- **Tie-break.** At exactly half the plane ahead, `offset_x` and `offset_y` return the wrapped value `-WIDTH/2`
  (`PVectors.OffsetTieBreak`).
- **`min_dist`.** It measures distance with the wrap-around `PVector::offset` lengths.
- **Corners in `min_dist`.** The corner branch sees only two corners, because `point(n)` takes both coordinates
  from `n % 2` (`QuadTree.PointTwoCorners`).
- **`search`.** The query animal itself is among the results when it is stored in the tree
  (`QuadTree.SearchFindsItself`).
- **Missed neighbours.** `search` can miss an animal within the radius. Its pruning by `min_dist` uses only two
  of the four corners, so a query near the corner `(x + width, y)` or `(x, y + height)` of a cell can see the
  cell as farther than the radius (`QuadTree.SearchMissesNeighbour`).
- **Survivor selection.** `collect_servive` sorts by meals eaten in ascending order and keeps the first tenth,
  so the survivors are the cats that ate least (`Cats.CollectServive`).
- **Fewer than ten cats.** There are no survivors then, and `next_generation` loops forever, so it requires at
  least ten cats.
- **Rat energy.** Rats never lose energy: the decrement in the rat's `move_self` is commented out
  (`Rats.NextStatesKeepsFull`).
- **`mutate`.** It can move a weight by exactly `MUTATE_ABS`, at the draw 0, so its bound is `<=`. The repository's
  mutation test asserts `<`.

## Model

| member | source | states |
|---|---|---|
| PVectors.New | src/pvector.rs:11-16 | the vector has exactly the given coordinates |
| PVectors.LenSq | src/pvector.rs:17-19 | the squared length under `len` is never negative |
| PVectors.Len | src/pvector.rs:17-19 | for a square root that returns the non-negative root, the length is non-negative and its square is the squared length |
| PVectors.NearestOffset | src/pvector.rs:21-46 | the per-axis offset is the direct difference, or that difference minus or plus the extent; for points in range it lies within half the extent |
| PVectors.OffsetX | src/pvector.rs:21-32 | `offset_x` is `b-a`, `b-a-WIDTH` or `b-a+WIDTH`, and lies in `[-WIDTH/2, WIDTH/2]` for inputs in `[0, WIDTH]` |
| PVectors.OffsetY | src/pvector.rs:34-46 | the same for `offset_y` with `HEIGHT` |
| PVectors.Offset | src/pvector.rs:48-53 | each axis is the direct displacement or that displacement wrapped once by the plane's extent; between two positions on the plane it is at most half the plane on each axis |
| PVectors.Add | src/pvector.rs:55-60 | taking `a` away from the sum leaves `b`, on each axis |
| PVectors.Mult | src/pvector.rs:70-75 | scaling by 1 gives the vector back, and scaling by 0 gives `zero` |
| PVectors.MultLenSq | src/pvector.rs:70-75 | scaling multiplies the squared length by the square of the factor |
| PVectors.Zero | src/pvector.rs:77-82 | adding `zero` to any vector gives that vector back |
| PVectors.Eq | src/pvector.rs:85-89 | `eq` holds exactly when the two vectors are equal |
| PVectors.WrapOnce | src/animal/cat/mod.rs:50-64 | the once-per-axis wrap of `move_self` moves a coordinate by 0 or by plus or minus the extent; it lands in `[0, extent]` when the unwrapped value is within one extent of the plane, and it keeps in-range values |
| PVectors.WithinIsLenLess | src/animal/cat/mod.rs:87-89 | the square-free `Within` agrees with `offset(other).len() < radious` for every square root function |
| PVectors.WithinSelf | src/animal/cat/mod.rs:87-95 | every point is within any positive radius of itself |
| PVectors.OffsetSelf | src/pvector.rs:48-53 | the offset from a point to itself is the zero vector |
| PVectors.NearestOffsetAntisymmetric | src/pvector.rs:21-46 | swapping the two points negates the per-axis offset exactly |
| PVectors.NearestOffsetIsNearest | src/pvector.rs:21-46 | for in-range points, the chosen offset has the least magnitude of the three candidates |
| PVectors.OffsetAntisymmetric | src/pvector.rs:48-53 | `a.offset(b)` is `b.offset(a)` times -1 |
| PVectors.OffsetIsNearest | src/pvector.rs:48-53 | both components of `offset` are the nearest of their candidates for points on the plane |
| PVectors.OffsetDirect | src/pvector.rs:21-46 | points closer than half the plane along an axis get the plain difference on that axis |
| PVectors.OffsetTieBreak | src/pvector.rs:23-26 | at exactly half the plane ahead, the wrapped `-WIDTH/2` (or `-HEIGHT/2`) is returned |
| PVectors.OffsetAcrossSeam | src/pvector.rs:48-53 | from x = 639 to x = 2 the offset is 3 to the right, across the seam |
| PVectors.WithinSymmetric | src/animal/cat/mod.rs:87-95 | `is_within` is symmetric in its two animals |
| PVectors.LenSqFlip | src/pvector.rs:17-19 | negating a vector keeps its length |
| PVectors.AddComponentwise | src/pvector.rs:55-60 | `add` is componentwise and commutative, and zero is its unit |
| PVectors.MultComponentwise | src/pvector.rs:70-75 | `mult` is componentwise; times 0 gives zero, times 1 is the identity, and two scalings compose |
| PVectors.MultDistributes | src/pvector.rs:55-75 | `mult` distributes over `add` |
| Animals.CollectNear | src/animal/cat/mod.rs:104-111 | the result holds only animals of the input that see `me` within the radius and have another id, and it holds every such animal |
| Animals.CollectNearEmpty | src/animal/cat/mod.rs:104-111 | the neighbour list is empty exactly when no animal with another id is within the radius |
| Animals.CollectNearSubseq | src/animal/rat/mod.rs:82-89 | the neighbour list is an order-preserving sublist of the input |
| Animals.SumOffsets | src/animal/cat/mod.rs:113-119 | no contract of its own: the fold of the offsets from `from` to each animal, newest added first as `vector.add(folded)` does; `Animals.SumOffsetsAppend` shows it adds up part by part |
| Animals.SumOffsetsAppend | src/animal/cat/mod.rs:113-119 | the fold of offsets over two lists, one after the other, is the sum of the two folds |
| Animals.CalculateDirection | src/animal/cat/mod.rs:113-119 | no contract of its own: `normalize` of the offset fold, which `Animals.SumOffsetsAppend` shows adds up part by part; `normalize` is uninterpreted |
| Animals.LifeStep | src/animal/cat/mod.rs:135-143 | no contract of its own: one iteration of the loop, nothing for a dead animal, else an optional descendant then the animal; `Animals.LifeManageSnoc` shows the loop appends it, and `LifeManageBounds`, `LifeManageKeepsAlive`, `LifeManageOrigins` and `LifeManageNoBirths` state what the steps add up to |
| Animals.LifeManageSpec | src/animal/cat/mod.rs:132-145 | no contract of its own: the list `life_manage` builds, animal `i` using draw `i`; `Animals.LifeManageBounds`, `LifeManageKeepsAlive`, `LifeManageOrigins` and `LifeManageNoBirths` state its properties and `Animals.LifeManage` is proved to compute it |
| Animals.LivingAll | src/animal/cat/mod.rs:135-138 | when every animal has energy left, the living ones are all of them |
| Animals.LifeManageSnoc | src/animal/cat/mod.rs:135-143 | the output for one more animal is the old output plus that animal's own step |
| Animals.LifeManageBounds | src/animal/cat/mod.rs:132-145 | the output length lies between the number of living animals and twice that number |
| Animals.LifeManageAllDead | src/animal/cat/mod.rs:132-145 | an input in which every animal has no energy gives an empty output |
| Animals.LifeManageKeepsAlive | src/animal/cat/mod.rs:132-145 | every living animal is in the output, in its original order |
| Animals.LifeManageOrigins | src/animal/cat/mod.rs:132-145 | every output animal is a living input, or the descendant of one whose birth draw was below `1/ENERGY_MAX` |
| Animals.LifeManageNoBirths | src/animal/cat/mod.rs:132-145 | with no successful birth draw the output is exactly the living animals |
| Animals.LifeManage | src/animal/cat/mod.rs:132-145 | the `for` loop that skips the dead and pushes an optional descendant before each living animal computes `LifeManageSpec` |
| Cats.New | src/animal/cat/mod.rs:17-35 | a new cat has speed `CAT_VELOCITY`, full energy, no meals and the drawn id, is headed along the drawn angle, and for unit draws lies on the plane with every weight in `[0, max)` |
| Cats.MoveSelf | src/animal/cat/mod.rs:45-71 | one unit of energy is spent and nothing but position and energy changes; each coordinate moves by the velocity and at most one wrap, stays on the plane when it started there with a velocity under one extent, and is unwrapped when the step stays on the plane |
| Cats.ApplyVelocity | src/animal/cat/mod.rs:80-85 | reading the velocity back gives the applied vector, and nothing else changes |
| Cats.ApplyOwnVelocity | src/animal/cat/mod.rs:73-85 | applying the cat's own velocity changes nothing |
| Cats.AsVelocity | src/animal/cat/mod.rs:73-78 | no contract of its own: `(vx, vy)`; `Cats.ApplyVelocity` and `Cats.ApplyOwnVelocity` show it reads back exactly what `apply_velocity` writes |
| Cats.Position | src/animal/cat/mod.rs:97-102 | no contract of its own: `(x, y)`, the point every distance of a cat is measured from |
| Cats.IsWithin | src/animal/cat/mod.rs:87-89 | holds exactly when the other animal is within the radius of the cat the other way round, and only for a positive radius |
| Cats.SumVelocities | src/animal/cat/mod.rs:230-236 | no contract of its own: the fold of the neighbours' velocities, newest added first; `Cats.SumVelocitiesAppend` shows it adds up part by part |
| Cats.SumVelocitiesAppend | src/animal/cat/mod.rs:230-236 | the fold of velocities over two lists, one after the other, is the sum of the two folds |
| Cats.AddVelocity | src/animal/cat/mod.rs:230-236 | no contract of its own: `normalize` of the velocity fold, which `Cats.SumVelocitiesAppend` shows adds up part by part; `normalize` is uninterpreted |
| Cats.ChaseVector | src/animal/cat/mod.rs:173-183 | zero when no rat is within `CHASE_RADIOUS` |
| Cats.SeparateSame | src/animal/cat/mod.rs:185-194 | zero when no other cat is within `SEPARATE_RADIOUS` |
| Cats.Align | src/animal/cat/mod.rs:196-205 | zero when no other cat is within `ALIGN_RADIOUS` |
| Cats.Cohension | src/animal/cat/mod.rs:207-216 | zero when no other cat is within `COHENSION_RADIOUS` |
| Cats.Eat | src/animal/cat/mod.rs:218-228 | when some rat is within `EATEN_RADIOUS`, energy grows by `EAT_ENERGY` and `ate` by one, once however many rats qualify; otherwise the cat is unchanged |
| Cats.NextVelocity | src/animal/cat/mod.rs:158-165 | no contract of its own: the velocity plus the four steering terms, normalised and scaled to the speed; `Cats.LonelySteering` gives its value with nobody near, and `Cats.Chase` is stated in terms of it |
| Cats.LonelySteering | src/animal/cat/mod.rs:157-216 | with no rat within `CHASE_RADIOUS` and no cat within the separation, alignment or cohesion radius, the next velocity is the cat's own, normalised and scaled to its speed |
| Cats.Chase | src/animal/cat/mod.rs:157-171 | the cat takes the steered velocity, spends one unit of energy, and eats by its position before the move; speed, id and the four weights are kept |
| Cats.Mutate | src/animal/cat/mod.rs:238-241 | the result lies in `[0, max]`, moves an in-range value by at most `MUTATE_ABS`, and is the unclamped shift whenever that is already in range |
| Cats.Descendant | src/animal/cat/mod.rs:121-130 | a descendant keeps the parent's speed, has no meals and full energy, has every weight in `[0, max]`, each within `MUTATE_ABS` of the parent's, and for unit draws lies on the plane |
| Cats.NextStates | src/animal/cat/mod.rs:37-43 | every cat chases against the cats and rats as they were at the start of the tick, then `life_manage` runs; every cat that comes out has energy left |
| Cats.LifeKeepsEnergy | src/animal/cat/mod.rs:132-145 | every cat `life_manage` lets through has energy at least 1 |
| Cats.CompByAte | src/animal/cat/mod.rs:253-261 | `Less`, `Greater` and `Equal` hold exactly when `ate` is smaller, larger and equal |
| Cats.CompByAteIsOrder | src/animal/cat/mod.rs:253-261 | the comparator is antisymmetric and transitive |
| Cats.SortByAte | src/animal/cat/mod.rs:245-246 | after the in-place sort the array is non-decreasing in `ate` and holds the same cats |
| Cats.InsertLeft | src/animal/cat/mod.rs:245-246 | one insertion step extends the sorted prefix by one and permutes the array |
| Cats.Swap | src/animal/cat/mod.rs:245-246 | the two cats are exchanged and the array keeps the same cats |
| Cats.CollectServive | src/animal/cat/mod.rs:243-251 | the result has `len/10` cats, is sorted by `ate`, is drawn from the input, and none of its cats ate more than any cat left out |
| Cats.SortedPrefixLowest | src/animal/cat/mod.rs:246-250 | a prefix of a sorted list is sorted, and none of its cats ate more than any cat after it |
| Cats.Repopulate | src/animal/cat/mod.rs:286-299 | the refilling loop gives exactly 20 cats, the `i`-th a descendant of survivor `i mod k` from draw `i` |
| Cats.Round | src/animal/cat/mod.rs:287-293 | one round yields a descendant of every survivor, in order, and these are the next `k` offspring |
| Cats.KeepOffspring | src/animal/cat/mod.rs:296-299 | the first 20 of a longer sequence of offspring are offspring `0` to `19` |
| Cats.ExtendOffspring | src/animal/cat/mod.rs:293 | appending the next offspring to offspring in order gives offspring in order |
| Cats.RoundOffspring | src/animal/cat/mod.rs:287-291 | within a round that starts at a multiple of `k`, descendant `j` is of survivor `(base + j) mod k` |
| Cats.NextGeneration | src/animal/cat/mod.rs:283-300 | with at least ten cats, there are `k = len/10` survivors in ascending order of meals, none of which ate more than any cat left out; the result has 20 descendants, the `i`-th of survivor `i mod k`, so with more than 20 survivors the 20 that ate least breed, each descendant with no meals and full energy |
| Rats.New | src/animal/rat/mod.rs:10-22 | a new rat has full energy and the drawn id, moves at `RAT_VELOCITY` along the drawn angle, and for unit draws lies on the plane |
| Rats.MoveSelf | src/animal/rat/mod.rs:33-56 | only the position changes, so energy and velocity are kept; each coordinate moves by the velocity and at most one wrap, and stays on the plane under the same condition as the cat's |
| Rats.ApplyVelocity | src/animal/rat/mod.rs:58-66 | `as_velocity(apply_velocity(v)) == v`, and nothing but the velocity changes |
| Rats.AsVelocity | src/animal/rat/mod.rs:58-60 | no contract of its own: the velocity field; `Rats.ApplyVelocity` shows it reads back what `apply_velocity` writes |
| Rats.IsWithin | src/animal/rat/mod.rs:68-70 | holds exactly when the other animal is within the radius of the rat the other way round, and only for a positive radius |
| Rats.RunAwayVector | src/animal/rat/mod.rs:141-151 | zero when no cat is within `RUNAWAY_RADIOUS` |
| Rats.NextVelocity | src/animal/rat/mod.rs:131-135 | no contract of its own: the velocity plus the run-away vector, normalised and scaled to the old speed; `Rats.LonelyRunAway` gives its value with no cat near, and `Rats.RunAway` is stated in terms of it |
| Rats.LonelyRunAway | src/animal/rat/mod.rs:130-151 | with no cat within `RUNAWAY_RADIOUS` the rat keeps its own direction, normalised, at its speed |
| Rats.RunAway | src/animal/rat/mod.rs:130-139 | the rat takes the steered velocity, keeps energy and id, and moves by that velocity and at most one wrap |
| Rats.Eaten | src/animal/rat/mod.rs:153-157 | true exactly when some cat is within 1.0 of the rat |
| Rats.DeleteEaten | src/animal/rat/mod.rs:159-165 | the result holds only uneaten rats of the input, and every uneaten rat |
| Rats.DeleteEatenSubseq | src/animal/rat/mod.rs:159-165 | the survivors keep their order, and deleting again removes nothing more |
| Rats.DeleteEatenExtremes | src/animal/rat/mod.rs:159-165 | if every rat is eaten none survives, and if none is eaten all survive |
| Rats.Descendant | src/animal/rat/mod.rs:99-103 | a descendant is a fresh random rat with full energy; nothing is inherited |
| Rats.Fled | src/animal/rat/mod.rs:24-29 | one moved rat for each survivor, in order, each the survivor after `run_away` |
| Rats.NextStates | src/animal/rat/mod.rs:24-31 | the eaten rats are removed before any rat moves, the survivors run away, then `life_manage` runs |
| Rats.LifeManageRatOrigins | src/animal/rat/mod.rs:109-122 | every rat out of `life_manage` is an input rat or a newborn |
| Rats.FledOrigins | src/animal/rat/mod.rs:24-29 | every rat that ran away is an uneaten input rat after its escape |
| Rats.NextStatesOrigins | src/animal/rat/mod.rs:24-31 | no eaten rat and no descendant of one comes out of a tick: each rat is an uneaten rat after its escape, or newborn |
| Rats.NextStatesKeepsFull | src/animal/rat/mod.rs:24-31 | rats at full energy stay at full energy, and every rat that ran away is kept, in order |
| Rats.LifeManageKeepsFull | src/animal/rat/mod.rs:109-122 | `life_manage` on rats at full energy drops none of them, keeps their order, and adds only newborns at full energy |
| Rats.FledFull | src/animal/rat/mod.rs:130-139 | running away keeps full energy |
| QuadTree.ChildrenTile | src/quad_tree/mod.rs:136-160 | a quarter has half the size and lies inside its parent; no point is inside two quarters; a point off both midlines is inside the quarter its sides select |
| QuadTree.ChildInParent | src/quad_tree/mod.rs:136-160 | a point inside a quarter is inside the parent |
| QuadTree.ChildrenDisjoint | src/quad_tree/mod.rs:136-160 | no point is strictly inside two different quarters |
| QuadTree.Child | src/quad_tree/mod.rs:136-152 | for a rectangle of non-negative size, the quarter lies within the parent |
| QuadTree.IsInside | src/quad_tree/mod.rs:154-160 | only a rectangle of positive width and height contains a point |
| QuadTree.Point | src/quad_tree/mod.rs:162-177 | no contract of its own: `QuadTree.PointTwoCorners` states that it is always the top-left or the bottom-right corner |
| QuadTree.PointTwoCorners | src/quad_tree/mod.rs:162-177 | `point(n)` is always the top-left or the bottom-right corner, and `point(2)` and `point(3)` repeat `point(0)` and `point(1)` |
| QuadTree.CornerDist | src/quad_tree/mod.rs:196-200 | the corner fold is at most `WIDTH + 100` and at most the distance to either corner, and is one of those three values |
| QuadTree.MinDist | src/quad_tree/mod.rs:179-201 | zero for a point strictly inside; never negative when the square root is not |
| QuadTree.WholeScreen | src/quad_tree/mod.rs:203-210 | the rectangle is `WIDTH` by `HEIGHT` at the origin |
| QuadTree.SplitRectangle | src/quad_tree/mod.rs:215-226 | below `WIDTH_LIMIT` the rectangle is kept, otherwise it is its first quarter |
| QuadTree.MinRectangle | src/quad_tree/mod.rs:211-213 | always 320 by 240 at the origin, whatever the receiver |
| QuadTree.FirstChildInside | src/quad_tree/mod.rs:235-242 | the first quarter that strictly contains the point, or 4 when none does |
| QuadTree.GetIndex | src/quad_tree/mod.rs:229-244 | below `WIDTH_LIMIT` the index is returned as given; a split rectangle that does not strictly contain the point fails, where the source panics; indices only grow |
| QuadTree.GetIndexStored | src/quad_tree/mod.rs:229-244 | `get_index` finds a cell exactly for the points that `append` stores in a fresh tree over the same rectangle |
| QuadTree.StoredInFirst | src/quad_tree/mod.rs:60-73 | in a well-formed branch a point is stored exactly when the first quarter that strictly contains it stores it, and nowhere when no quarter does |
| QuadTree.AppendFreshIndexed | src/quad_tree/mod.rs:229-244 | appending one animal to a fresh tree stores it exactly when `get_index` finds a cell for its position |
| QuadTree.NewTreeSpec | src/quad_tree/mod.rs:36-54 | the tree covers the rectangle, is a branch exactly when the width is at least `WIDTH_LIMIT`, is well-formed, and stores nothing |
| QuadTree.AppendSpec | src/quad_tree/mod.rs:60-73 | no contract of its own: `QuadTree.AppendContents` states it adds the animal once when it is stored and otherwise nothing, over the same well-formed shape, and `QuadTree.QuadTree.Append` is proved to compute it |
| QuadTree.AppendContents | src/quad_tree/mod.rs:60-73 | `append` keeps the tree well-formed over the same rectangle, and adds the animal once if some leaf takes it and not at all otherwise |
| QuadTree.AppendChildContents | src/quad_tree/mod.rs:64-69 | offering the animal to one child keeps it well-formed over the same rectangle, and adds exactly what that child gains |
| QuadTree.QuartersDisjoint | src/quad_tree/mod.rs:136-160 | the six pairs of quarters share no interior point |
| QuadTree.AppendCount | src/quad_tree/mod.rs:60-73 | the number of stored animals grows by exactly 0 or 1 |
| QuadTree.NotStoredOffInterior | src/quad_tree/mod.rs:60-73 | a point outside a branch's interior or on one of its midlines is stored nowhere |
| QuadTree.RemoveSpec | src/quad_tree/mod.rs:75-93 | no contract of its own: `QuadTree.RemoveShape`, `RemoveContents` and `RemoveKeepsOthers` state that it keeps the shape, only removes, and keeps every entry with another id; `QuadTree.QuadTree.Remove` is proved to compute it |
| QuadTree.RemoveShape | src/quad_tree/mod.rs:75-93 | `remove` keeps the rectangle, and keeps a well-formed tree well-formed |
| QuadTree.RemoveContents | src/quad_tree/mod.rs:75-93 | `remove` only drops entries, and keeps every entry whose id differs from the animal's |
| QuadTree.RemoveKeepsOthers | src/quad_tree/mod.rs:75-93 | the count of every entry with another id is unchanged |
| QuadTree.RemoveAppend | src/quad_tree/mod.rs:60-93 | for an animal whose id is not yet stored, `remove` undoes `append` |
| QuadTree.SearchSpec | src/quad_tree/mod.rs:103-127 | no contract of its own: `QuadTree.SearchSound` states that it returns only stored animals within the radius, `QuadTree.SearchMissesNeighbour` that it can miss one, and `QuadTree.QuadTree.Search` is proved to compute it |
| QuadTree.SearchChild | src/quad_tree/mod.rs:117-121 | no contract of its own: a child is searched only when its `min_dist` is strictly below the radius; `QuadTree.SearchChildSound` states the soundness of its part and `QuadTree.SearchMissesNeighbour` that it can skip a cell holding a neighbour |
| QuadTree.SearchSound | src/quad_tree/mod.rs:103-127 | everything `search` returns is stored in the tree and within the radius of the query |
| QuadTree.SearchChildSound | src/quad_tree/mod.rs:114-122 | the same for the part one child contributes |
| QuadTree.SearchLeaf | src/quad_tree/mod.rs:106-112 | an unpruned leaf returns its animals within the radius, in order |
| QuadTree.SearchFindsItself | src/quad_tree/mod.rs:106-112 | a leaf that strictly contains the query animal returns it for any positive radius, so the query is not excluded |
| QuadTree.CornersFar | src/quad_tree/mod.rs:179-201 | for the query at `(105.3, 97.3)` and the cell at `(100, 97.5)` of size 5 by 3.75, `min_dist` is more than 1, although the corner `(105, 97.5)` is about 0.36 away |
| QuadTree.SearchMissesNeighbour | src/quad_tree/mod.rs:103-127 | an animal inside that cell, 0.5 from the query, is not returned by a search with radius 1, either from the cell or as a child |
| QuadTree.LeftmostOfScaled | src/quad_tree/mod.rs:36-54 | a rectangle of 7.8125·2^k by 15.625·2^k at the origin has its leftmost leaf `k` levels down, at 7.8125 by 15.625 |
| QuadTree.NewTreeDepthSeven | src/quad_tree/mod.rs:36-54 | a 1000 by 2000 rectangle gives depth 7 and a leftmost leaf of 7.8125 by 15.625 |
| QuadTree.LeavesOfScaled | src/quad_tree/mod.rs:36-54 | a rectangle of `MIN_WIDTH`·2^k by `MIN_HEIGTH`·2^k has every leaf `MIN_WIDTH` by `MIN_HEIGTH` |
| QuadTree.WholeScreenLeaves | src/quad_tree/mod.rs:36-54 | the whole-screen tree has every leaf 5 by 3.75 |
| QuadTree.AppendAll | src/quad_tree/mod.rs:95-101 | no contract of its own: the animals appended in order; `QuadTree.AppendAllContents` and `QuadTree.NewStoresAtMostOnce` state what it stores, and `QuadTree.QuadTree.New` is proved to compute it |
| QuadTree.AppendAllContents | src/quad_tree/mod.rs:95-101 | appending a list keeps the tree well-formed over the same rectangle, and stores nothing beyond the old contents and the list |
| QuadTree.NewStoresAtMostOnce | src/quad_tree/mod.rs:95-101 | `new` stores each input animal at most once, and no more animals than given |
| QuadTree.SearchKidsAll | src/quad_tree/mod.rs:114-123 | collecting the four children in order gives the branch's search result |
| QuadTree.QuadTree.KidFacts | src/quad_tree/mod.rs:31 | each child of a valid branch is valid, lies below it and stands for the matching child of the model |
| QuadTree.QuadTree.LeafNode | src/quad_tree/mod.rs:47-53 | a fresh valid empty leaf |
| QuadTree.QuadTree.BranchNode | src/quad_tree/mod.rs:42-46 | a fresh valid branch over four valid disjoint children |
| QuadTree.QuadTree.NewTree | src/quad_tree/mod.rs:36-54 | a fresh valid tree whose model is `NewTreeSpec` |
| QuadTree.QuadTree.NewChildren | src/quad_tree/mod.rs:38-41 | four fresh, valid, disjoint children in `child(0)` to `child(3)` order |
| QuadTree.QuadTree.Append | src/quad_tree/mod.rs:60-73 | in place: still valid, with model `AppendSpec` of the old model |
| QuadTree.QuadTree.AppendToChildren | src/quad_tree/mod.rs:63-69 | every child's model becomes its old model offered the animal, and the children stay valid |
| QuadTree.QuadTree.AppendAt | src/quad_tree/mod.rs:64-68 | child `i` is offered the animal and the other three are untouched |
| QuadTree.QuadTree.AppendIfInside | src/quad_tree/mod.rs:65-68 | the child appends exactly when its rectangle strictly contains the position |
| QuadTree.QuadTree.Remove | src/quad_tree/mod.rs:75-93 | in place: still valid, with model `RemoveSpec` of the old model |
| QuadTree.QuadTree.RemoveFromChildren | src/quad_tree/mod.rs:76-83 | only the first child that contains the position removes, and the loop stops there |
| QuadTree.QuadTree.RemoveAt | src/quad_tree/mod.rs:78-81 | child `i` removes the animal and the other three are untouched |
| QuadTree.QuadTree.New | src/quad_tree/mod.rs:95-101 | a fresh valid tree over the whole screen, with the animals appended in order |
| QuadTree.QuadTree.NewIn | src/quad_tree/mod.rs:95-101 | the same for any rectangle |
| QuadTree.QuadTree.Search | src/quad_tree/mod.rs:103-127 | the collected result is `SearchSpec` of the model |
| QuadTreeEnum.NewTree | src/quad_tree.rs:22-45 | a leaf exactly when the width is at most `CELL_WIDTH`; otherwise a branch recording its rectangle |
| QuadTreeEnum.NewTreeWellFormed | src/quad_tree.rs:22-45 | every branch's children are half-size, at `(x, y)`, `(x+w/2, y)`, `(x, y+h/2)` and `(x+w/2, y+h/2)`, and nothing is stored |
| QuadTreeEnum.EmptyLeaves | src/quad_tree.rs:24-26 | every leaf of an empty tree is empty |
| QuadTreeEnum.ScaledShape | src/quad_tree.rs:22-45 | on 40·2^k by 30·2^k, every leaf lies `k` branches down, and there are 4^k leaves |
| QuadTreeEnum.ScaledCells | src/quad_tree.rs:22-45 | on such a rectangle every leaf covers 40 by 30 |
| QuadTreeEnum.ScreenShape | src/quad_tree.rs:77-78 | the 640 by 480 screen tree has 4 branch levels and 256 leaves of 40 by 30 |
| QuadTreeEnum.Route | src/quad_tree.rs:61-72 | no contract of its own: the quarter the else-if chain picks; `QuadTreeEnum.RouteCases` states, for each quarter, exactly the points it is picked for |
| QuadTreeEnum.RouteCases | src/quad_tree.rs:61-72 | each quarter is picked exactly for the points on its side of both midlines, `< w/2` versus `>=` |
| QuadTreeEnum.Append | src/quad_tree.rs:47-75 | no contract of its own: `QuadTreeEnum.AppendRoutes`, `AppendElements` and `AppendLeaves` state that it changes only the routed quarter, adds the animal exactly once, and pushes it to the back of the leaf `LeafIndex` picks |
| QuadTreeEnum.AppendRoutes | src/quad_tree.rs:47-75 | at a branch `append` descends into the routed quarter only, and keeps the other children and the rectangle |
| QuadTreeEnum.AppendSameShape | src/quad_tree.rs:47-75 | `append` changes no branch |
| QuadTreeEnum.SameShapeWellFormed | src/quad_tree.rs:47-75 | a tree with the same branches is placed and well-formed alike |
| QuadTreeEnum.AppendElements | src/quad_tree.rs:47-75 | the stored animals grow by exactly the appended one, so the count grows by exactly 1 |
| QuadTreeEnum.LeafIndex | src/quad_tree.rs:61-72 | the routing chain leads to a valid leaf index |
| QuadTreeEnum.AppendLeaves | src/quad_tree.rs:49-72 | `append` changes only the leaf it routes to, adding the animal at its back |
| QuadTreeEnum.SameShapeRouting | src/quad_tree.rs:61-72 | a tree with the same branches has as many leaves and routes every point to the same leaf |
| QuadTreeEnum.New | src/quad_tree.rs:77-83 | the screen tree with every animal stored exactly once; each leaf holds, in input order, exactly the animals routed to it |
| QuadTreeEnum.LeavesStep | src/quad_tree.rs:79-81 | one append extends each leaf's routed filter by the new animal |
| QuadTreeEnum.NewIn | src/quad_tree.rs:77-83 | the same for any rectangle |
| OldAnimal.New | src/animal.rs:17-24 | a new animal lies on the plane and moves at speed 0.5 along some angle in `[0, 2π)` |
| OldAnimal.New2 | src/animal.rs:26-31 | the fixture at `(WIDTH-1, HEIGHT/2)`, moving right at 0.5 |
| OldAnimal.New3 | src/animal.rs:33-38 | the fixture at `(1, HEIGHT/2)`, moving right at 0.5 |
| OldAnimal.AsPVector | src/animal.rs:80-85 | the position as a vector |
| OldAnimal.Offset | src/animal.rs:40-45 | between animals on the plane the displacement is at most half the plane on each axis |
| OldAnimal.Dist | src/animal.rs:47-49 | for a square root that returns the non-negative root, the distance is non-negative and its square is the squared offset |
| OldAnimal.OffsetAntisymmetric | src/animal.rs:40-44 | the offset back is the offset there, negated |
| OldAnimal.DistSymmetric | src/animal.rs:47-49 | `dist(a, b) == dist(b, a)` for any square root function |
| OldAnimal.FixturesAcrossSeam | src/animal.rs:26-44 | the two fixtures are 2 apart across the left and right edges, in both directions |
| OldAnimal.MoveSelf | src/animal.rs:51-78 | speed and velocity are copied; each coordinate moves by the velocity and at most one wrap by the local 640/480, stays on the plane when it started there with a velocity under one extent, and is unwrapped when the step stays on the plane |
| OldAnimal.New2Moves | src/animal.rs:51-78 | moving `new2` puts it at `WIDTH - 0.5` with nothing else changed |
| OldAnimal.Positions | src/animal.rs:87-93 | the positions, one per animal, in order |
| OldAnimal.ToPVectors | src/animal.rs:87-93 | the push loop yields the positions in order |
| OldAnimal.Chase | src/animal.rs:95-116 | position and speed are kept; with no preyer found the animal is returned unchanged, otherwise its velocity is the normalised sum scaled by its speed |
| OldAnimal.CollectNear | src/animal/cat.rs:34 | the neighbours are an order-preserving sublist holding exactly those within the radius |
| OldAnimal.CollectNearEmpty | src/animal/cat.rs:33-38 | the neighbour list is empty exactly when nobody is within the radius |
| OldCat.EatRats | src/animal/cat.rs:9-15 | the loop yields the cats' `after_eat` in turn, which is the rats out of reach of every cat, in order |
| OldCat.ChaseVector | src/animal/cat.rs:33-43 | zero when no preyer is within 10.0 |
| OldCat.SeparateSame | src/animal/cat.rs:45-54 | zero when nobody is within 5.0 |
| OldCat.Align | src/animal/cat.rs:56-65 | zero when nobody is within 10.0 |
| OldCat.SumVelocities | src/animal/cat.rs:67-73 | no contract of its own: the fold of `as_velocity`, newest added first; `OldCat.SumVelocitiesAppend` shows it adds up part by part |
| OldCat.SumVelocitiesAppend | src/animal/cat.rs:67-73 | the velocity fold over two lists, one after the other, is the sum of the two folds |
| OldCat.AddVelocity | src/animal/cat.rs:67-73 | no contract of its own: `normalize` of the fold of `as_velocity`, both uninterpreted fields of `Helpers`; `OldCat.SumVelocitiesAppend` shows the fold adds up part by part |
| OldCat.Cohension | src/animal/cat.rs:75-84 | zero when nobody is within 15.0 |
| OldCat.LonelySteering | src/animal/cat.rs:17-25 | with nobody near, the next velocity is the cat's own, normalised and scaled to its speed |
| OldCat.Eat | src/animal/cat.rs:86-96 | energy grows by 300 exactly when some rat is within 1.0; nothing else ever changes |
| OldCat.NextVelocity | src/animal/cat.rs:18-25 | no contract of its own: the velocity plus the four steering terms, normalised and scaled to the speed; `OldCat.LonelySteering` gives its value with nobody near, and `OldCat.Chase` is stated in terms of it |
| OldCat.Chase | src/animal/cat.rs:17-31 | eating is decided for the steered cat before it moves, the move comes last, and the weights are kept |
| OldCat.AnimalsOf | src/animal/cat.rs:98-104 | the cats' animal records, one per cat, in order |
| OldCat.NextStatesCatsChasesAll | src/animal/cat.rs:98-104 | every cat, in order, chases against the lists as they were at the start of the tick, before `life_manage` |
| OldCat.NextStatesCats | src/animal/cat.rs:98-104 | no contract of its own: `OldCat.NextStatesCatsChasesAll` states that every cat, in order, chases against the lists as they were at the start of the tick |
| OldRat.NewRat | src/animal/rat.rs:6-10 | the speed is 0.5, and it is `Animal::new` |
| OldRat.AfterEat | src/animal/rat.rs:21-26 | the result holds only input rats out of reach of the cat, and every such rat |
| OldRat.AfterEatSubseq | src/animal/rat.rs:21-26 | the result is an order-preserving sublist of the input |
| OldRat.AfterEatAll | src/animal/cat.rs:9-15 | no contract of its own: `OldRat.AfterEatAllIsFilter` states that it keeps exactly the rats out of reach of every cat, in order, and `OldRat.AfterEatAllOrderFree` that the cats' order does not matter |
| OldRat.AfterEatIdempotent | src/animal/rat.rs:21-26 | a second `after_eat` by the same cat removes nothing more |
| OldRat.AfterEatAllIsFilter | src/animal/cat.rs:9-15 | the cats eating in turn keep exactly the rats out of reach of every cat, in their order |
| OldRat.AfterEatAllOrderFree | src/animal/cat.rs:9-15 | the result does not depend on the order of the cats |
| OldRat.RunAwayVector | src/animal/rat.rs:39-48 | zero when no preyer is within 10.0, otherwise `calculate_direction` of the near ones, not negated |
| OldRat.NextVelocity | src/animal/rat.rs:29-33 | no contract of its own: the old velocity plus the run-away vector, normalised and scaled by the speed; `OldRat.LonelyRunAway` gives its value with no preyer near |
| OldRat.RunAway | src/animal/rat.rs:28-37 | the rat is steered to `OldRat.NextVelocity` by `apply_velocity`, then moves once: speed and velocity are those of the steered rat, and each coordinate advances by the velocity with at most one wrap |
| OldRat.LonelyRunAway | src/animal/rat.rs:28-48 | with no preyer within 10.0 the rat keeps its own direction, normalised, at its speed |
| OldRat.NextStatesRatsEatsFirst | src/animal/rat.rs:12-19 | the eating filter is applied before any `run_away`, then `life_manage` |
| OldRat.NextStatesRats | src/animal/rat.rs:12-19 | no contract of its own: `OldRat.NextStatesRatsEatsFirst` states that exactly the rats out of reach of every cat run away, in order, before `life_manage` |
| OldRat.SurvivorsExact | src/animal/rat.rs:12-19 | the survivors are an order-preserving sublist, none is within 1.0 of a cat, and every rat out of reach survives |

## Left out

- Rendering, the window and the main loop are not part of this model. Nor is the random construction of the
  populations.
- The `println!` calls are left out (in `get_index`, the old `eat` and the old `chase`), and so is `is_move_tree`,
  which depends on the printing `get_index`.
- The panics are left out. Under `Valid` the "both None" panic of `append` and `search` cannot happen. The
  "can not find index" panic of `get_index` is its `None` result.
- `Rc<RefCell<…>>` sharing: the children are owned by their parent, with disjoint footprints, so aliasing between
  subtrees is not modelled.
- The enum tree's `append`: `QuadTreeEnum.Append` is a function on the value. The children are boxed and owned by
  their parent, so the update in place through `&mut` has value semantics.
- Floating point: `f64` rounding, NaN from `normalize` of a zero vector, and the square root, `normalize`, `cos` and
  `sin` are uninterpreted. So no steering direction is proved beyond its zero case and its wiring.
- Randomness: the draws are parameters, and their distribution is not modelled. The population-growth statistics
  are not modelled.
- Widths: `u64` ids are `nat` with a bound only on the draw, and `ate: u32` and `energy: u64` are unbounded
  `nat`. `energy -= 1` is treated as never underflowing, by requiring `energy >= 1`.
- `comp_by_x` and `comp_by_y` are left out because nothing uses them.
- The old `new_cat` (`src/animal/cat.rs:5-7`) is `Animal::new` unchanged, so it has no member of its own.
- The old lineage calls `Animal` methods that `src/animal.rs` does not define: `is_within`, `collect_near_pvectors`,
  `calculate_direction`, `as_velocity`, `apply_velocity`, `normalize`, `life_manage`, and `find_near` and `add_all`
  on `PVector`. These are uninterpreted fields of `OldAnimal.Helpers` and `OldAnimal.Finder`.
  - `collect_near_pvectors` is the filter by `is_within`. The old struct has no id, so there is no id test.
  - The cat's `energy` and four weights, which `src/animal/cat.rs` reads but the old struct lacks, are the
    `OldCat.Cat` wrapper. Its energy is an unbounded `int`.
  - The old `next_states_rats` mixes `LinkedList` and `Vec`. Both are sequences here.
- Cats.SortByAte: states sortedness and permutation only, not the stability of `sort_by`.
- Cats.NextGeneration: the survivors are in ascending order of meals, but among cats with equal meal counts their
  order, which `sort_by`'s stability fixes, is not stated.
- QuadTree.MinDist: states that it is zero inside and never negative. It is not a lower bound on the distance to
  the rectangle: the corner branch looks at two corners only (`QuadTree.CornersFar`).
- QuadTree.SearchSound: states soundness only. `search` is not complete: it can miss an animal within the radius
  that lies next to a corner `point` never produces (`QuadTree.SearchMissesNeighbour`).
- QuadTree.GetIndex: states the base case, the failure case and monotone indices, and `QuadTree.GetIndexStored`
  ties success to `append`, but the exact cell reached is not stated.
- Rats.RunAway and Rats.NextStates: the escape direction is not proved beyond the zero case of
  `Rats.RunAwayVector`.
- OldCat.NextStatesCatsChasesAll and OldRat.NextStatesRatsEatsFirst: `life_manage` of the old lineage is
  uninterpreted, so nothing is stated about what it keeps.
