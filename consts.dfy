/** The simulation's compile-time configuration. */
module Consts {
  const WIDTH: real := 640.0
  const HEIGHT: real := 480.0
  const ENERGY_MAX: nat := 1000
  const RAT_VELOCITY: real := 0.5
  const CAT_VELOCITY: real := 1.0
  const MUTATE_ABS: real := 10.0
  const RUNAWAY_RADIOUS: real := 10.0
  const COHENSION_RADIOUS: real := 15.0
  const EATEN_RADIOUS: real := 1.0
  const ALIGN_RADIOUS: real := 10.0
  const SEPARATE_RADIOUS: real := 5.0
  const CHASE_RADIOUS: real := 10.0
  const EAT_ENERGY: nat := 300
  const COHENSION_MAX: real := 480.0
  const CHASE_MAX: real := 480.0
  const SEPARATE_MAX: real := 480.0
  const ALIGN_MAX: real := 480.0
  const CELL_WIDTH: real := 64.0
  const MIN_WIDTH: real := 5.0
  const MIN_HEIGTH: real := 3.75

  /** Ids are drawn as `u64`. */
  const U64_LIMIT: nat := 0x1_0000_0000_0000_0000
  /** `std::f64::consts::PI`. */
  const PI: real := 3.141592653589793
}
