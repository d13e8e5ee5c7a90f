/** The game's settings object.  settings.py is not part of this model: its
    constants become fields of `Config`, fixed for a session, and only the two
    values the core reads back after changing them are mutable state. */
module Tuning {

  /** Values the engine reads but never changes: screen size, the sizes of the
      ship, bullet and alien sprites (the sprite images are not modelled, only
      their rectangles), integer speeds, the bullet limit, the fleet drop, the
      points per alien and the number of spare ships. */
  datatype Config = Config(
    screenWidth: int, screenHeight: int,
    shipWidth: nat, shipHeight: nat, shipSpeed: nat,
    bulletWidth: nat, bulletHeight: nat, bulletSpeed: nat, bulletsAllowed: nat,
    alienWidth: nat, alienHeight: nat, alienSpeed: nat,
    fleetDropSpeed: nat, alienPoints: nat, shipLimit: nat)
  {
    /** A screen exists and the alien sprite has an area, so the fleet
        arithmetic never divides by zero. */
    predicate Valid() {
      screenWidth > 0 && screenHeight > 0 && alienWidth > 0 && alienHeight > 0
    }
  }

  /** The direction a new session starts with (to the right). */
  const InitialDirection := 1

  class Settings {
    const fixed: Config
    /** +1 to the right, -1 to the left; shared by the whole fleet. */
    var fleetDirection: int
    /** How many times increase_speed has run since the last reset of the
        dynamic settings. */
    var speedups: nat

    constructor (fixed: Config)
      ensures this.fixed == fixed
      ensures fleetDirection == InitialDirection && speedups == 0
    {
      this.fixed := fixed;
      fleetDirection := InitialDirection;
      speedups := 0;
    }

    /** Restores the per-session dynamic values: the direction and the speed-up level. */
    method InitializeDynamicSettings()
      modifies this
      ensures fleetDirection == InitialDirection && speedups == 0
    {
      fleetDirection := InitialDirection;
      speedups := 0;
    }

    /** One step of difficulty: the scaling itself lives in settings.py, so
        the model records only that it happened. */
    method IncreaseSpeed()
      modifies this
      ensures speedups == old(speedups) + 1
      ensures fleetDirection == old(fleetDirection)
    {
      speedups := speedups + 1;
    }
  }
}
