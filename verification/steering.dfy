/** Directions without vector arithmetic. A heading is recorded as the chain
    of blends that produced it: each tick an enemy or a homing missile moves
    its direction a fraction of the way towards a desired direction
    (`dir.lerp(desired, factor).normalize()`), and the model keeps which
    direction was aimed at and with what factor. */
module Steering {

  /** The desired directions the source blends towards. */
  datatype Aim =
    | AtPlayer              // the normalised vector from an enemy to the player
    | PlayerBackward        // the player's forward vector reversed
    | AtEnemy(enemy: nat)   // the normalised vector from a missile to its target

  /** `Start` is the direction a record was given when it was (re)spawned;
      `Blended` is one lerp-and-normalise step of `prev` towards `aim`. */
  datatype Heading = Start | Blended(prev: Heading, aim: Aim, factor: real)

  /** One blend step of `h` towards `aim`. */
  function Blend(h: Heading, aim: Aim, factor: real): Heading {
    Blended(h, aim, factor)
  }

  /** The number of blend steps a heading has gone through. */
  function Turns(h: Heading): nat {
    match h
    case Start => 0
    case Blended(prev, _, _) => Turns(prev) + 1
  }
}
