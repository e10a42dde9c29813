/** The geometry helpers the grid world consumes: vector addition, the four headings and
    the two 90-degree turns. mdp.py takes them from a `utils` module that is not part
    of this model, so they are defined here as the usual unit vectors and rotations. */
module Geometry {

  /** An integer pair: a grid coordinate (x, y) or a heading. */
  type Vec = (int, int)

  function VectorAdd(a: Vec, b: Vec): Vec
  {
    (a.0 + b.0, a.1 + b.1)
  }

  const EAST: Vec := (1, 0)
  const NORTH: Vec := (0, 1)
  const WEST: Vec := (-1, 0)
  const SOUTH: Vec := (0, -1)

  /** The headings in counter-clockwise order, so that turning left moves one step along
      the list and turning right one step back. */
  const ORIENTATIONS: seq<Vec> := [EAST, NORTH, WEST, SOUTH]

  /** Rotation by 90 degrees clockwise. */
  function TurnRight(d: Vec): Vec
  {
    (d.1, -d.0)
  }

  /** Rotation by 90 degrees counter-clockwise. */
  function TurnLeft(d: Vec): Vec
  {
    (-d.1, d.0)
  }

  /** Turning right steps back along ORIENTATIONS (wrapping from EAST to SOUTH) and turning
      left steps forward (wrapping from SOUTH to EAST): the list-index form of the turns. */
  lemma TurnsFollowOrientations(i: int)
    requires 0 <= i < |ORIENTATIONS|
    ensures TurnRight(ORIENTATIONS[i]) == ORIENTATIONS[(i + 3) % 4]
    ensures TurnLeft(ORIENTATIONS[i]) == ORIENTATIONS[(i + 1) % 4]
  {
  }

  /** The two turns undo each other, and neither keeps the heading. */
  lemma TurnsAreInverse(d: Vec)
    requires d in ORIENTATIONS
    ensures TurnLeft(TurnRight(d)) == d && TurnRight(TurnLeft(d)) == d
    ensures TurnRight(d) in ORIENTATIONS && TurnLeft(d) in ORIENTATIONS
    ensures TurnRight(d) != d && TurnLeft(d) != d && TurnRight(d) != TurnLeft(d)
  {
  }
}
