/** Places on the map. */
module Positions {

  datatype Position = Position(x: int, y: int, z: int)

  /** The floors of the map. */
  const MAP_MAX_LAYERS := 16
}
