/**
 * Constants of config.py and the enumerations of enums.py.
 */
module Config {
  const PlayerWidth: nat := 40
  const PlayerHeight: nat := 40
  const PlayerSpeed: int := 4
  const NpcSpeed: int := 2
  const ScreenWidth: int := 800
  const ScreenHeight: int := 600
  const GameFps: nat := 50

  /**
   * The action tokens kept in an input buffer. enums.py declares only the
   * four directions; the keymaps and the session also use SHOOT, so it is a
   * member here.
   */
  datatype KeyType = Up | Down | Left | Right | Shoot

  /** The direction a player faces. */
  datatype Facing = Up | Down | Left | Right

  /** `Facing.name.lower()`: the direction part of an animation key. */
  function FacingName(f: Facing): (name: string)
    ensures name in {"up", "down", "left", "right"}
  {
    match f
    case Up => "up"
    case Down => "down"
    case Left => "left"
    case Right => "right"
  }

  /** An RGB colour tuple. */
  datatype Color = Color(r: int, g: int, b: int)
}
