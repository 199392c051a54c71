/**
 * Stand-ins for the game-engine values the puzzle core touches. Only the integer parts the core
 * computes with are kept: a sprite is a name and its texture's pixel size, a sub-sprite is the
 * integer rectangle it was cut from, and a scene is the destination of a scene switch.
 */
module Engine {

  import opened Wrappers

  /** A full-size photo sprite: its asset name and the width and height of its texture in pixels. */
  datatype Sprite = Sprite(name: string, textureWidth: nat, textureHeight: nat)

  /** A rectangle of texture pixels, origin at the bottom-left corner of the texture. */
  datatype Rect = Rect(x: int, y: int, width: int, height: int)

  /**
   * The piece prefab that the grid instantiates once per cell: whether it carries a puzzle-piece
   * component, and the sprite of its image component (None when it has no image component).
   */
  datatype Prefab = Prefab(hasPiece: bool, image: Option<Rect>)

  /** The scenes the puzzle can switch to after a completed level. */
  datatype Scene = PuzzleGame | LevelMap
}
