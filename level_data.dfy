/**
 * One level's configuration (Assets/Scripts/Data/LevelData.cs): its ID, its grid size and the
 * photo it is cut from.
 */
module Levels {

  /**
   * The grid size SetLevelData stores for a requested width and height: kept as given when both
   * are positive, otherwise each replaced by the larger of 2 and itself.
   */
  function ClampGrid(width: int, height: int): (r: (int, int))
    ensures r.0 >= 1 && r.1 >= 1
    ensures width > 0 && height > 0 ==> r == (width, height)
    ensures !(width > 0 && height > 0) ==>
      r.0 >= 2 && r.0 >= width && (r.0 == 2 || r.0 == width) &&
      r.1 >= 2 && r.1 >= height && (r.1 == 2 || r.1 == height)
  {
    if width <= 0 || height <= 0 then
      (if width < 2 then 2 else width, if height < 2 then 2 else height)
    else
      (width, height)
  }

  /** A valid dimension of 1 is raised to 2 when the other dimension is invalid. */
  lemma ClampRaisesValidOne(other: int)
    requires other <= 0
    ensures ClampGrid(1, other) == (2, 2) && ClampGrid(other, 1) == (2, 2)
  {
  }

  class LevelData {
    var levelID: int
    var gridWidth: int
    var gridHeight: int
    var photoID: int

    /** The stored fields, as the level's read-only properties give them. */
    function LevelID(): (id: int) reads this ensures id == levelID { levelID }
    function GridWidth(): (width: int) reads this ensures width == gridWidth { gridWidth }
    function GridHeight(): (height: int) reads this ensures height == gridHeight { gridHeight }
    function PhotoID(): (id: int) reads this ensures id == photoID { photoID }

    /** The size every level has: created 3 by 3, and at least 1 by 1 after any SetLevelData. */
    predicate HasValidSize()
      reads this
    {
      gridWidth >= 1 && gridHeight >= 1
    }

    /** A new level asset: ID 0, a 3 by 3 grid, photo 0. */
    constructor ()
      ensures levelID == 0 && gridWidth == 3 && gridHeight == 3 && photoID == 0
      ensures HasValidSize()
    {
      levelID, gridWidth, gridHeight, photoID := 0, 3, 3, 0;
    }

    /** Stores ID and photo ID as given and the grid size after clamping. */
    method SetLevelData(id: int, width: int, height: int, photoId: int)
      modifies this
      ensures LevelID() == id && PhotoID() == photoId
      ensures (GridWidth(), GridHeight()) == ClampGrid(width, height)
      ensures GridWidth() >= 1 && GridHeight() >= 1 && HasValidSize()
    {
      var w, h := width, height;
      if w <= 0 || h <= 0 {
        w := if 2 < w then w else 2;
        h := if 2 < h then h else 2;
      }
      levelID := id;
      gridWidth := w;
      gridHeight := h;
      photoID := photoId;
    }
  }
}
