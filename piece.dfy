/**
 * One tile of the sliced photo (Assets/Scripts/Puzzle/PuzzlePiece.cs): the slot it occupies now,
 * the slot it belongs in, and the image component that shows its sub-sprite.
 */
module Pieces {

  import opened Wrappers
  import opened Engine

  class PuzzlePiece {
    /** The slot of the grid the piece occupies now. */
    var currentIndex: int
    /** The slot the piece belongs in. */
    var correctIndex: int
    /** The image component and the sub-sprite it shows; None when the piece has no image. */
    var image: Option<Rect>

    /** A freshly instantiated piece: both indices hold the language default 0. */
    constructor (image: Option<Rect>)
      ensures currentIndex == 0 && correctIndex == 0 && this.image == image
    {
      currentIndex, correctIndex := 0, 0;
      this.image := image;
    }

    /** The piece is where it belongs. */
    function IsInCorrectPosition(): (inPlace: bool)
      reads this`currentIndex, this`correctIndex
      ensures inPlace <==> currentIndex == correctIndex
    {
      currentIndex == correctIndex
    }

    /** Gives the piece its sub-sprite (kept only when it has an image) and both its indices. */
    method Initialize(sprite: Rect, currentIdx: int, correctIdx: int)
      modifies this
      ensures currentIndex == currentIdx && correctIndex == correctIdx
      ensures image == if old(image).Some? then Some(sprite) else None
    {
      if image.Some? {
        image := Some(sprite);
      }
      currentIndex := currentIdx;
      correctIndex := correctIdx;
    }

    /** Records the slot the piece has been moved to; the slot it belongs in is untouched. */
    method SetCurrentIndex(index: int)
      modifies this`currentIndex
      ensures currentIndex == index && correctIndex == old(correctIndex)
    {
      currentIndex := index;
    }

    /**
     * Exchanges sprite and correct index with another piece. Nothing happens when the other
     * piece is missing or either piece lacks an image; the current indices never change.
     */
    method SwapSpriteWith(other: PuzzlePiece?)
      modifies this, other
      ensures currentIndex == old(currentIndex)
      ensures other != null ==> other.currentIndex == old(other.currentIndex)
      ensures other == null || old(image).None? || old(other.image).None? ==>
        correctIndex == old(correctIndex) && image == old(image) &&
        (other != null ==> other.correctIndex == old(other.correctIndex) && other.image == old(other.image))
      ensures other != null && old(image).Some? && old(other.image).Some? ==>
        correctIndex == old(other.correctIndex) && other.correctIndex == old(correctIndex) &&
        image == old(other.image) && other.image == old(image)
    {
      if other == null || image.None? {
        return;
      }
      if other.image.None? {
        return;
      }
      var tempSprite := image.value;
      image := Some(other.image.value);
      other.image := Some(tempSprite);
      var tempCorrectIndex := correctIndex;
      correctIndex := other.correctIndex;
      other.correctIndex := tempCorrectIndex;
    }
  }

  /** Exchanging sprites twice between the same two pieces restores both pieces as they were. */
  method SwapSpriteTwiceRestores(a: PuzzlePiece, b: PuzzlePiece)
    modifies a, b
    ensures a.correctIndex == old(a.correctIndex) && b.correctIndex == old(b.correctIndex)
    ensures a.image == old(a.image) && b.image == old(b.image)
    ensures a.currentIndex == old(a.currentIndex) && b.currentIndex == old(b.currentIndex)
  {
    a.SwapSpriteWith(b);
    a.SwapSpriteWith(b);
  }
}
