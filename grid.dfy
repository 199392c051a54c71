/**
 * The grid builder (Assets/Scripts/Puzzle/PuzzleGrid.cs): one piece per cell, laid out row-major,
 * each showing the sub-rectangle of the photo's texture that belongs to its cell.
 */
module Grid {

  import opened Wrappers
  import opened Engine
  import opened Pieces

  /** The row-major slot of cell (x, y) in a grid `width` cells wide. */
  function CellIndex(width: int, x: int, y: int): int
  {
    y * width + x
  }

  /** Every cell of a width-by-height grid has a slot in [0, width * height). */
  lemma CellIndexInRange(width: int, height: int, x: int, y: int)
    requires 0 <= x < width && 0 <= y < height
    ensures 0 <= CellIndex(width, x, y) < width * height
  {
    assert y * width + x < (y + 1) * width;
    assert (y + 1) * width <= height * width by {
      MultiplyMonotone(y + 1, height, width);
    }
  }

  /** The slot gives back its cell: column is the remainder and row the quotient by the width. */
  lemma CellIndexDecomposes(width: int, x: int, y: int)
    requires 0 <= x < width && 0 <= y
    ensures CellIndex(width, x, y) / width == y && CellIndex(width, x, y) % width == x
  {
    var i := CellIndex(width, x, y);
    var q, r := i / width, i % width;
    assert i == q * width + r && 0 <= r < width;
    assert (q - y) * width == x - r;
    if q > y {
      MultiplyMonotone(1, q - y, width);
      assert false;
    } else if q < y {
      MultiplyMonotone(1, y - q, width);
      assert false;
    }
  }

  /** Distinct cells get distinct slots. */
  lemma CellIndexInjective(width: int, x1: int, y1: int, x2: int, y2: int)
    requires 0 <= x1 < width && 0 <= y1 && 0 <= x2 < width && 0 <= y2
    requires (x1, y1) != (x2, y2)
    ensures CellIndex(width, x1, y1) != CellIndex(width, x2, y2)
  {
    CellIndexDecomposes(width, x1, y1);
    CellIndexDecomposes(width, x2, y2);
  }

  lemma MultiplyMonotone(a: int, b: int, c: int)
    requires a <= b && 0 <= c
    ensures a * c <= b * c
  {
    assert b * c - a * c == (b - a) * c;
  }

  /**
   * The texture rectangle of cell (x, y): pieces are texWidth / width by texHeight / height
   * pixels (integer division), and rows are flipped so that row 0 is cut from the top strip.
   */
  function PieceRect(texWidth: nat, texHeight: nat, width: int, height: int, x: int, y: int): Rect
    requires width != 0 && height != 0
  {
    var pieceWidth, pieceHeight := texWidth / width, texHeight / height;
    Rect(x * pieceWidth, (height - 1 - y) * pieceHeight, pieceWidth, pieceHeight)
  }

  /** Every piece's rectangle lies inside the texture. */
  lemma PieceRectInsideTexture(texWidth: nat, texHeight: nat, width: int, height: int, x: int, y: int)
    requires width > 0 && height > 0
    requires 0 <= x < width && 0 <= y < height
    ensures var r := PieceRect(texWidth, texHeight, width, height, x, y);
      0 <= r.x && r.x + r.width <= texWidth && 0 <= r.y && r.y + r.height <= texHeight
  {
    var pw, ph := texWidth / width, texHeight / height;
    assert x * pw + pw == (x + 1) * pw;
    MultiplyMonotone(x + 1, width, pw);
    assert width * pw <= texWidth;
    assert (height - 1 - y) * ph + ph == (height - y) * ph;
    MultiplyMonotone(height - y, height, ph);
    assert height * ph <= texHeight;
    MultiplyMonotone(0, x, pw);
    MultiplyMonotone(0, height - 1 - y, ph);
  }

  /**
   * The rectangles tile the texture from its top-left corner: row 0 is the topmost strip of the
   * height * pieceHeight pixels used, each row sits directly above the next one, and each column
   * directly left of the next one.
   */
  lemma PieceRectsTile(texWidth: nat, texHeight: nat, width: int, height: int, x: int, y: int)
    requires width > 0 && height > 0
    requires 0 <= x && x + 1 < width && 0 <= y && y + 1 < height
    ensures var r := PieceRect(texWidth, texHeight, width, height, x, 0);
      r.y + r.height == height * (texHeight / height)
    ensures PieceRect(texWidth, texHeight, width, height, x, y).y ==
      PieceRect(texWidth, texHeight, width, height, x, y + 1).y + texHeight / height
    ensures PieceRect(texWidth, texHeight, width, height, x + 1, y).x ==
      PieceRect(texWidth, texHeight, width, height, x, y).x + texWidth / width
  {
    var pw, ph := texWidth / width, texHeight / height;
    assert (height - 1) * ph + ph == height * ph;
    assert (height - 1 - y) * ph == (height - 1 - (y + 1)) * ph + ph;
    assert (x + 1) * pw == x * pw + pw;
  }

  /** The image a new piece gets for slot i: the prefab's image component showing cell i's rectangle. */
  function CellImage(fullImage: Sprite, prefab: Prefab, width: int, height: int, i: int): Option<Rect>
    requires width != 0 && height != 0
  {
    if prefab.image.None? then None
    else Some(PieceRect(fullImage.textureWidth, fullImage.textureHeight, width, height, i % width, i / width))
  }

  /** The positions 0, 1, ..., n - 1 in order: the solved arrangement of an n-piece grid. */
  function Identity(n: nat): (s: seq<int>)
    ensures |s| == n && forall i :: 0 <= i < n ==> s[i] == i
  {
    seq(n, i => i)
  }

  /** Every slot holds its own index: the solved arrangement. */
  predicate IsSolved(a: seq<int>)
  {
    forall i :: 0 <= i < |a| ==> a[i] == i
  }

  /** The solved arrangement of each length is unique. */
  lemma SolvedIsIdentity(a: seq<int>)
    requires IsSolved(a)
    ensures a == Identity(|a|)
  {
  }

  /** `s` holds each of 0, ..., |s| - 1 exactly once. */
  predicate IsPermutationOfRange(s: seq<int>)
  {
    (forall i :: 0 <= i < |s| ==> 0 <= s[i] < |s|) &&
    (forall i, j :: 0 <= i < j < |s| ==> s[i] != s[j])
  }

  /** The correct indices of the pieces, in list order. */
  ghost function CorrectIndices(ps: seq<PuzzlePiece>): (a: seq<int>)
    reads ps`correctIndex
    ensures |a| == |ps| && forall i :: 0 <= i < |ps| ==> a[i] == ps[i].correctIndex
    decreases |ps|
  {
    if |ps| == 0 then [] else CorrectIndices(ps[..|ps| - 1]) + [ps[|ps| - 1].correctIndex]
  }

  class PuzzleGrid {
    /** The pieces in slot order. */
    var pieces: seq<PuzzlePiece>

    constructor ()
      ensures pieces == []
    {
      pieces := [];
    }

    /** The pieces the grid holds, whatever their slots. */
    ghost function PieceSet(): set<PuzzlePiece>
      reads this
    {
      set p | p in pieces
    }

    /** Which piece belongs in each slot: the correct index of the piece held by slot i. */
    ghost function Arrangement(): (a: seq<int>)
      reads this, pieces`correctIndex
    {
      CorrectIndices(pieces)
    }

    /**
     * The grid's invariant: the piece at slot i knows it is at slot i (so no piece sits in two
     * slots), and the correct indices are a permutation of [0, N).
     */
    ghost predicate Consistent()
      reads this, pieces`currentIndex, pieces`correctIndex
    {
      (forall i :: 0 <= i < |pieces| ==> pieces[i].currentIndex == i) &&
      IsPermutationOfRange(Arrangement())
    }

    /**
     * The list holds exactly the pieces of the first n cells in row-major order: the one at
     * slot i with both indices i and the image of cell i.
     */
    ghost predicate HoldsFirstCells(n: int, width: int, height: int, fullImage: Sprite, prefab: Prefab)
      requires width != 0 && height != 0
      reads this, pieces
    {
      |pieces| == n &&
      (forall i :: 0 <= i < |pieces| ==>
        pieces[i].currentIndex == i && pieces[i].correctIndex == i &&
        pieces[i].image == CellImage(fullImage, prefab, width, height, i))
    }

    /**
     * Builds a fresh grid: the old pieces are dropped, then one new piece per cell (x, y) is
     * added in row-major order, with both indices set to its slot y * width + x and its image
     * cut from the photo's texture. A prefab without a piece component yields no pieces.
     */
    method CreateGrid(width: int, height: int, fullImage: Sprite, prefab: Prefab)
      requires width != 0 && height != 0
      modifies this
      ensures forall i :: 0 <= i < |pieces| ==> fresh(pieces[i])
      ensures |pieces| == if prefab.hasPiece && width > 0 && height > 0 then width * height else 0
      ensures forall i :: 0 <= i < |pieces| ==> pieces[i].currentIndex == i && pieces[i].correctIndex == i
      ensures forall i :: 0 <= i < |pieces| ==> pieces[i].image == CellImage(fullImage, prefab, width, height, i)
      ensures Consistent() && IsSolved(Arrangement())
    {
      ClearGrid();
      var y := 0;
      while y < height
        invariant 0 <= y && (if height > 0 then y <= height else y == 0)
        invariant forall i :: 0 <= i < |pieces| ==> fresh(pieces[i])
        invariant HoldsFirstCells(if prefab.hasPiece && width > 0 then y * width else 0, width, height, fullImage, prefab)
      {
        var x := 0;
        while x < width
          invariant 0 <= x && (if width > 0 then x <= width else x == 0)
          invariant forall i :: 0 <= i < |pieces| ==> fresh(pieces[i])
          invariant HoldsFirstCells(if prefab.hasPiece && width > 0 then y * width + x else 0, width, height, fullImage, prefab)
        {
          var index := CellIndex(width, x, y);
          CellIndexDecomposes(width, x, y);
          var rect := PieceRect(fullImage.textureWidth, fullImage.textureHeight, width, height, x, y);
          if prefab.hasPiece {
            var piece := new PuzzlePiece(prefab.image);
            piece.Initialize(rect, index, index);
            pieces := pieces + [piece];
          }
          x := x + 1;
        }
        y := y + 1;
      }
      if height > 0 {
        assert y == height && y * width == width * height;
      } else {
        assert y == 0;
      }
    }

    /** Drops every piece. */
    method ClearGrid()
      modifies this
      ensures pieces == []
    {
      pieces := [];
    }

    /** The piece at a slot, or null when the slot is outside the grid. */
    function GetPieceAtIndex(index: int): (p: PuzzlePiece?)
      reads this
      ensures p != null <==> 0 <= index < |pieces|
      ensures p != null ==> p == pieces[index]
    {
      if 0 <= index < |pieces| then pieces[index] else null
    }
  }

  /** On a consistent grid no piece occupies two slots. */
  lemma ConsistentPiecesDistinct(g: PuzzleGrid, i: int, j: int)
    requires g.Consistent() && 0 <= i < j < |g.pieces|
    ensures g.pieces[i] != g.pieces[j]
  {
  }

  /**
   * On a consistent grid the lookup by slot finds the piece whose current index is that slot,
   * and when the lookup finds nothing no piece claims that slot.
   */
  lemma PieceAtIndexIsAtIndex(g: PuzzleGrid, index: int)
    requires g.Consistent()
    ensures var p := g.GetPieceAtIndex(index);
      (p != null ==> p.currentIndex == index) &&
      (p == null ==> forall q :: q in g.pieces ==> q.currentIndex != index)
  {
  }
}
