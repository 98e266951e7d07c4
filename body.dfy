/**
 * The snake container (Snake.java): an ordered list of segments whose first element is
 * the tail and whose last element is the head.
 */
module Body {
  import opened Grid

  /** The last element of a body: the head. */
  function Last(s: seq<Cell>): Cell
    requires |s| > 0
  {
    s[|s| - 1]
  }

  /**
   * The body that `new Snake()` lays out: four cells on row 3, segment i at
   * column i + 1, so the tail is at (20, 60) and the head at (80, 60).
   */
  function InitialLayout(): (s: seq<Cell>)
    ensures |s| == 4
    ensures forall i :: 0 <= i < |s| ==> s[i] == Cell((i + 1) * CELL, 3 * CELL)
    ensures Last(s) == Cell(4 * CELL, 3 * CELL)
    ensures forall i, j :: 0 <= i < j < |s| ==> s[i] != s[j]
    ensures forall i :: 0 <= i < |s| ==> OnGrid(s[i]) && InBounds(s[i])
  {
    [Cell(20, 60), Cell(40, 60), Cell(60, 60), Cell(80, 60)]
  }

  /**
   * The body after `addTail(c.x, c.y)`: c is the new tail, every former segment
   * keeps its coordinates one index further on, and the head is the same.
   */
  function WithTail(s: seq<Cell>, c: Cell): (r: seq<Cell>)
    ensures |r| == |s| + 1 && r[0] == c
    ensures forall i :: 0 <= i < |s| ==> r[i + 1] == s[i]
    ensures |s| > 0 ==> Last(r) == Last(s)
  {
    [c] + s
  }

  class Snake {
    /** The segments, tail first. */
    var segments: seq<Cell>

    constructor ()
      ensures segments == InitialLayout()
    {
      segments := [];
      new;
      var i := 0;
      while i < 4
        invariant 0 <= i <= 4
        invariant segments == InitialLayout()[..i]
      {
        segments := segments + [Cell((i + 1) * CELL, 3 * CELL)];
        i := i + 1;
      }
    }

    /** Index of the head: the last index, or -1 for an empty list. */
    function HeadIndex(): (h: int)
      reads this
      ensures h + 1 == |segments|
    {
      |segments| - 1
    }

    /** The head: the segment at HeadIndex(). */
    function Head(): (c: Cell)
      reads this
      requires |segments| > 0
      ensures 0 <= HeadIndex() && c == segments[HeadIndex()]
    {
      Last(segments)
    }

    /** Inserts a segment at (x, y) in front of the tail. */
    method AddTail(x: int, y: int)
      modifies this
      ensures segments == WithTail(old(segments), Cell(x, y))
    {
      segments := [Cell(x, y)] + segments;
    }
  }
}
