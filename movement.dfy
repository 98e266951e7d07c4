/**
 * What one tick of SnakeMove.run does to the body, as functions: the shift, the head's
 * step, the self-collision test, the eating test and the position of a new tail.
 * Both panels run the same tick; the GamePanel class performs it in place.
 */
module Movement {
  import opened Grid
  import opened Body
  import opened FoodGeneration

  /** The cell one step from c in direction d (RIGHT +x, LEFT -x, UP -y, DOWN +y). */
  function Step(c: Cell, d: Direction): Cell
  {
    match d
    case Right => Cell(c.x + CELL, c.y)
    case Left => Cell(c.x - CELL, c.y)
    case Up => Cell(c.x, c.y - CELL)
    case Down => Cell(c.x, c.y + CELL)
  }

  /** The cell n steps from c in direction d, by the axis d moves along. */
  function Ahead(c: Cell, d: Direction, n: int): Cell
  {
    if d == Right || d == Left then
      Cell(c.x + (if d == Right then n else -n) * CELL, c.y)
    else
      Cell(c.x, c.y + (if d == Down then n else -n) * CELL)
  }

  /**
   * The body after the shift loop and the head's move: every segment before the head
   * takes its successor's old cell, the head moves one cell along d, and the length is kept.
   */
  function Advanced(s: seq<Cell>, d: Direction): (r: seq<Cell>)
    requires |s| > 0
    ensures |r| == |s|
    ensures forall i :: 0 <= i < |s| - 1 ==> r[i] == s[i + 1]
    ensures Last(r) == Ahead(Last(s), d, 1)
    ensures Last(r) != Last(s) && Last(r) != Ahead(Last(s), Opposite(d), 1)
  {
    s[1..] + [Step(Last(s), d)]
  }

  /** The head shares its cell with some segment before it (the rolledIn test). */
  predicate SelfHit(s: seq<Cell>)
    requires |s| > 0
  {
    exists k :: 0 <= k < |s| - 1 && s[k] == Last(s)
  }

  /** The eating test: the food's corner lies in the head's closed cell box. */
  predicate Covers(head: Cell, f: Food)
  {
    head.x <= f.x && head.x + CELL >= f.x && head.y <= f.y && head.y + CELL >= f.y
  }

  /**
   * The new tail added on eating. When the first two segments share a column it goes
   * one cell above the old tail, otherwise one cell to its left; so the old tail is one
   * step DOWN, or one step RIGHT, from the new one, whichever way the tail end runs.
   */
  function NewTail(s: seq<Cell>): (t: Cell)
    requires |s| >= 2
    ensures s[0].x == s[1].x ==> Step(t, Down) == s[0]
    ensures s[0].x != s[1].x ==> Step(t, Right) == s[0]
  {
    if s[0].x == s[1].x then Cell(s[0].x, s[0].y - CELL) else Cell(s[0].x - CELL, s[0].y)
  }

  /**
   * The collision loop of a tick: compares the head with each segment before it and
   * stops at the first match.
   */
  method ScanForCollision(s: seq<Cell>) returns (rolledIn: bool)
    requires |s| > 0
    ensures rolledIn <==> SelfHit(s)
  {
    var head := Last(s);
    rolledIn := false;
    var i := 0;
    while i < |s| - 1
      invariant 0 <= i <= |s| - 1
      invariant !rolledIn ==> forall k :: 0 <= k < i ==> s[k] != head
      invariant rolledIn ==> SelfHit(s)
    {
      if head.x == s[i].x && head.y == s[i].y {
        rolledIn := true;
        break;
      }
      i := i + 1;
    }
  }

  /** n ticks in direction d with nothing eaten. */
  function AdvancedN(s: seq<Cell>, d: Direction, n: nat): seq<Cell>
    requires |s| > 0
    decreases n
  {
    if n == 0 then s else AdvancedN(Advanced(s, d), d, n - 1)
  }

  /**
   * After n ticks without food and without a turn, the length is unchanged and the
   * head is exactly n cells further along d.
   */
  lemma {:induction false} StraightRun(s: seq<Cell>, d: Direction, n: nat)
    requires |s| > 0
    ensures |AdvancedN(s, d, n)| == |s|
    ensures Last(AdvancedN(s, d, n)) == Ahead(Last(s), d, n)
    decreases n
  {
    if n > 0 {
      var s' := Advanced(s, d);
      StraightRun(s', d, n - 1);
      assert Last(AdvancedN(s', d, n - 1)) == Ahead(Last(s'), d, n - 1);
    }
  }

  /** A hit found before the tail grows is still a hit afterwards. */
  lemma SelfHitKeptByGrowth(s: seq<Cell>, t: Cell)
    requires |s| > 0 && SelfHit(s)
    ensures SelfHit(WithTail(s, t))
  {
    var k :| 0 <= k < |s| - 1 && s[k] == Last(s);
    assert WithTail(s, t)[k + 1] == s[k];
  }

  /** Every segment of the body is on the grid. */
  predicate OnGridBody(s: seq<Cell>)
  {
    forall i :: 0 <= i < |s| ==> OnGrid(s[i])
  }

  /** A body on the grid stays on the grid through the shift and the head's move. */
  lemma TickKeepsGrid(s: seq<Cell>, d: Direction)
    requires |s| > 0 && OnGridBody(s)
    ensures OnGridBody(Advanced(s, d))
  {
    var m := Advanced(s, d);
    assert OnGrid(Last(m)) by {
      assert OnGrid(Last(s));
    }
    forall i | 0 <= i < |s|
      ensures OnGrid(m[i])
    {
      if i < |s| - 1 {
        assert m[i] == s[i + 1];
      }
    }
  }

  /** A body on the grid stays on the grid when it grows a new tail. */
  lemma GrowthKeepsGrid(s: seq<Cell>)
    requires |s| >= 2 && OnGridBody(s)
    ensures OnGridBody(WithTail(s, NewTail(s)))
  {
    var g := WithTail(s, NewTail(s));
    assert OnGrid(NewTail(s)) by {
      assert OnGrid(s[0]);
    }
    forall i | 0 <= i < |g|
      ensures OnGrid(g[i])
    {
      if i > 0 {
        assert g[i] == s[i - 1];
      }
    }
  }

  /**
   * For a head on the grid and a food placed by generateFood (FOOD_OFFSET into a cell),
   * the eating test holds exactly when the food lies in the head's own cell.
   */
  lemma {:induction false} CoversOnGrid(head: Cell, f: Food)
    requires OnGrid(head)
    requires f.x % CELL == FOOD_OFFSET && f.y % CELL == FOOD_OFFSET
    ensures Covers(head, f) <==> f == Centred(head)
  {
    var a, b := head.x / CELL, f.x / CELL;
    assert head.x == a * CELL && f.x == b * CELL + FOOD_OFFSET;
    var c, e := head.y / CELL, f.y / CELL;
    assert head.y == c * CELL && f.y == e * CELL + FOOD_OFFSET;
    if Covers(head, f) {
      assert a <= b < a + 1;
      assert c <= e < c + 1;
    }
  }

  /** No segment of the body that generateFood was given can eat the food it places. */
  lemma PlacedFoodNotCovered(body: seq<Cell>, draws: seq<Draw>)
    requires Placement(body, draws).Some?
    ensures forall i :: 0 <= i < |body| ==> !Covers(body[i], Placement(body, draws).value)
  {
    PlacementSound(body, draws);
    var f := Placement(body, draws).value;
    forall i | 0 <= i < |body|
      ensures !Covers(body[i], f)
    {
      assert !Near(body[i], Cell(f.x - FOOD_OFFSET, f.y - FOOD_OFFSET));
    }
  }

  /**
   * The tail rule ignores which way the tail end runs: the new tail lands on the second
   * segment's cell exactly when the second segment is one step LEFT or one step UP
   * from the tail.
   */
  lemma NewTailOnSecondSegment(s: seq<Cell>)
    requires |s| >= 2
    ensures NewTail(s) == s[1] <==> s[1] == Step(s[0], Left) || s[1] == Step(s[0], Up)
  {
  }
}
