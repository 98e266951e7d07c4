/**
 * Food placement (FoodGenerationService.generateFood): sample random cells until one is
 * on the grid and more than one cell away from every segment, then centre the smaller
 * food sprite inside that cell.
 *
 * java.util.Random is replaced by the sequence of values it would return, one Draw
 * (an x roll followed by a y roll) per round of the sampling loop.
 */
module FoodGeneration {
  import opened Grid

  /** A value of `ran.nextInt(SNAKE_WINDOW_WIDTH - SNAKE_BODY_SIZE)`. */
  type XRoll = r: int | 0 <= r < WIDTH - CELL

  /** A value of `ran.nextInt(SNAKE_WINDOW_HEIGHT - SNAKE_BODY_SIZE)`. */
  type YRoll = r: int | 0 <= r < HEIGHT - CELL

  /** The two rolls of one round of the sampling loop. */
  datatype Draw = Draw(rx: XRoll, ry: YRoll)

  /** How far the food sprite is pushed into its cell: (SNAKE_BODY_SIZE - FOOD_SIZE) / 2. */
  const FOOD_OFFSET: int := (CELL - FOOD_SIZE) / 2

  /** The cell one round proposes: each roll shifted past the border, so in [20, 599]. */
  function Candidate(d: Draw): (c: Cell)
    ensures CELL <= c.x < WIDTH && CELL <= c.y < HEIGHT
  {
    Cell(d.rx + CELL, d.ry + CELL)
  }

  /** c lies within one cell of segment s on both axes (the isInSnake test). */
  predicate Near(s: Cell, c: Cell)
  {
    s.x - CELL <= c.x && s.x + CELL >= c.x && s.y - CELL <= c.y && s.y + CELL >= c.y
  }

  /** No segment of the body is near c. */
  predicate Clear(body: seq<Cell>, c: Cell)
  {
    forall i :: 0 <= i < |body| ==> !Near(body[i], c)
  }

  /** The condition that ends the sampling loop. */
  predicate Accepts(body: seq<Cell>, c: Cell)
  {
    c.x % CELL == 0 && c.y % CELL == 0 && Clear(body, c)
  }

  /** The food drawn inside an accepted cell. */
  function Centred(c: Cell): Food
  {
    Food(c.x + FOOD_OFFSET, c.y + FOOD_OFFSET)
  }

  /** Index of the first accepted draw, or |draws| when none is accepted. */
  function Scan(body: seq<Cell>, draws: seq<Draw>): (n: nat)
    ensures n <= |draws|
    ensures forall j :: 0 <= j < n ==> !Accepts(body, Candidate(draws[j]))
    ensures n < |draws| ==> Accepts(body, Candidate(draws[n]))
  {
    if draws == [] then 0
    else if Accepts(body, Candidate(draws[0])) then 0
    else 1 + Scan(body, draws[1..])
  }

  /** The food generateFood returns, or None when it would still be sampling after these draws. */
  function Placement(body: seq<Cell>, draws: seq<Draw>): Option<Food>
  {
    var n := Scan(body, draws);
    if n < |draws| then Some(Centred(Candidate(draws[n]))) else None
  }

  /** How many draws generateFood consumes. */
  function DrawsUsed(body: seq<Cell>, draws: seq<Draw>): nat
  {
    var n := Scan(body, draws);
    if n < |draws| then n + 1 else |draws|
  }

  /**
   * The sampling loop. The body is only read. The starting (1, 1) is not on the
   * grid, so at least one draw is always consumed before anything is returned.
   */
  method GenerateFood(body: seq<Cell>, draws: seq<Draw>) returns (food: Option<Food>, used: nat)
    ensures used <= |draws|
    ensures used == 0 <==> draws == []
    ensures food == Placement(body, draws) && used == DrawsUsed(body, draws)
  {
    var isInSnake := false;
    var x, y := 1, 1;
    used := 0;
    while !(x % CELL == 0 && y % CELL == 0 && !isInSnake)
      invariant used <= |draws|
      invariant used == 0 ==> x == 1 && y == 1
      invariant used > 0 ==> Cell(x, y) == Candidate(draws[used - 1])
      invariant used > 0 ==> (isInSnake <==> !Clear(body, Cell(x, y)))
      invariant forall j :: 0 <= j < used - 1 ==> !Accepts(body, Candidate(draws[j]))
      decreases |draws| - used
    {
      if used == |draws| {
        // Every draw has been rejected; the source would go on sampling.
        food := None;
        return;
      }
      x := draws[used].rx + CELL;
      y := draws[used].ry + CELL;
      used := used + 1;
      isInSnake := false;
      var i := 0;
      while i < |body|
        invariant 0 <= i <= |body|
        invariant !isInSnake ==> forall k :: 0 <= k < i ==> !Near(body[k], Cell(x, y))
        invariant isInSnake ==> !Clear(body, Cell(x, y))
      {
        if body[i].x - CELL <= x && body[i].x + CELL >= x && body[i].y - CELL <= y && body[i].y + CELL >= y {
          isInSnake := true;
          break;
        }
        i := i + 1;
      }
    }
    x := x + (CELL - FOOD_SIZE) / 2;
    y := y + (CELL - FOOD_SIZE) / 2;
    food := Some(Food(x, y));
  }

  /**
   * What a placed food promises: its cell was accepted, so the food sits FOOD_OFFSET
   * into a grid cell of the inner play area, and that cell is clear of every segment.
   */
  lemma PlacementSound(body: seq<Cell>, draws: seq<Draw>)
    requires Placement(body, draws).Some?
    ensures var f := Placement(body, draws).value;
      && f.x % CELL == FOOD_OFFSET && f.y % CELL == FOOD_OFFSET
      && CELL + FOOD_OFFSET <= f.x <= WIDTH - CELL + FOOD_OFFSET
      && CELL + FOOD_OFFSET <= f.y <= HEIGHT - CELL + FOOD_OFFSET
      && Clear(body, Cell(f.x - FOOD_OFFSET, f.y - FOOD_OFFSET))
  {
    var c := Candidate(draws[Scan(body, draws)]);
    assert Accepts(body, c);
    var f := Placement(body, draws).value;
    assert f == Food(c.x + FOOD_OFFSET, c.y + FOOD_OFFSET);
  }

  /** generateFood returns nothing within these draws exactly when no draw is accepted. */
  lemma PlacementNoneIffAllRejected(body: seq<Cell>, draws: seq<Draw>)
    ensures Placement(body, draws).None?
        <==> forall j :: 0 <= j < |draws| ==> !Accepts(body, Candidate(draws[j]))
  {
    var n := Scan(body, draws);
    if n < |draws| {
      assert Accepts(body, Candidate(draws[n]));
    }
  }
}
