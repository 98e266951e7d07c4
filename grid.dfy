/**
 * The play field shared by both game panels: its constants, a grid cell, the food,
 * the four directions and the three menu states.
 */
module Grid {

  /** Side of one body segment and of one grid step (Snake.SNAKE_BODY_SIZE). */
  const CELL: int := 20

  /** Size of the window (SNAKE_WINDOW_WIDTH, SNAKE_WINDOW_HEIGHT). */
  const WIDTH: int := 600
  const HEIGHT: int := 600

  /** Size of the drawn food (Food.FOOD_SIZE = 3 * SNAKE_BODY_SIZE / 4). */
  const FOOD_SIZE: int := 3 * CELL / 4

  /** Milliseconds between two ticks (SnakeGamePanel.DELAY). */
  const DELAY: int := 60

  /** The top-left corner of one body segment (Snake.SnakeBody). */
  datatype Cell = Cell(x: int, y: int)

  /** The top-left corner of the food sprite (Food). */
  datatype Food = Food(x: int, y: int)

  /** SnakeGamePanel.DIRECTION, in its declaration order. */
  datatype Direction = Down | Left | Right | Up

  /** GameState. */
  datatype GameState = MainMenu | Started | Finished

  datatype Option<T> = None | Some(value: T)

  /** The direction a key press may never switch to: the reverse of the current one. */
  function Opposite(d: Direction): (r: Direction)
    ensures r != d
  {
    match d
    case Down => Up
    case Up => Down
    case Left => Right
    case Right => Left
  }

  /** The window, [0, WIDTH) x [0, HEIGHT), that the head must stay in. */
  predicate InBounds(c: Cell)
  {
    0 <= c.x < WIDTH && 0 <= c.y < HEIGHT
  }

  /** Both coordinates are multiples of the cell size. */
  predicate OnGrid(c: Cell)
  {
    c.x % CELL == 0 && c.y % CELL == 0
  }
}
