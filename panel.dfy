/**
 * The game panel (SnakeGamePanel of both packages): the session state, resetGame, the
 * menu key listener, one tick of SnakeMove.run and the loop that repeats it, and the
 * arrow-key handler KeyControl.
 */
module Panel {
  import opened Grid
  import opened Body
  import opened FoodGeneration
  import opened Movement
  import opened Controls
  import opened Session

  class GamePanel {
    /** The panel's menu characters (the only difference between the two panels). */
    const keys: MenuKeys

    var snake: Snake
    var food: Food
    var counter: int
    var gameOver: bool
    var gameState: GameState
    var actDir: Direction

    /** The values java.util.Random will still return to generateFood. */
    var rng: seq<Draw>

    /**
     * The panel's invariant: the body never has fewer than the four initial segments,
     * and every segment is on the grid.
     */
    ghost predicate Valid()
      reads this`snake, snake`segments
    {
      |snake.segments| >= 4 && OnGridBody(snake.segments)
    }

    /** The game data as a value, the state the functions of Session work on. */
    function State(): World
      reads this`snake, this`food, this`counter, this`rng, snake`segments
      requires |snake.segments| >= 2
    {
      World(snake.segments, food, counter, rng)
    }

    /**
     * A new panel is in the main menu. Snake and food only exist from the first
     * session on; until then the model holds a fresh snake and a food at (0, 0).
     */
    constructor (keys: MenuKeys, rng: seq<Draw>)
      ensures Valid() && fresh(snake)
      ensures this.keys == keys && this.rng == rng
      ensures gameState == MainMenu
    {
      this.keys := keys;
      this.rng := rng;
      snake := new Snake();
      food := Food(0, 0);
      counter := 0;
      gameOver := false;
      gameState := MainMenu;
      actDir := Right;
    }

    /**
     * resetGame: score 0, not over, a fresh four-segment snake facing RIGHT, and food
     * from generateFood. `stalled` says that generateFood found no cell among the draws
     * left; the food is then unchanged.
     */
    method ResetGame() returns (stalled: bool)
      modifies this
      ensures Valid() && fresh(snake) && snake.segments == InitialLayout()
      ensures !gameOver && counter == 0 && actDir == Right
      ensures stalled == Placement(InitialLayout(), old(rng)).None?
      ensures food == (if stalled then old(food) else Placement(InitialLayout(), old(rng)).value)
      ensures rng == old(rng)[DrawsUsed(InitialLayout(), old(rng))..]
      ensures gameState == old(gameState)
    {
      gameOver := false;
      counter := 0;
      snake := new Snake();
      var f, used := GenerateFood(snake.segments, rng);
      rng := rng[used..];
      stalled := f.None?;
      if f.Some? {
        food := f.value;
      }
      actDir := Right;
    }

    /**
     * The menu key listener. During a session every key is ignored; after a session
     * only the back key is handled. Starting a session resets the game; the tick loop
     * it launches is Run, and the high-score dialogs and exit are left to the caller.
     */
    method MenuKeyPressed(ch: char) returns (action: MenuAction, stalled: bool)
      requires Valid()
      modifies this
      ensures Valid()
      ensures action == MenuResponse(keys, old(gameState), ch)
      ensures gameState == MenuNext(old(gameState), action)
      ensures action == StartSession ==>
        && fresh(snake) && snake.segments == InitialLayout()
        && !gameOver && counter == 0 && actDir == Right
        && stalled == Placement(InitialLayout(), old(rng)).None?
        && food == (if stalled then old(food) else Placement(InitialLayout(), old(rng)).value)
        && rng == old(rng)[DrawsUsed(InitialLayout(), old(rng))..]
      ensures action != StartSession ==>
        && !stalled && snake == old(snake) && food == old(food) && rng == old(rng)
        && counter == old(counter) && gameOver == old(gameOver) && actDir == old(actDir)
    {
      stalled := false;
      if gameState == Started {
        return Ignored, stalled;
      }
      if gameState == Finished && ch != keys.back {
        return Ignored, stalled;
      }
      if ch == '1' {
        gameState := Started;
        stalled := ResetGame();
        action := StartSession;
      } else if ch == '2' {
        action := ShowHighScores;
      } else if ch == keys.back {
        gameState := MainMenu;
        action := BackToMenu;
      } else if ch == keys.exit {
        action := Exit;
      } else {
        action := Ignored;
      }
    }

    /**
     * The shift loop of a tick: every segment before the head takes its successor's
     * coordinates; the head itself is not touched yet.
     */
    method ShiftBody()
      requires Valid()
      modifies snake
      ensures Valid()
      ensures |snake.segments| == old(|snake.segments|)
      ensures forall k :: 0 <= k < |snake.segments| - 1 ==> snake.segments[k] == old(snake.segments[k + 1])
      ensures Last(snake.segments) == Last(old(snake.segments))
    {
      var headIndex := snake.HeadIndex();
      ghost var before := snake.segments;
      var i := 0;
      while i < headIndex
        invariant 0 <= i <= headIndex
        invariant |snake.segments| == |before|
        invariant forall k :: 0 <= k < i ==> snake.segments[k] == before[k + 1]
        invariant forall k :: i <= k < |before| ==> snake.segments[k] == before[k]
      {
        snake.segments := snake.segments[i := snake.segments[i + 1]];
        i := i + 1;
      }
    }

    /**
     * One pass of the tick loop's body: shift the body, move the head along actDir,
     * look for a self-collision, then eat if the head's box covers the food (growing a
     * new tail and placing new food). The eating test runs even after a collision.
     */
    method Tick() returns (rolledIn: bool, stalled: bool)
      requires Valid()
      modifies this, snake
      ensures Valid() && snake == old(snake)
      ensures actDir == old(actDir) && gameState == old(gameState) && gameOver == old(gameOver)
      ensures TickW(old(State()), actDir) == Ticked(State(), rolledIn, stalled)
    {
      ghost var moved := Advanced(snake.segments, actDir);
      Advance();
      var head := snake.Head();
      rolledIn := ScanForCollision(snake.segments);
      stalled := false;
      if head.x <= food.x && head.x + CELL >= food.x && head.y <= food.y && head.y + CELL >= food.y {
        assert Covers(Last(moved), food);
        stalled := Feed();
      } else {
        assert !Covers(Last(moved), food);
      }
    }

    /** The shift loop followed by the head's move one cell along actDir. */
    method Advance()
      requires Valid()
      modifies snake
      ensures Valid()
      ensures snake.segments == Advanced(old(snake.segments), actDir)
    {
      ghost var before := snake.segments;
      ShiftBody();
      var headIndex := snake.HeadIndex();
      var head := snake.Head();
      match actDir {
        case Right => head := Cell(head.x + CELL, head.y);
        case Left => head := Cell(head.x - CELL, head.y);
        case Up => head := Cell(head.x, head.y - CELL);
        case Down => head := Cell(head.x, head.y + CELL);
      }
      snake.segments := snake.segments[headIndex := head];
      ghost var moved := Advanced(before, actDir);
      assert head == Step(Last(before), actDir);
      assert forall k :: 0 <= k < |moved| ==> snake.segments[k] == moved[k];
      TickKeepsGrid(before, actDir);
    }

    /**
     * The eating branch of a tick: the score rises by one, a new tail goes in front of
     * the old one, and generateFood places the next food for the grown body.
     */
    method Feed() returns (stalled: bool)
      requires Valid()
      modifies this, snake
      ensures Valid() && snake == old(snake)
      ensures actDir == old(actDir) && gameState == old(gameState) && gameOver == old(gameOver)
      ensures counter == old(counter) + 1
      ensures snake.segments == WithTail(old(snake.segments), NewTail(old(snake.segments)))
      ensures stalled == Placement(snake.segments, old(rng)).None?
      ensures food == (if stalled then old(food) else Placement(snake.segments, old(rng)).value)
      ensures rng == old(rng)[DrawsUsed(snake.segments, old(rng))..]
    {
      ghost var body := snake.segments;
      counter := counter + 1;
      var s0, s1 := snake.segments[0], snake.segments[1];
      var tailX := if s0.x == s1.x then s0.x else s0.x - CELL;
      var tailY := if s0.x == s1.x then s0.y - CELL else s0.y;
      assert Cell(tailX, tailY) == NewTail(body);
      snake.AddTail(tailX, tailY);
      assert snake.segments == WithTail(body, NewTail(body));
      GrowthKeepsGrid(body);
      var f, used := GenerateFood(snake.segments, rng);
      rng := rng[used..];
      stalled := f.None?;
      if f.Some? {
        food := f.value;
      }
    }

    /**
     * One pass of the loop body, from a head inside the window with `left` ticks of
     * fuel: what RunW still has to do before the tick is what Resumed has to do after it.
     */
    method RunTick(ghost left: nat) returns (rolledIn: bool, stalled: bool)
      requires Valid() && InBounds(Last(snake.segments)) && left > 0
      modifies this, snake
      ensures Valid() && snake == old(snake)
      ensures actDir == old(actDir) && gameState == old(gameState) && gameOver == old(gameOver)
      ensures RunW(old(State()), TickOf(actDir), left) == Resumed(State(), TickOf(actDir), left - 1, rolledIn, stalled)
    {
      RunStep(State(), TickOf(actDir), left);
      rolledIn, stalled := Tick();
    }

    /**
     * The loop of SnakeMove.run, ticking while the head is inside the window and the last
     * tick found no collision, with at most maxTicks ticks and stopping early when
     * generateFood stalls. When it stops, what RunW still has to do is what Resumed says.
     */
    method TickLoop(maxTicks: nat) returns (rolledIn: bool, stalled: bool, ticks: nat)
      requires Valid()
      modifies this, snake
      ensures Valid() && snake == old(snake) && actDir == old(actDir)
      ensures gameOver == old(gameOver) && gameState == old(gameState)
      ensures ticks <= maxTicks
      ensures RunW(old(State()), TickOf(actDir), maxTicks) == Resumed(State(), TickOf(actDir), maxTicks - ticks, rolledIn, stalled)
      ensures !InBounds(Last(snake.segments)) || rolledIn || stalled || ticks == maxTicks
    {
      rolledIn, stalled := false, false;
      ticks := 0;
      while InBounds(snake.Head()) && !rolledIn && !stalled && ticks < maxTicks
        invariant Valid() && snake == old(snake) && actDir == old(actDir)
        invariant gameOver == old(gameOver) && gameState == old(gameState)
        invariant ticks <= maxTicks
        invariant RunW(old(State()), TickOf(actDir), maxTicks) == Resumed(State(), TickOf(actDir), maxTicks - ticks, rolledIn, stalled)
        decreases maxTicks - ticks
      {
        rolledIn, stalled := RunTick(maxTicks - ticks);
        ticks := ticks + 1;
      }
    }

    /**
     * SnakeMove.run: tick while the head is inside the window and the last tick found
     * no collision; then the session is over and the state is FINISHED. The budget
     * maxTicks bounds how many ticks the model follows; actDir is the direction held
     * throughout (presses between ticks are KeyControl.KeyPressed calls). Outcome and
     * final state are those of RunW with the tick in direction actDir.
     */
    method Run(maxTicks: nat) returns (outcome: RunOutcome)
      requires Valid()
      modifies this, snake
      ensures Valid() && snake == old(snake) && actDir == old(actDir)
      ensures RunW(old(State()), TickOf(actDir), maxTicks) == RunResult(outcome, State())
      ensures outcome == Over ==> gameOver && gameState == Finished
      ensures outcome != Over ==> gameOver == old(gameOver) && gameState == old(gameState)
    {
      var rolledIn, stalled, ticks := TickLoop(maxTicks);
      if stalled {
        outcome := Stalled;
      } else if rolledIn || !InBounds(snake.Head()) {
        gameOver := true;
        gameState := Finished;
        outcome := Over;
      } else {
        outcome := StillRunning;
      }
    }
  }

  /** The arrow-key handler, with the time of the last press it handled. */
  class KeyControl {
    const panel: GamePanel
    var lastPressProcessed: int

    constructor (panel: GamePanel)
      ensures this.panel == panel && lastPressProcessed == 0
    {
      this.panel := panel;
      lastPressProcessed := 0;
    }

    /**
     * A press at time `now` (ms) is handled only when Debounced; a handled press sets
     * actDir by the direction rule and records `now`, whatever key it was.
     */
    method KeyPressed(keyCode: int, now: int)
      modifies this, panel`actDir
      ensures if Debounced(old(lastPressProcessed), now) then
          panel.actDir == Steer(old(panel.actDir), keyCode) && lastPressProcessed == now
        else
          panel.actDir == old(panel.actDir) && lastPressProcessed == old(lastPressProcessed)
    {
      if (now - lastPressProcessed) * 100 > DELAY * 112 {
        if keyCode == VK_UP {
          if panel.actDir != Down {
            panel.actDir := Up;
          }
        } else if keyCode == VK_DOWN {
          if panel.actDir != Up {
            panel.actDir := Down;
          }
        } else if keyCode == VK_LEFT {
          if panel.actDir != Right {
            panel.actDir := Left;
          }
        } else if keyCode == VK_RIGHT {
          if panel.actDir != Left {
            panel.actDir := Right;
          }
        }
        lastPressProcessed := now;
      }
    }
  }
}
