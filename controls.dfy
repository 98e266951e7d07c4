/**
 * The input rules of both panels: the arrow-key direction rule with its debounce
 * (KeyControl.keyPressed) and the menu key dispatch of the frame's key listener.
 */
module Controls {
  import opened Grid

  /** java.awt.event.KeyEvent key codes of the arrow keys. */
  const VK_LEFT: int := 37
  const VK_UP: int := 38
  const VK_RIGHT: int := 39
  const VK_DOWN: int := 40

  /** The direction an arrow key asks for; None for every other key. */
  function KeyDirection(keyCode: int): Option<Direction>
  {
    if keyCode == VK_UP then Some(Up)
    else if keyCode == VK_DOWN then Some(Down)
    else if keyCode == VK_LEFT then Some(Left)
    else if keyCode == VK_RIGHT then Some(Right)
    else None
  }

  /**
   * A press is handled only when more than DELAY * 1.12 = 67.2 ms have passed since the
   * last handled press; the double comparison is written over integers.
   */
  function Debounced(lastPressProcessed: int, now: int): (b: bool)
    ensures b <==> now - lastPressProcessed >= 68
  {
    (now - lastPressProcessed) * 100 > DELAY * 112
  }

  /**
   * actDir after a handled press: the arrow's direction, unless it is the reverse of
   * the current one; any other key, or a reversing arrow, leaves it as it was.
   */
  function Steer(actDir: Direction, keyCode: int): (r: Direction)
    ensures r != Opposite(actDir)
    ensures KeyDirection(keyCode).Some? && KeyDirection(keyCode).value != Opposite(actDir)
        ==> r == KeyDirection(keyCode).value
    ensures KeyDirection(keyCode).None? || KeyDirection(keyCode).value == Opposite(actDir)
        ==> r == actDir
  {
    if keyCode == VK_UP then (if actDir != Down then Up else actDir)
    else if keyCode == VK_DOWN then (if actDir != Up then Down else actDir)
    else if keyCode == VK_LEFT then (if actDir != Right then Left else actDir)
    else if keyCode == VK_RIGHT then (if actDir != Left then Right else actDir)
    else actDir
  }

  /** The menu characters that differ between the two panels. */
  datatype MenuKeys = MenuKeys(back: char, exit: char)

  /** com.examples panel: '3' returns to the main menu, 'x' exits. */
  const EXAMPLES_KEYS: MenuKeys := MenuKeys('3', 'x')

  /** com.games panel: 'x' returns to the main menu, '3' exits. */
  const GAMES_KEYS: MenuKeys := MenuKeys('x', '3')

  /** What a menu key press does. */
  datatype MenuAction = Ignored | StartSession | ShowHighScores | BackToMenu | Exit

  /** The branch of the menu listener a key character takes in a given state. */
  function MenuResponse(keys: MenuKeys, state: GameState, ch: char): MenuAction
  {
    if state == Started then Ignored
    else if state == Finished && ch != keys.back then Ignored
    else if ch == '1' then StartSession
    else if ch == '2' then ShowHighScores
    else if ch == keys.back then BackToMenu
    else if ch == keys.exit then Exit
    else Ignored
  }

  /** The game state after a menu action. */
  function MenuNext(state: GameState, action: MenuAction): GameState
  {
    match action
    case StartSession => Started
    case BackToMenu => MainMenu
    case _ => state
  }

  /**
   * The rule only compares an arrow with the current actDir, so two handled presses
   * between ticks can still reverse the snake: a turn, then the reverse of the
   * direction it was moving in.
   */
  lemma TurnThenReverse(d: Direction, k1: int, k2: int)
    requires KeyDirection(k1).Some? && KeyDirection(k1).value !in {d, Opposite(d)}
    requires KeyDirection(k2) == Some(Opposite(d))
    ensures Steer(d, k1) == KeyDirection(k1).value
    ensures Steer(Steer(d, k1), k2) == Opposite(d)
  {
  }

  /** Pressing LEFT while moving RIGHT changes nothing; UP or DOWN turn the snake. */
  lemma SteerFromRight()
    ensures Steer(Right, VK_LEFT) == Right
    ensures Steer(Right, VK_UP) == Up && Steer(Right, VK_DOWN) == Down
  {
  }

  /**
   * The com.examples menu: nothing happens during a session; after it only '3' is
   * handled, back to the main menu; in the main menu '1' starts a session, '2' shows
   * the high scores, 'x' exits.
   */
  lemma ExamplesMenu(ch: char)
    ensures MenuResponse(EXAMPLES_KEYS, Started, ch) == Ignored
    ensures MenuResponse(EXAMPLES_KEYS, Finished, ch) == (if ch == '3' then BackToMenu else Ignored)
    ensures MenuNext(Finished, MenuResponse(EXAMPLES_KEYS, Finished, ch))
        == (if ch == '3' then MainMenu else Finished)
    ensures MenuResponse(EXAMPLES_KEYS, MainMenu, '1') == StartSession
    ensures MenuNext(MainMenu, StartSession) == Started
    ensures MenuResponse(EXAMPLES_KEYS, MainMenu, '2') == ShowHighScores
    ensures MenuResponse(EXAMPLES_KEYS, MainMenu, 'x') == Exit
    ensures ch !in {'1', '2', '3', 'x'} ==> MenuResponse(EXAMPLES_KEYS, MainMenu, ch) == Ignored
  {
  }

  /**
   * The com.games menu: nothing happens during a session; after it only 'x' is
   * handled, back to the main menu; in the main menu '1' starts a session, '2' shows
   * the high scores, '3' exits.
   */
  lemma GamesMenu(ch: char)
    ensures MenuResponse(GAMES_KEYS, Started, ch) == Ignored
    ensures MenuResponse(GAMES_KEYS, Finished, ch) == (if ch == 'x' then BackToMenu else Ignored)
    ensures MenuNext(Finished, MenuResponse(GAMES_KEYS, Finished, ch))
        == (if ch == 'x' then MainMenu else Finished)
    ensures MenuResponse(GAMES_KEYS, MainMenu, '1') == StartSession
    ensures MenuResponse(GAMES_KEYS, MainMenu, '2') == ShowHighScores
    ensures MenuResponse(GAMES_KEYS, MainMenu, '3') == Exit
    ensures ch !in {'1', '2', '3', 'x'} ==> MenuResponse(GAMES_KEYS, MainMenu, ch) == Ignored
  {
  }
}
