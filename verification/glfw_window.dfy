/** `GLFWWindow::GLFWKeyCallback`: translation of GLFW key codes and actions
    into the engine's `Key` and `KeyAction`, forwarded to `Input::KeyCallback`. */
module GlfwWindow {
  import opened Input

  /** Action codes of GLFW 3. */
  const GLFW_RELEASE: int := 0
  const GLFW_PRESS: int := 1
  const GLFW_REPEAT: int := 2

  /** Key codes of GLFW 3 (printable keys use their US-ASCII code). */
  const GLFW_KEY_SPACE: int := 32
  const GLFW_KEY_A: int := 65
  const GLFW_KEY_D: int := 68
  const GLFW_KEY_E: int := 69
  const GLFW_KEY_Q: int := 81
  const GLFW_KEY_R: int := 82
  const GLFW_KEY_S: int := 83
  const GLFW_KEY_W: int := 87
  const GLFW_KEY_RIGHT: int := 262
  const GLFW_KEY_LEFT: int := 263
  const GLFW_KEY_DOWN: int := 264
  const GLFW_KEY_UP: int := 265

  /** The key table of the callback: GLFW code to engine key. */
  const KeyTable: map<int, Key> := map[
    GLFW_KEY_W := W, GLFW_KEY_A := A, GLFW_KEY_S := S, GLFW_KEY_D := D,
    GLFW_KEY_SPACE := SPACE, GLFW_KEY_UP := ARROW_UP, GLFW_KEY_DOWN := ARROW_DOWN,
    GLFW_KEY_LEFT := ARROW_LEFT, GLFW_KEY_RIGHT := ARROW_RIGHT,
    GLFW_KEY_Q := Q, GLFW_KEY_E := E, GLFW_KEY_R := R]

  /** The action switch: the three GLFW actions, anything else `NoAction`. */
  function MapAction(action: int): (a: KeyAction)
    ensures a == Press <==> action == GLFW_PRESS
    ensures a == Release <==> action == GLFW_RELEASE
    ensures a == Repeat <==> action == GLFW_REPEAT
    ensures a == NoAction <==> action !in {GLFW_PRESS, GLFW_RELEASE, GLFW_REPEAT}
  {
    if action == GLFW_PRESS then Press
    else if action == GLFW_RELEASE then Release
    else if action == GLFW_REPEAT then Repeat
    else NoAction
  }

  /** The key switch. */
  function MapKey(keycode: int): (k: Key)
    ensures k != None <==> keycode in KeyTable
    ensures keycode in KeyTable ==> k == KeyTable[keycode]
  {
    if keycode == GLFW_KEY_W then W
    else if keycode == GLFW_KEY_A then A
    else if keycode == GLFW_KEY_S then S
    else if keycode == GLFW_KEY_D then D
    else if keycode == GLFW_KEY_SPACE then SPACE
    else if keycode == GLFW_KEY_UP then ARROW_UP
    else if keycode == GLFW_KEY_DOWN then ARROW_DOWN
    else if keycode == GLFW_KEY_LEFT then ARROW_LEFT
    else if keycode == GLFW_KEY_RIGHT then ARROW_RIGHT
    else if keycode == GLFW_KEY_Q then Q
    else if keycode == GLFW_KEY_E then E
    else if keycode == GLFW_KEY_R then R
    else None
  }

  /** Different mapped codes give different keys. */
  lemma KeyMappingInjective(c1: int, c2: int)
    requires MapKey(c1) != None && c1 != c2
    ensures MapKey(c1) != MapKey(c2)
  {
  }

  /** Every known key has a code. */
  lemma KeyMappingOnto(k: Key)
    requires k != None
    ensures exists c :: MapKey(c) == k
  {
    var c := match k
      case W => GLFW_KEY_W case A => GLFW_KEY_A case S => GLFW_KEY_S case D => GLFW_KEY_D
      case SPACE => GLFW_KEY_SPACE case ARROW_UP => GLFW_KEY_UP case ARROW_DOWN => GLFW_KEY_DOWN
      case ARROW_LEFT => GLFW_KEY_LEFT case ARROW_RIGHT => GLFW_KEY_RIGHT
      case Q => GLFW_KEY_Q case E => GLFW_KEY_E case _ => GLFW_KEY_R;
    assert MapKey(c) == k;
  }

  /** `GLFWKeyCallback`: scan code and modifier bits are ignored. */
  function GLFWKeyCallback(pressed: set<Key>, keycode: int, scancode: int, action: int, mods: int): (r: set<Key>)
    ensures forall k :: k != MapKey(keycode) ==> (k in r <==> k in pressed)
    ensures MapKey(keycode) != None && action == GLFW_PRESS ==> MapKey(keycode) in r
    ensures action == GLFW_RELEASE ==> MapKey(keycode) !in r || MapKey(keycode) == None
  {
    KeyCallback(pressed, MapKey(keycode), MapAction(action))
  }

  /** An unknown key code or action leaves the held set unchanged. */
  lemma UnmappedEventIgnored(pressed: set<Key>, keycode: int, scancode: int, action: int, mods: int)
    requires MapKey(keycode) == None || action !in {GLFW_PRESS, GLFW_RELEASE}
    ensures GLFWKeyCallback(pressed, keycode, scancode, action, mods) == pressed
  {
  }

  /** Press then release of a mapped key leaves it not held, whatever came before. */
  lemma PressThenRelease(pressed: set<Key>, keycode: int, s1: int, m1: int, s2: int, m2: int)
    ensures var down := GLFWKeyCallback(pressed, keycode, s1, GLFW_PRESS, m1);
      var up := GLFWKeyCallback(down, keycode, s2, GLFW_RELEASE, m2);
      MapKey(keycode) !in up || MapKey(keycode) == None
  {
  }

  /** The scancode and the modifier bits never influence the pressed set. */
  lemma ScancodeAndModsIgnored(pressed: set<Key>, keycode: int, action: int, s1: int, m1: int, s2: int, m2: int)
    ensures GLFWKeyCallback(pressed, keycode, s1, action, m1) == GLFWKeyCallback(pressed, keycode, s2, action, m2)
  {
  }
}
