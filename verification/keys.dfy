/**
  The key events the dashboard reacts to (`tcell.EventKey`). A special key
  carries no printable character: tcell reports a control character as its
  rune, which is modelled as NUL.
*/
module Keys {

  datatype Key =
    | Down
    | Up
    | Escape
    | Enter
    | Backspace2
    | CtrlC
    | Rune(ch: char)
    | OtherKey

  /** `EventKey.Rune()`. */
  function RuneOf(k: Key): char {
    if k.Rune? then k.ch else 0 as char
  }
}
