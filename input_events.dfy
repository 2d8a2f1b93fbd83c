/**
 * Input events as the Linux evdev subsystem delivers them: a (type, code, value)
 * triple. The constants are the values of the Linux input-event-codes header.
 */
module InputEvents {

  /** Event type of key and button events. */
  const EV_KEY: int := 0x01
  /** Button codes of the pedal's three buttons. */
  const BTN_LEFT: int := 0x110
  const BTN_RIGHT: int := 0x111
  const BTN_MIDDLE: int := 0x112

  /** Values of a key event: release, press and auto-repeat. */
  const KEY_RELEASE: int := 0
  const KEY_PRESS: int := 1
  const KEY_REPEAT: int := 2

  datatype Event = Event(kind: int, code: int, value: int)

  /** A key event that reports a button going down. */
  predicate IsPress(e: Event) {
    e.kind == EV_KEY && e.value == KEY_PRESS
  }
}
