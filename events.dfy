/** Keys, key events and the capability oracles the chord plugin consults. */
module Events {

  /** A semantic key identity. `NoKey` is the sentinel meaning "no key / no mapping";
      the named constructors are the keys the plugin compares against by name, and
      `Other` stands for every other key. */
  datatype Key =
    | NoKey
    | Space
    | Esc
    | Tab
    | LeftArrow
    | RightArrow
    | UpArrow
    | DownArrow
    | Other(code: nat)

  /** Physical key location, toggle-state bits and per-event identity. */
  type KeyAddr = nat
  type KeyswitchState = bv8
  type KeyEventId = int

  datatype KeyEvent = KeyEvent(addr: KeyAddr, state: KeyswitchState, key: Key, id: KeyEventId)

  /** The event that continues `e` with its key replaced by `k`. */
  function Rewrite(e: KeyEvent, k: Key): (r: KeyEvent)
    ensures r.addr == e.addr && r.state == e.state && r.id == e.id
    ensures r.key == k
  {
    KeyEvent(e.addr, e.state, k, e.id)
  }

  /** The keys of a sequence of events, in order. */
  function KeysOf(b: seq<KeyEvent>): (ks: seq<Key>)
    ensures |ks| == |b|
    ensures forall i :: 0 <= i < |b| ==> ks[i] == b[i].key
  {
    seq(|b|, i requires 0 <= i < |b| => b[i].key)
  }

  /** Uninterpreted classifications supplied by the rest of the firmware:
      `Key::isKeyboardModifier`, `Key::isLayerShift` and `keyToggledOn`. */
  datatype KeyPredicates = KeyPredicates(
    isKeyboardModifier: Key -> bool,
    isLayerShift: Key -> bool,
    keyToggledOn: KeyswitchState -> bool)
}
