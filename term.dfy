/**
 * The shared vocabulary of the terminal layer: decoded keys, modifier flags,
 * events and the operation set every backend offers.
 */
module Term {
  import opened Ints

  /** A decoded key: either unrecognised input or one Unicode scalar value. */
  datatype Key = Unknown | Unicode(ch: char)

  /** The modifier flag set: a `u8` whose bits outside 0..2 are never set. */
  type KeyMod = b: bv8 | b & 0xF8 == 0

  const KEY_MOD_NONE: KeyMod := 0
  const KEY_MOD_SHIFT: KeyMod := 1 << 0
  const KEY_MOD_ALT: KeyMod := 1 << 1
  const KEY_MOD_CTRL: KeyMod := 1 << 2

  /** `flags.contains(f)`: every bit of `f` is set in `flags`. */
  predicate Contains(flags: KeyMod, f: KeyMod) {
    flags & f == f
  }

  /** The flag set union `a | b`. */
  function Union(a: KeyMod, b: KeyMod): (r: KeyMod)
    ensures r as int <= 7
    ensures Contains(r, KEY_MOD_SHIFT) <==> Contains(a, KEY_MOD_SHIFT) || Contains(b, KEY_MOD_SHIFT)
    ensures Contains(r, KEY_MOD_ALT) <==> Contains(a, KEY_MOD_ALT) || Contains(b, KEY_MOD_ALT)
    ensures Contains(r, KEY_MOD_CTRL) <==> Contains(a, KEY_MOD_CTRL) || Contains(b, KEY_MOD_CTRL)
  {
    a | b
  }

  /** The flag set holding exactly the chosen modifiers. */
  function Combine(shift: bool, alt: bool, ctrl: bool): (m: KeyMod)
    ensures m as int <= 7
    ensures Contains(m, KEY_MOD_SHIFT) <==> shift
    ensures Contains(m, KEY_MOD_ALT) <==> alt
    ensures Contains(m, KEY_MOD_CTRL) <==> ctrl
    ensures !shift && !alt && !ctrl <==> m == KEY_MOD_NONE
  {
    Union(Union(if shift then KEY_MOD_SHIFT else KEY_MOD_NONE,
                if alt then KEY_MOD_ALT else KEY_MOD_NONE),
          if ctrl then KEY_MOD_CTRL else KEY_MOD_NONE)
  }

  /** The empty set is the identity of union, and the three flags are distinct single bits. */
  lemma KeyModAlgebra(m: KeyMod)
    ensures Union(KEY_MOD_NONE, m) == m && Union(m, KEY_MOD_NONE) == m
    ensures KEY_MOD_SHIFT as int == 1 && KEY_MOD_ALT as int == 2 && KEY_MOD_CTRL as int == 4
    ensures KEY_MOD_SHIFT & KEY_MOD_ALT == 0 && KEY_MOD_SHIFT & KEY_MOD_CTRL == 0 && KEY_MOD_ALT & KEY_MOD_CTRL == 0
  {
  }

  /** An input event: a key together with the modifiers held. */
  datatype Event = Key(key: Key, mods: KeyMod)

  /** The operation set of the terminal interface, one constructor per operation. */
  datatype Op =
    | Clear
    | MoveCursor(row: u16, col: u16)
    | CursorUp(n: u16)
    | CursorDown(n: u16)
    | CursorForward(n: u16)
    | CursorBack(n: u16)
    | Print(ch: char)
    | Flush
    | WaitEvents
}
