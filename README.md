# zi terminal core: a verified model

zi is a small Rust terminal library with two parts.

The first is a terminal interface with one backend per platform:
- **POSIX**: a raw-mode guard over the tty line discipline, plus an emitter that drives the screen with ECMA-48 control sequences and UTF-8 text on standard output.
- **Windows**: the console input mode is saved and restored around a session, and an event source turns batches of console input records into key events.

The second part is a screen buffer: a row-major grid of cells with an accessor by linear index and an iterator that yields every cell with its coordinates. The demo program `src/main.rs` holds a copy of the POSIX emitter, decodes each read of standard input into a key, and dispatches on it.

The Dafny modules follow the source files:

| module | models |
|---|---|
| `Term` | `src/term/mod.rs`: `Key`, the `KeyMod` flags, `Event`, and the operation set of the `Term` trait, as the datatype `Op` |
| `Ascii` | `src/term/ascii.rs`: `Termios` guard, `AsciiTerm` and its operations; the guard is a state machine over a `Tty` device |
| `Ecma48` | decimal rendering and `CSI P1;...;Pn F` sequences, with a parser for the same form |
| `Utf8` | the UTF-8 encoding `print` writes, with a strict decoder |
| `MainLoop` | `src/main.rs`: key decoding (lines 119-131) and the key table (lines 133-146) |
| `Screen` | `src/screen.rs` |
| `Win32` | `src/term/win32.rs`: `Win32Term` mode save and restore, `WaitEventIter` over a `Console` input queue |
| `Ints`, `Wrappers` | the Rust integer widths as newtypes, and `Option` |

How the model represents the source's state:
- Standard output is the field `AsciiTerm.out: seq<byte>`. Each operation appends to it.
- The tty's attributes are `Tty.mode`. Only `c_lflag` is modelled bit by bit, using the Linux values of the POSIX flags.
- A Rust `Drop` is a `Drop()` method. A ghost `dropped` flag makes it run at most once.
- `cell_at_mut` returns the position in the `cells` array that the Rust `&mut Cell` points to. `WriteCell` writes through that position.
- `ReadConsoleInputW` is the method `Console.ReadConsoleInput`, which takes records from a queue of pending input records.
- `wait_events` and the other `Term` operations are constructors of `Term.Op`. `Ascii.Wire(op)` gives the bytes each operation writes.

The UTF-8 codec and the control-sequence parser are inverse partners of the emitter. `Ascii.DecodeControlWire` shows that the six control operations decode back to themselves, and `Ascii.DecodePrintWire` shows the same for `print`. `Ascii.WireInjective` then shows that no two of these seven kinds of operation write the same bytes. `flush` and `wait_events` write no bytes at all. The key decoder `MainLoop.DecodeRead` is characterised exactly (both directions of the one-ASCII-byte case); `MainLoop.EchoAsciiByte` shows that decoding a non-command ASCII byte and then printing it gives back that byte.

## Model

| member | source | states |
|---|---|---|
| Term.Union | src/term/mod.rs:44-51 | the union of two flag sets stays within bits 0-2 (value at most 7) and holds each modifier exactly when either operand does |
| Term.Combine | src/term/mod.rs:44-51 | any combination of shift, alt and ctrl is at most 7, contains each flag iff it was chosen, and equals `KEY_MOD_NONE` iff none was chosen |
| Term.KeyModAlgebra | src/term/mod.rs:46-49 | `KEY_MOD_NONE` is the identity of union; shift, alt and ctrl are the single bits 1, 2 and 4, pairwise disjoint |
| Ecma48.Decimal | src/term/ascii.rs:58-74 | the `{}` rendering of a number is a non-empty digit string without leading zeros |
| Ecma48.ValueOfDecimal | src/term/ascii.rs:58-74 | reading a rendered number back gives the number |
| Ecma48.DecimalOfValue | src/term/ascii.rs:58-74 | every canonical digit string is the rendering of its value, so rendering is a bijection onto canonical strings |
| Ecma48.ParseControlSequence | src/term/ascii.rs:52-75 | a control sequence with one or more parameters and a final byte in 0x40..0x7E parses back to exactly those parameters and that final byte |
| Utf8.Encode | src/term/ascii.rs:77-79 | the encoding of a char is 1, 2, 3 or 4 bytes by code point range, ASCII is one byte equal to the code point, and the trailing bytes are continuation bytes |
| Utf8.DecodeEncode | src/term/ascii.rs:77-79 | the strict decoder recovers every char from its encoding |
| Utf8.EncodeDecode | src/term/ascii.rs:77-79 | any byte string the strict decoder accepts is the encoding of the char it decodes to (only shortest forms decode) |
| Ascii.RawMode | src/term/ascii.rs:18 | the raw mode clears ECHO, ECHONL, ICANON, ISIG and IEXTEN in `c_lflag`, keeps every other `c_lflag` bit, and keeps the other flag words and control characters |
| Ascii.RawModeIdempotent | src/term/ascii.rs:18 | applying raw mode to a raw mode changes nothing |
| Ascii.Tty.GetAttr | src/term/ascii.rs:15 | `tcgetattr` returns the device's current mode |
| Ascii.Tty.SetAttr | src/term/ascii.rs:19 | `tcsetattr` makes the given mode the device's mode |
| Ascii.Termios.constructor | src/term/ascii.rs:11-26 | the guard keeps the mode read from the device verbatim as `orig` and leaves the device in `RawMode(orig)` (the same body in src/main.rs:14-29) |
| Ascii.Termios.Drop | src/term/ascii.rs:29-35 | dropping the guard puts `orig` back on the device (the same body in src/main.rs:32-38) |
| Ascii.Wire | src/term/ascii.rs:52-83 | each control operation writes at least four bytes that start with `ESC [` and end in a final byte in 0x40..0x7E; `print` writes one to four bytes; `flush` adds nothing to the stream; `wait_events` is not an output operation |
| Ascii.ControlIsNotText | src/term/ascii.rs:52-79 | no control operation writes the same bytes as any `print` |
| Ascii.WireInjective | src/term/ascii.rs:52-79 | among the control operations and `print`, two operations write the same bytes iff they are the same operation |
| Ascii.DecodeControlWire | src/term/ascii.rs:52-75 | the bytes of `clear`, `move_cursor` and the four relative moves decode to that same operation, with the one-based wire position turned back into the zero-based argument |
| Ascii.DecodePrintWire | src/term/ascii.rs:77-79 | `print(ch)` writes bytes that decode to exactly `ch` |
| Ascii.ClearBytes | src/term/ascii.rs:52-54 | `clear` writes exactly `ESC [ 2 J` (identical in src/main.rs:53-55) |
| Ascii.MoveCursorBytes | src/term/ascii.rs:56-59 | `move_cursor(row, col)` writes `ESC [`, decimal `row + 1`, `;`, decimal `col + 1`, `H` (identical in src/main.rs:57-60) |
| Ascii.RelativeMoveBytes | src/term/ascii.rs:61-75 | `cursor_up/down/forward/back(n)` write `ESC [`, decimal `n` without clamping, then `A`, `B`, `C` or `D` (identical in src/main.rs:62-76) |
| Ascii.AsciiTerm.constructor | src/term/ascii.rs:43-48 | the terminal starts with no output and a fresh guard on fd 1 that has switched the device to raw mode |
| Ascii.AsciiTerm.Clear | src/term/ascii.rs:52-54 | appends `Wire(Clear)` to the output and changes nothing else |
| Ascii.AsciiTerm.MoveCursor | src/term/ascii.rs:56-59 | appends `Wire(MoveCursor(row, col))`; the `row + 1` and `col + 1` are `u16` additions that must not overflow |
| Ascii.AsciiTerm.CursorUp | src/term/ascii.rs:61-63 | appends `Wire(CursorUp(n))` |
| Ascii.AsciiTerm.CursorDown | src/term/ascii.rs:65-67 | appends `Wire(CursorDown(n))` |
| Ascii.AsciiTerm.CursorForward | src/term/ascii.rs:69-71 | appends `Wire(CursorForward(n))` |
| Ascii.AsciiTerm.CursorBack | src/term/ascii.rs:73-75 | appends `Wire(CursorBack(n))` |
| Ascii.AsciiTerm.Print | src/term/ascii.rs:77-79 | appends the UTF-8 encoding of `ch` and nothing else |
| Ascii.AsciiTerm.Drop | src/term/ascii.rs:29-35 | dropping the terminal drops its guard, which restores the original mode |
| Ascii.RawSession | src/term/ascii.rs:11-35 | constructing the terminal, writing to it and dropping it leaves the device's mode as it was before |
| MainLoop.DecodeRead | src/main.rs:119-131 | a read decodes to `Unicode` iff it is exactly one byte below 0x80, and then the char is that byte; every other read, including empty and multi-byte reads, is `Unknown` |
| MainLoop.Dispatch | src/main.rs:133-146 | `q` and only `q` quits; `Unknown` and only `Unknown` is ignored; `h`, `j`, `k` and `l` and only they run `cursor_back(1)`, `cursor_down(1)`, `cursor_up(1)` and `cursor_forward(1)`; every other key is printed as itself |
| MainLoop.Step | src/main.rs:133-146 | one pass of the loop returns quit iff the read decoded to `q`, and appends exactly the response of the decoded key |
| MainLoop.EchoAsciiByte | src/main.rs:120-141 | a single ASCII byte other than h, j, k, l and q is echoed as that same byte |
| MainLoop.UnknownReadsAreSilent | src/main.rs:123-145 | a read of a length other than one, or of a single non-ASCII byte, decodes to `Unknown` and writes nothing |
| MainLoop.KeyResponses | src/main.rs:136-140 | h, j, k and l write `ESC [ 1 D`, `ESC [ 1 B`, `ESC [ 1 A` and `ESC [ 1 C`; `q` writes nothing |
| Screen.Grapheme.New | src/screen.rs:74-82 | `character()` of a new grapheme returns exactly the string it was made from |
| Screen.GraphemeRoundTrip | src/screen.rs:74-82 | `Grapheme::character` returns exactly the string given to `Grapheme::new`, and a grapheme rebuilt from its character is the same grapheme |
| Screen.Cell.New | src/screen.rs:55-60 | a new cell has attribute `None` and no grapheme |
| Screen.Enumerate | src/screen.rs:36-45 | a full pass yields one item per cell, in index order; item `i` carries cell `i`, `x < w` and `y * w + x == i` |
| Screen.SplitIndex | src/screen.rs:24 | within a row (`x < w`), the linear index `y * w + x` determines `x` and `y` |
| Screen.IndexInGrid | src/screen.rs:24 | an in-grid coordinate's linear index is below `w * h` |
| Screen.EachCoordinateOnce | src/screen.rs:36-45 | a pass over a `w * h` grid yields each in-grid coordinate exactly once, at index `y * w + x`, with the cell stored there |
| Screen.ItemsInGrid | src/screen.rs:38-39 | every yielded coordinate lies inside the grid |
| Screen.ColumnOverflowAliasesNextRow | src/screen.rs:23-25 | the accessor has no `x < w` check: column `x >= w` of row `y` is the same index as column `x - w` of row `y + 1` |
| Screen.WriteSeenByPass | src/screen.rs:23-25 | a cell written at an in-grid coordinate is what a later pass yields there, and every other item of the pass is unchanged |
| Screen.Screen.constructor | src/screen.rs:8-14 | the grid holds exactly `w * h` cells, all `Cell::new()`; `w * h` must fit in `u16` |
| Screen.Screen.CellAtMut | src/screen.rs:23-25 | the accessor is `Some` iff `y * w + x` is below the cell count, and then it is that index |
| Screen.Screen.WriteCell | src/screen.rs:23-25 | writing through the accessor replaces only the cell at `y * w + x`, when that index exists, and otherwise changes nothing |
| Screen.Screen.Cells | src/screen.rs:16-21 | a new pass over this screen starts at index 0 |
| Screen.CellIter.constructor | src/screen.rs:17-20 | the iterator refers to the given screen and starts at index 0 |
| Screen.CellIter.Next | src/screen.rs:36-45 | below the cell count, yields the enumeration's item at the index and advances by one; at the end, yields nothing and leaves the index alone |
| Screen.CollectCells | src/screen.rs:16-45 | running a pass until `None` yields exactly the enumeration of the grid |
| Win32.AsciiChar | src/term/win32.rs:57 | `AsciiChar()` reads the low byte of the record's `UnicodeChar` as an `i8`: same bit pattern, negative exactly when the byte is 0x80 or above |
| Win32.CharOfAscii | src/term/win32.rs:57 | `c as u8 as char` reinterprets the `i8` as a byte and widens it: the char's value is `c mod 256`, so it is below 0x100 and keeps non-negative values |
| Win32.KeyCharIsLowByte | src/term/win32.rs:57 | the key of a key-down record is the low byte of its UTF-16 unit, so a unit below 0x100 comes through unchanged |
| Win32.EventOf | src/term/win32.rs:57 | the event of a key-down record is a `Unicode` key whose char is the low byte of `UnicodeChar`, with `KEY_MOD_NONE` |
| Win32.Scan | src/term/win32.rs:48-66 | the scan consumes key-up records, stops just after the first key-down record (yielding its event) or non-key record (unreachable), or at the end of the batch (`None`, with `read == count`) |
| Win32.ScanYieldsKeyDowns | src/term/win32.rs:48-66 | over key records, successive scans yield exactly the events of the key-down records, in order, and never reach `unreachable!()` |
| Win32.MouseOrWindowRecordIsUnreachable | src/term/win32.rs:53-61 | a mouse or window-size record, which the mode set at src/term/win32.rs:21 admits, ends the scan in `unreachable!()` |
| Win32.Console.ReadConsoleInput | src/term/win32.rs:44 | moves the oldest `min(queued, buffer length)` records into the buffer and leaves the rest queued |
| Win32.WaitEventIter.constructor | src/term/win32.rs:107-112 | the iterator starts with `count == read == 0` and a 128-record buffer |
| Win32.WaitEventIter.Refill | src/term/win32.rs:41-46 | resets `read` to 0 and loads the next batch; `count` is the batch size |
| Win32.WaitEventIter.ScanBatch | src/term/win32.rs:48-66 | the loop ends in the state and result `Scan` specifies, keeping `read <= count <= 128` |
| Win32.WaitEventIter.Next | src/term/win32.rs:40-67 | refills only when `read >= count`, and then scans the batch from 0 (otherwise from `read`); `read <= count <= 128` holds afterwards |
| Win32.Win32Term.constructor | src/term/win32.rs:16-27 | remembers the console's input mode and sets it to the union of `ENABLE_MOUSE_INPUT` and `ENABLE_WINDOW_INPUT` |
| Win32.Win32Term.WaitEvents | src/term/win32.rs:106-113 | returns a fresh iterator on the console with `count == read == 0`, so the first pull reads a batch |
| Win32.Win32Term.Drop | src/term/win32.rs:70-76 | puts the saved input mode back |
| Win32.ConsoleSession | src/term/win32.rs:16-76 | constructing and dropping the console terminal leaves the input mode as it was |

## Left out

- The OS calls are not modelled: `tcgetattr`/`tcsetattr`, `GetStdHandle`, `GetConsoleMode`/`SetConsoleMode` and `libc::system("cls")`. They are replaced by the `Tty` and `Console` state they read and write. `ReadConsoleInputW` is modelled only as a queue of pending records.
- The `TCSAFLUSH` side effect is not modelled. It would discard unread input when attributes change, and pending input is not part of `Tty`.
- Only `c_lflag` is looked at bit by bit. The other termios words are carried through unchanged, and line speeds are not modelled.
- `mem::uninitialized()` is not modelled. The model reads the mode first and then uses it, as the code intends.
- `flush` and stdout buffering have no observable semantics. `Wire(Flush)` is empty, and `AsciiTerm` has no `Flush` method. The `.unwrap()` panics on a failed write are not modelled, since writes to `out` cannot fail.
- The blocking `io::stdin().read`, the outer `'input` loop and its `Err` branch are I/O. Only the decoding of one `(buf, n)` and one pass of the dispatch (`MainLoop.Step`) are modelled. The greeting that `main()` prints first (src/main.rs:106-112) is also left out.
- `src/main.rs:8-85` repeats `Termios` and `AsciiTerm` with the same method bodies. There the operations sit in an inherent `impl AsciiTerm` (src/main.rs:45-85) rather than in `impl Term for AsciiTerm`, and `Key`, `KeyMod` and `Event` are declared again (src/main.rs:87-103). They are modelled once, in `Ascii` and `Term`. The rows for the guard and for the byte lemmas give the matching main.rs lines.
- `Win32.WaitEventIter.Next`: the model requires a non-empty queue when a refill is due, because the source blocks until input arrives.
- `Win32.Console.ReadConsoleInput`: the same non-empty requirement stands in for the source's blocking call.
- The `Term` impl of `Win32Term` at src/term/win32.rs:79-104 is not modelled. `clear` there shells out to `cls`, and the rest are empty stubs. Cursor tracking and clamping for this backend are intended but do not exist in the code, so none is modelled.
- `src/term/ascii.rs` has no `wait_events` in its `Term` impl, so there is no POSIX event source to model.
- `#[cfg]` platform selection, `DefaultTerm` and `Term::new` are compile-time configuration.
- The `bitflags!` macro is modelled as a `bv8` whose bits above 2 are clear.
- `Term` is modelled as the datatype `Op` of its operations. The operation set is closed (src/term/mod.rs:12-30), so a datatype lets `Ascii.Wire` be defined and reasoned about case by case. `AsciiTerm` provides the operations as methods, and `Ascii.Wire` gives each one's bytes.
- `Screen.Screen.constructor`: requires `w * h <= 65535`. In Rust, `w * h` is `u16` arithmetic, which panics in debug builds and wraps in release builds; only the non-overflowing case is modelled.
- `Screen.Screen.CellAtMut`: requires `y * w + x <= 65535` for the same reason, and so does `Screen.Screen.WriteCell`.
- `Ascii.AsciiTerm.MoveCursor`: requires `row` and `col` below 65535, because `row + 1` is `u16` arithmetic. The release-build wrap to 0 is not modelled.
- `Screen.CellIter.Next`: `index += 1` cannot overflow, because the grid has at most 65535 cells.
- Grapheme segmentation is not modelled: `Grapheme` only stores a string.
- Concurrency is not modelled; the source has none.

## Notes on intended behaviour and the code

Where the intended behaviour of the library and its code disagree, the model follows the code:
- `cell_at_mut` is meant to give "absent" for out-of-range coordinates. The code only checks `y * w + x` against the cell count, so a column `x >= w` reaches a cell in a later row. `Screen.ColumnOverflowAliasesNextRow` states this, and `Screen.Screen.CellAtMut` states the check the code actually makes.
- Relative moves are meant to be clamped at the origin. The POSIX backend writes `n` unclamped, as `Ascii.RelativeMoveBytes` states, and the console backend's moves are empty stubs.
- Console input records other than key events are meant to be skipped. `Win32Term::new` enables mouse and window input (src/term/win32.rs:21), so such records do arrive, and the first one reaches `unreachable!()` (src/term/win32.rs:61). `Win32.Scan` models that panic as the `Unreachable` outcome, and `Win32.MouseOrWindowRecordIsUnreachable` states it for the record types that mode admits. `Win32.ScanYieldsKeyDowns` assumes that every record is a key event, which the code's own mode setting does not guarantee.
- The `Term` trait names the parameters of `move_cursor` `(x, y)` (src/term/mod.rs:15), but both implementations name them `(row, col)` and write `row` first in the CUP sequence (src/term/ascii.rs:56-59). The model follows the implementation, in `Term.Op.MoveCursor(row, col)`. A caller that passed the `(x, y)` of a `CellIter` item through the trait would get the coordinates transposed on the wire.
