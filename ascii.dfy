/**
 * The POSIX backend: a raw-mode guard over the tty line discipline and a
 * terminal that drives the screen by appending ECMA-48 control sequences and
 * UTF-8 text to standard output.
 */
module Ascii {
  import opened Ints
  import opened Wrappers
  import opened Term
  import Ecma48
  import Utf8

  /** Local-mode bits of `c_lflag` (the Linux values of the POSIX names). */
  const ISIG: bv32 := 0x0001
  const ICANON: bv32 := 0x0002
  const ECHO: bv32 := 0x0008
  const ECHONL: bv32 := 0x0040
  const IEXTEN: bv32 := 0x8000

  /** The five local modes raw mode switches off. */
  const RAW_CLEARED: bv32 := ECHO | ECHONL | ICANON | ISIG | IEXTEN

  const STDOUT_FILENO: int := 1

  /** A `struct termios`: the four flag words and the control characters. */
  datatype Mode = Mode(iflag: bv32, oflag: bv32, cflag: bv32, lflag: bv32, cc: seq<byte>)

  /** The mode applied by the guard: the five local modes cleared, everything else kept. */
  function RawMode(m: Mode): (r: Mode)
    ensures r.lflag & ECHO == 0 && r.lflag & ECHONL == 0 && r.lflag & ICANON == 0
    ensures r.lflag & ISIG == 0 && r.lflag & IEXTEN == 0
    ensures r.lflag & !RAW_CLEARED == m.lflag & !RAW_CLEARED
    ensures r.iflag == m.iflag && r.oflag == m.oflag && r.cflag == m.cflag && r.cc == m.cc
  {
    m.(lflag := m.lflag & !RAW_CLEARED)
  }

  /** Applying raw mode twice is applying it once. */
  lemma RawModeIdempotent(m: Mode)
    ensures RawMode(RawMode(m)) == RawMode(m)
  {
  }

  /** The terminal device behind a file descriptor, with its current attributes. */
  class Tty {
    const fd: int
    var mode: Mode

    constructor (fd: int, mode: Mode)
      ensures this.fd == fd && this.mode == mode
    {
      this.fd := fd;
      this.mode := mode;
    }

    /** `tcgetattr`: read the current attributes. */
    method GetAttr() returns (m: Mode)
      ensures m == mode
    {
      m := mode;
    }

    /** `tcsetattr(fd, TCSAFLUSH, &m)`: replace the attributes. */
    method SetAttr(m: Mode)
      modifies this`mode
      ensures mode == m
    {
      mode := m;
    }
  }

  /** The raw-mode guard: remembers the original mode and puts it back on drop. */
  class Termios {
    const tty: Tty
    const orig: Mode
    /** Set once the guard has been dropped; Rust's ownership makes that happen exactly once. */
    ghost var dropped: bool

    constructor (tty: Tty)
      modifies tty`mode
      ensures this.tty == tty && orig == old(tty.mode)
      ensures tty.mode == RawMode(orig)
      ensures !dropped
    {
      var termios := tty.GetAttr();
      this.tty := tty;
      orig := termios;
      dropped := false;
      new;
      tty.SetAttr(RawMode(termios));
    }

    method Drop()
      requires !dropped
      modifies tty`mode, this`dropped
      ensures tty.mode == orig && dropped
    {
      tty.SetAttr(orig);
      dropped := true;
    }
  }

  /**
   * The bytes the backend writes for each operation: a control sequence
   * `ESC [ ... F` for the cursor and erase operations, one to four bytes of
   * text for `print`, nothing for `flush` and `wait_events`.
   */
  function Wire(op: Op): (s: seq<byte>)
    ensures IsControl(op) ==>
      |s| >= 4 && s[0] == Ecma48.ESC && s[1] == Ecma48.LEFT_BRACKET && Ecma48.IsFinal(s[|s| - 1])
    ensures op.Print? ==> 1 <= |s| <= 4
    ensures op.Flush? || op.WaitEvents? ==> s == []
  {
    match op
    case Clear => Ecma48.ControlSequence([2], Ecma48.ED)
    case MoveCursor(row, col) => Ecma48.ControlSequence([row as int + 1, col as int + 1], Ecma48.CUP)
    case CursorUp(n) => Ecma48.ControlSequence([n as nat], Ecma48.CUU)
    case CursorDown(n) => Ecma48.ControlSequence([n as nat], Ecma48.CUD)
    case CursorForward(n) => Ecma48.ControlSequence([n as nat], Ecma48.CUF)
    case CursorBack(n) => Ecma48.ControlSequence([n as nat], Ecma48.CUB)
    case Print(ch) => Utf8.Encode(ch)
    case Flush => []
    case WaitEvents => []
  }

  /** Operations whose output is a control sequence. */
  predicate IsControl(op: Op) {
    op.Clear? || op.MoveCursor? || op.CursorUp? || op.CursorDown? || op.CursorForward? || op.CursorBack?
  }

  /** Reads one control sequence back as the operation that produced it. */
  function DecodeControl(s: seq<byte>): Option<Op> {
    match Ecma48.Parse(s)
    case None => None
    case Some((ps, f)) => ControlOp(ps, f)
  }

  /** The operation a parameter list and final byte denote; the wire's one-based position becomes zero-based. */
  function ControlOp(ps: seq<nat>, f: byte): Option<Op> {
    if f == Ecma48.ED then
      if ps == [2] then Some(Clear) else None
    else if f == Ecma48.CUP then
      if |ps| == 2 && 1 <= ps[0] <= 0x1_0000 && 1 <= ps[1] <= 0x1_0000 then
        Some(MoveCursor((ps[0] - 1) as u16, (ps[1] - 1) as u16))
      else None
    else if |ps| == 1 && ps[0] <= U16_MAX then
      if f == Ecma48.CUU then Some(CursorUp(ps[0] as u16))
      else if f == Ecma48.CUD then Some(CursorDown(ps[0] as u16))
      else if f == Ecma48.CUF then Some(CursorForward(ps[0] as u16))
      else if f == Ecma48.CUB then Some(CursorBack(ps[0] as u16))
      else None
    else None
  }

  /** Every control operation can be recovered from its bytes, so distinct operations never write the same bytes. */
  lemma DecodeControlWire(op: Op)
    requires IsControl(op)
    ensures DecodeControl(Wire(op)) == Some(op)
  {
    match op
    case Clear => Ecma48.ParseControlSequence([2], Ecma48.ED);
    case MoveCursor(row, col) => DecodeMoveCursorWire(row, col);
    case CursorUp(n) => DecodeRelativeWire(op, n, Ecma48.CUU);
    case CursorDown(n) => DecodeRelativeWire(op, n, Ecma48.CUD);
    case CursorForward(n) => DecodeRelativeWire(op, n, Ecma48.CUF);
    case CursorBack(n) => DecodeRelativeWire(op, n, Ecma48.CUB);
  }

  lemma DecodeControlSequence(ps: seq<nat>, f: byte)
    requires |ps| >= 1 && Ecma48.IsFinal(f)
    ensures DecodeControl(Ecma48.ControlSequence(ps, f)) == ControlOp(ps, f)
  {
    Ecma48.ParseControlSequence(ps, f);
  }

  lemma DecodeMoveCursorWire(row: u16, col: u16)
    ensures DecodeControl(Wire(MoveCursor(row, col))) == Some(MoveCursor(row, col))
  {
    var ps := [row as int + 1, col as int + 1];
    assert Wire(MoveCursor(row, col)) == Ecma48.ControlSequence(ps, Ecma48.CUP);
    DecodeControlSequence(ps, Ecma48.CUP);
    assert (ps[0] - 1) as u16 == row && (ps[1] - 1) as u16 == col;
  }

  lemma DecodeRelativeWire(op: Op, n: u16, f: byte)
    requires op == CursorUp(n) || op == CursorDown(n) || op == CursorForward(n) || op == CursorBack(n)
    requires f == (if op.CursorUp? then Ecma48.CUU else if op.CursorDown? then Ecma48.CUD
                   else if op.CursorForward? then Ecma48.CUF else Ecma48.CUB)
    ensures DecodeControl(Wire(op)) == Some(op)
  {
    assert Wire(op) == Ecma48.ControlSequence([n as nat], f);
    DecodeControlSequence([n as nat], f);
  }

  /** Printing writes the character's UTF-8 form and nothing else: it decodes to exactly that character. */
  lemma DecodePrintWire(ch: char)
    ensures Utf8.Decode(Wire(Print(ch))) == Some(ch)
  {
    Utf8.DecodeEncode(ch);
  }

  /** No text `print` writes looks like a control sequence. */
  lemma ControlIsNotText(op: Op, ch: char)
    requires IsControl(op)
    ensures Wire(op) != Wire(Print(ch))
  {
    Utf8.DecodeEncode(ch);
    assert Utf8.Decode(Wire(op)) == None;
  }

  /** Distinct control and text operations never write the same bytes. */
  lemma WireInjective(a: Op, b: Op)
    requires IsControl(a) || a.Print?
    requires IsControl(b) || b.Print?
    ensures Wire(a) == Wire(b) <==> a == b
  {
    if IsControl(a) && IsControl(b) {
      DecodeControlWire(a);
      DecodeControlWire(b);
    } else if a.Print? && b.Print? {
      DecodePrintWire(a.ch);
      DecodePrintWire(b.ch);
    } else if IsControl(a) {
      ControlIsNotText(a, b.ch);
    } else {
      ControlIsNotText(b, a.ch);
    }
  }

  /** `clear` writes exactly `ESC [ 2 J`. */
  lemma ClearBytes()
    ensures Wire(Clear) == [0x1B, 0x5B, 0x32, 0x4A]
  {
    assert Ecma48.Decimal(2) == [0x32];
  }

  /** `move_cursor` writes `ESC [`, the decimal of `row + 1`, `;`, the decimal of `col + 1`, `H`. */
  lemma MoveCursorBytes(row: u16, col: u16)
    ensures Wire(MoveCursor(row, col))
         == [0x1B, 0x5B] + Ecma48.Decimal(row as int + 1) + [0x3B] + Ecma48.Decimal(col as int + 1) + [0x48]
  {
    var ps := [row as int + 1, col as int + 1];
    assert Wire(MoveCursor(row, col)) == [0x1B, 0x5B] + Ecma48.Parameters(ps) + [0x48];
    Ecma48.ParametersOfTwo(row as int + 1, col as int + 1);
  }

  /** The relative moves write `ESC [`, the decimal of `n` unclamped, then `A`, `B`, `C` or `D`. */
  lemma RelativeMoveBytes(n: u16)
    ensures Wire(CursorUp(n)) == [0x1B, 0x5B] + Ecma48.Decimal(n as nat) + [0x41]
    ensures Wire(CursorDown(n)) == [0x1B, 0x5B] + Ecma48.Decimal(n as nat) + [0x42]
    ensures Wire(CursorForward(n)) == [0x1B, 0x5B] + Ecma48.Decimal(n as nat) + [0x43]
    ensures Wire(CursorBack(n)) == [0x1B, 0x5B] + Ecma48.Decimal(n as nat) + [0x44]
  {
  }

  /** The terminal: the bytes written to standard output so far, and the raw-mode guard it owns. */
  class AsciiTerm {
    var out: seq<byte>
    const termios: Termios

    constructor (tty: Tty)
      requires tty.fd == STDOUT_FILENO
      modifies tty`mode
      ensures out == [] && fresh(termios) && !termios.dropped
      ensures termios.tty == tty && termios.orig == old(tty.mode) && tty.mode == RawMode(old(tty.mode))
    {
      out := [];
      termios := new Termios(tty);
    }

    method Clear()
      modifies this`out
      ensures out == old(out) + Wire(Op.Clear)
    {
      out := out + [Ecma48.ESC, Ecma48.LEFT_BRACKET, 0x32, Ecma48.ED];
      assert Ecma48.Decimal(2) == [0x32];
    }

    /** Zero-based in the interface, one-based on the wire; `row + 1` is `u16` arithmetic. */
    method MoveCursor(row: u16, col: u16)
      requires row as int < U16_MAX && col as int < U16_MAX
      modifies this`out
      ensures out == old(out) + Wire(Op.MoveCursor(row, col))
    {
      var r, c := row + 1, col + 1;
      out := out + ([Ecma48.ESC, Ecma48.LEFT_BRACKET] + Ecma48.Decimal(r as nat) + [Ecma48.SEMICOLON]
                 + Ecma48.Decimal(c as nat) + [Ecma48.CUP]);
      MoveCursorBytes(row, col);
    }

    method CursorUp(n: u16)
      modifies this`out
      ensures out == old(out) + Wire(Op.CursorUp(n))
    {
      out := out + [Ecma48.ESC, Ecma48.LEFT_BRACKET] + Ecma48.Decimal(n as nat) + [Ecma48.CUU];
    }

    method CursorDown(n: u16)
      modifies this`out
      ensures out == old(out) + Wire(Op.CursorDown(n))
    {
      out := out + [Ecma48.ESC, Ecma48.LEFT_BRACKET] + Ecma48.Decimal(n as nat) + [Ecma48.CUD];
    }

    method CursorForward(n: u16)
      modifies this`out
      ensures out == old(out) + Wire(Op.CursorForward(n))
    {
      out := out + [Ecma48.ESC, Ecma48.LEFT_BRACKET] + Ecma48.Decimal(n as nat) + [Ecma48.CUF];
    }

    method CursorBack(n: u16)
      modifies this`out
      ensures out == old(out) + Wire(Op.CursorBack(n))
    {
      out := out + [Ecma48.ESC, Ecma48.LEFT_BRACKET] + Ecma48.Decimal(n as nat) + [Ecma48.CUB];
    }

    method Print(ch: char)
      modifies this`out
      ensures out == old(out) + Wire(Op.Print(ch))
    {
      out := out + Utf8.Encode(ch);
    }

    /** Dropping the terminal drops its guard, which restores the original mode. */
    method Drop()
      requires !termios.dropped
      modifies termios.tty`mode, termios`dropped
      ensures termios.tty.mode == termios.orig && termios.dropped
    {
      termios.Drop();
    }
  }

  /** A whole raw-mode session leaves the device as it found it. */
  method RawSession(tty: Tty) returns (term: AsciiTerm)
    requires tty.fd == STDOUT_FILENO
    modifies tty`mode
    ensures tty.mode == old(tty.mode)
  {
    term := new AsciiTerm(tty);
    assert tty.mode == RawMode(term.termios.orig);
    term.Clear();
    term.Drop();
  }
}
