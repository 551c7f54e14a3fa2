/**
 * The body of the POSIX input loop: decode one `read` of standard input into
 * a key, then dispatch on it (vi-style cursor keys, `q` to quit, everything
 * else echoed).
 */
module MainLoop {
  import opened Ints
  import opened Term
  import Ascii
  import Ecma48
  import Utf8

  /** What the loop does with one key. */
  datatype Command = Quit | Ignore | Run(op: Op)

  /** The key a read of `n` bytes into `buf` stands for: a single ASCII byte is that character, anything else is unknown. */
  function DecodeRead(buf: seq<byte>, n: nat): (k: Key)
    requires n <= |buf|
    ensures k.Unicode? <==> n == 1 && buf[0] < 0x80
    ensures k.Unicode? ==> k.ch as int == buf[0] as int
  {
    if n == 1 then
      var ch := buf[0];
      if ch < 0x80 then Unicode(ch as int as char) else Unknown
    else Unknown
  }

  predicate IsMovementKey(c: char) {
    c == 'h' || c == 'j' || c == 'k' || c == 'l'
  }

  /** The key table of the loop. */
  function Dispatch(key: Key): (c: Command)
    ensures c == Quit <==> key == Unicode('q')
    ensures c == Ignore <==> key == Unknown
    ensures c.Run? && c.op.Print? <==> key.Unicode? && key.ch != 'q' && !IsMovementKey(key.ch)
    ensures c.Run? && c.op.Print? ==> c.op.ch == key.ch
    ensures c == Run(CursorBack(1)) <==> key == Unicode('h')
    ensures c == Run(CursorDown(1)) <==> key == Unicode('j')
    ensures c == Run(CursorUp(1)) <==> key == Unicode('k')
    ensures c == Run(CursorForward(1)) <==> key == Unicode('l')
  {
    match key
    case Unicode(codepoint) =>
      if codepoint == 'h' then Run(CursorBack(1))
      else if codepoint == 'j' then Run(CursorDown(1))
      else if codepoint == 'k' then Run(CursorUp(1))
      else if codepoint == 'l' then Run(CursorForward(1))
      else if codepoint == 'q' then Quit
      else Run(Print(codepoint))
    case Unknown => Ignore
  }

  /** The bytes one key adds to standard output. */
  function Response(key: Key): seq<byte> {
    match Dispatch(key)
    case Run(op) => Ascii.Wire(op)
    case _ => []
  }

  /** One pass of the loop after a successful read: returns whether the loop breaks. */
  method Step(term: Ascii.AsciiTerm, buf: seq<byte>, n: nat) returns (quit: bool)
    requires n <= |buf|
    modifies term`out
    ensures quit <==> DecodeRead(buf, n) == Unicode('q')
    ensures term.out == old(term.out) + Response(DecodeRead(buf, n))
  {
    var key := DecodeRead(buf, n);
    quit := false;
    match key {
      case Unicode(codepoint) =>
        if codepoint == 'h' {
          term.CursorBack(1);
        } else if codepoint == 'j' {
          term.CursorDown(1);
        } else if codepoint == 'k' {
          term.CursorUp(1);
        } else if codepoint == 'l' {
          term.CursorForward(1);
        } else if codepoint == 'q' {
          quit := true;
        } else {
          term.Print(codepoint);
        }
      case Unknown =>
    }
  }

  /** A single ASCII byte other than h, j, k, l and q is echoed back unchanged. */
  lemma EchoAsciiByte(buf: seq<byte>)
    requires |buf| >= 1 && buf[0] < 0x80
    requires buf[0] !in {0x68, 0x6A, 0x6B, 0x6C, 0x71}
    ensures Response(DecodeRead(buf, 1)) == [buf[0]]
  {
    var c := buf[0] as int as char;
    assert DecodeRead(buf, 1) == Unicode(c);
    assert Utf8.Encode(c) == [buf[0]];
  }

  /** Empty reads, multi-byte reads and non-ASCII bytes write nothing and do not quit. */
  lemma UnknownReadsAreSilent(buf: seq<byte>, n: nat)
    requires n <= |buf|
    requires n != 1 || buf[0] >= 0x80
    ensures DecodeRead(buf, n) == Unknown
    ensures Response(DecodeRead(buf, n)) == []
  {
  }

  /** The movement keys write `ESC [ 1 D`, `ESC [ 1 B`, `ESC [ 1 A` and `ESC [ 1 C`; `q` writes nothing. */
  lemma KeyResponses()
    ensures Response(Unicode('h')) == [0x1B, 0x5B, 0x31, 0x44]
    ensures Response(Unicode('j')) == [0x1B, 0x5B, 0x31, 0x42]
    ensures Response(Unicode('k')) == [0x1B, 0x5B, 0x31, 0x41]
    ensures Response(Unicode('l')) == [0x1B, 0x5B, 0x31, 0x43]
    ensures Response(Unicode('q')) == []
  {
    Ascii.RelativeMoveBytes(1);
    assert Ecma48.Decimal(1) == [0x31];
  }
}
