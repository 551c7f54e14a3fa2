/**
 * UTF-8 encoding of one Unicode scalar value (RFC 3629, section 3), which is
 * what Rust's `write!(out, "{}", ch)` puts on the stream for a `char`.
 */
module Utf8 {
  import opened Ints
  import opened Wrappers

  predicate IsContinuation(b: byte) {
    0x80 <= b <= 0xBF
  }

  /** The shortest-form encoding of `c`. */
  function Encode(c: char): (s: seq<byte>)
    ensures |s| == (if c as int < 0x80 then 1
                    else if c as int < 0x800 then 2
                    else if c as int < 0x1_0000 then 3
                    else 4)
    ensures c as int < 0x80 ==> s == [c as int as byte]
    ensures forall i :: 1 <= i < |s| ==> IsContinuation(s[i])
  {
    var cp := c as int;
    if cp < 0x80 then
      [cp as byte]
    else if cp < 0x800 then
      [(0xC0 + cp / 0x40) as byte, (0x80 + cp % 0x40) as byte]
    else if cp < 0x1_0000 then
      [(0xE0 + cp / 0x1000) as byte, (0x80 + cp / 0x40 % 0x40) as byte, (0x80 + cp % 0x40) as byte]
    else
      [(0xF0 + cp / 0x4_0000) as byte, (0x80 + cp / 0x1000 % 0x40) as byte,
       (0x80 + cp / 0x40 % 0x40) as byte, (0x80 + cp % 0x40) as byte]
  }

  /** Decodes a byte string holding exactly one well-formed scalar value. */
  function Decode(s: seq<byte>): Option<char> {
    if |s| == 1 && s[0] < 0x80 then
      Some(s[0] as int as char)
    else if |s| == 2 && 0xC2 <= s[0] <= 0xDF && IsContinuation(s[1]) then
      Some(((s[0] as int - 0xC0) * 0x40 + (s[1] as int - 0x80)) as char)
    else if |s| == 3 && 0xE0 <= s[0] <= 0xEF && IsContinuation(s[1]) && IsContinuation(s[2]) then
      var cp := (s[0] as int - 0xE0) * 0x1000 + (s[1] as int - 0x80) * 0x40 + (s[2] as int - 0x80);
      if 0x800 <= cp && (cp < 0xD800 || 0xE000 <= cp) then Some(cp as char) else None
    else if |s| == 4 && 0xF0 <= s[0] <= 0xF4 && IsContinuation(s[1]) && IsContinuation(s[2]) && IsContinuation(s[3]) then
      var cp := (s[0] as int - 0xF0) * 0x4_0000 + (s[1] as int - 0x80) * 0x1000
              + (s[2] as int - 0x80) * 0x40 + (s[3] as int - 0x80);
      if 0x1_0000 <= cp < 0x11_0000 then Some(cp as char) else None
    else None
  }

  /** Decoding an encoding gives back the character. */
  lemma DecodeEncode(c: char)
    ensures Decode(Encode(c)) == Some(c)
  {
    var cp := c as int;
    if 0x80 <= cp < 0x800 {
      DecodeTwo(c);
    } else if 0x800 <= cp < 0x1_0000 {
      DecodeThree(c);
    } else if 0x1_0000 <= cp {
      DecodeFour(c);
    }
  }

  lemma DecodeTwo(c: char)
    requires 0x80 <= c as int < 0x800
    ensures Decode(Encode(c)) == Some(c)
  {
    var cp := c as int;
    var b0, b1 := cp / 0x40, cp % 0x40;
    assert Encode(c) == [(0xC0 + b0) as byte, (0x80 + b1) as byte];
    assert b0 * 0x40 + b1 == cp;
  }

  lemma DecodeThree(c: char)
    requires 0x800 <= c as int < 0x1_0000
    ensures Decode(Encode(c)) == Some(c)
  {
    var cp := c as int;
    var q := cp / 0x40;
    var b0, b1, b2 := q / 0x40, q % 0x40, cp % 0x40;
    assert cp / 0x1000 == b0;
    assert Encode(c) == [(0xE0 + b0) as byte, (0x80 + b1) as byte, (0x80 + b2) as byte];
    assert b0 * 0x1000 + b1 * 0x40 + b2 == cp;
  }

  lemma DecodeFour(c: char)
    requires 0x1_0000 <= c as int
    ensures Decode(Encode(c)) == Some(c)
  {
    var cp := c as int;
    var q := cp / 0x40;
    var r := q / 0x40;
    var b0, b1, b2, b3 := r / 0x40, r % 0x40, q % 0x40, cp % 0x40;
    assert cp / 0x1000 == r;
    assert cp / 0x4_0000 == b0;
    assert Encode(c) == [(0xF0 + b0) as byte, (0x80 + b1) as byte, (0x80 + b2) as byte, (0x80 + b3) as byte];
    assert b0 * 0x4_0000 + b1 * 0x1000 + b2 * 0x40 + b3 == cp;
  }

  /** Splitting `q * 64 + r` back into its parts. */
  lemma DivMod64(q: int, r: int)
    requires 0 <= q && 0 <= r < 0x40
    ensures (q * 0x40 + r) / 0x40 == q && (q * 0x40 + r) % 0x40 == r
  {
  }

  /** Only the shortest-form encoding decodes: decoding is the exact inverse of encoding. */
  lemma EncodeDecode(s: seq<byte>, c: char)
    requires Decode(s) == Some(c)
    ensures Encode(c) == s
  {
    if |s| == 2 {
      EncodeDecodeTwo(s, c);
    } else if |s| == 3 {
      EncodeDecodeThree(s, c);
    } else if |s| == 4 {
      EncodeDecodeFour(s, c);
    }
  }

  lemma EncodeDecodeTwo(s: seq<byte>, c: char)
    requires |s| == 2 && Decode(s) == Some(c)
    ensures Encode(c) == s
  {
    DivMod64(s[0] as int - 0xC0, s[1] as int - 0x80);
    assert Encode(c)[0] == s[0] && Encode(c)[1] == s[1];
  }

  lemma EncodeDecodeThree(s: seq<byte>, c: char)
    requires |s| == 3 && Decode(s) == Some(c)
    ensures Encode(c) == s
  {
    var cp := c as int;
    var hi := (s[0] as int - 0xE0) * 0x40 + (s[1] as int - 0x80);
    assert cp == hi * 0x40 + (s[2] as int - 0x80);
    DivMod64(hi, s[2] as int - 0x80);
    DivMod64(s[0] as int - 0xE0, s[1] as int - 0x80);
    assert cp / 0x1000 == cp / 0x40 / 0x40;
    assert Encode(c)[0] == s[0] && Encode(c)[1] == s[1] && Encode(c)[2] == s[2];
  }

  lemma EncodeDecodeFour(s: seq<byte>, c: char)
    requires |s| == 4 && Decode(s) == Some(c)
    ensures Encode(c) == s
  {
    var cp := c as int;
    var mid := (s[0] as int - 0xF0) * 0x40 + (s[1] as int - 0x80);
    var hi := mid * 0x40 + (s[2] as int - 0x80);
    assert cp == hi * 0x40 + (s[3] as int - 0x80);
    DivMod64(hi, s[3] as int - 0x80);
    DivMod64(mid, s[2] as int - 0x80);
    DivMod64(s[0] as int - 0xF0, s[1] as int - 0x80);
    assert cp / 0x1000 == cp / 0x40 / 0x40;
    assert cp / 0x4_0000 == cp / 0x1000 / 0x40;
    assert Encode(c)[0] == s[0] && Encode(c)[1] == s[1] && Encode(c)[2] == s[2] && Encode(c)[3] == s[3];
  }
}
