/**
 * ECMA-48 control sequences as the POSIX backend writes them: the Control
 * Sequence Introducer `ESC [`, numeric parameters in decimal separated by
 * `;`, and one final byte. A parser for the same form shows the encoding
 * loses nothing.
 */
module Ecma48 {
  import opened Ints
  import opened Wrappers

  const ESC: byte := 0x1B
  const LEFT_BRACKET: byte := 0x5B
  const SEMICOLON: byte := 0x3B
  const DIGIT_ZERO: byte := 0x30

  /** Final bytes (ECMA-48 section 8.3). */
  const CUU: byte := 0x41  // 'A', cursor up, 8.3.22
  const CUD: byte := 0x42  // 'B', cursor down, 8.3.19
  const CUF: byte := 0x43  // 'C', cursor forward, 8.3.20
  const CUB: byte := 0x44  // 'D', cursor backward, 8.3.18
  const CUP: byte := 0x48  // 'H', cursor position, 8.3.21
  const ED: byte := 0x4A   // 'J', erase in page, 8.3.39

  predicate IsDigit(b: byte) {
    0x30 <= b <= 0x39
  }

  predicate AllDigits(s: seq<byte>) {
    forall i :: 0 <= i < |s| ==> IsDigit(s[i])
  }

  /** Final bytes of a control sequence lie in 04/00..07/14. */
  predicate IsFinal(b: byte) {
    0x40 <= b <= 0x7E
  }

  /** A non-empty digit string without leading zeros (the only such string for 0 is "0"). */
  predicate Canonical(s: seq<byte>) {
    |s| >= 1 && AllDigits(s) && (s[0] == DIGIT_ZERO ==> |s| == 1)
  }

  /** The decimal rendering of `n` (Rust's `{}` on an unsigned integer). */
  function Decimal(n: nat): (s: seq<byte>)
    ensures Canonical(s)
    decreases n
  {
    if n < 10 then [(0x30 + n) as byte]
    else Decimal(n / 10) + [(0x30 + n % 10) as byte]
  }

  /** The number a digit string denotes. */
  function Value(s: seq<byte>): nat
    requires AllDigits(s)
  {
    if s == [] then 0
    else Value(s[..|s| - 1]) * 10 + (s[|s| - 1] as int - 0x30)
  }

  /** Reading back a rendered number gives the number. */
  lemma {:induction false} ValueOfDecimal(n: nat)
    ensures Value(Decimal(n)) == n
    decreases n
  {
    if n >= 10 {
      var s := Decimal(n);
      assert s[..|s| - 1] == Decimal(n / 10);
      ValueOfDecimal(n / 10);
    }
  }

  lemma {:induction false} CanonicalPositive(s: seq<byte>)
    requires Canonical(s) && s[0] != DIGIT_ZERO
    ensures Value(s) > 0
    decreases |s|
  {
    if |s| > 1 {
      var p := s[..|s| - 1];
      assert p[0] == s[0];
      CanonicalPositive(p);
    }
  }

  /** Rendering is onto the canonical digit strings: each is the rendering of its value. */
  lemma {:induction false} DecimalOfValue(s: seq<byte>)
    requires Canonical(s)
    ensures Decimal(Value(s)) == s
    decreases |s|
  {
    if |s| > 1 {
      var p := s[..|s| - 1];
      assert p[0] == s[0];
      assert Canonical(p);
      CanonicalPositive(p);
      DecimalOfValue(p);
      assert s == p + [s[|s| - 1]];
    }
  }

  /** The parameter string: the decimals of `ps` separated by `;`. */
  function Parameters(ps: seq<nat>): seq<byte>
    decreases |ps|
  {
    if ps == [] then []
    else if |ps| == 1 then Decimal(ps[0])
    else Decimal(ps[0]) + [SEMICOLON] + Parameters(ps[1..])
  }

  /** Two parameters are written `P1;P2`. */
  lemma ParametersOfTwo(a: nat, b: nat)
    ensures Parameters([a, b]) == Decimal(a) + [SEMICOLON] + Decimal(b)
  {
    assert [a, b][1..] == [b];
  }

  /** `ESC [ P1 ; ... ; Pn F`. */
  function ControlSequence(ps: seq<nat>, final: byte): seq<byte> {
    [ESC, LEFT_BRACKET] + Parameters(ps) + [final]
  }

  /** The position of the first `b` in `s`. */
  function IndexOf(s: seq<byte>, b: byte): (i: nat)
    requires b in s
    ensures i < |s| && s[i] == b && b !in s[..i]
  {
    if s[0] == b then 0 else 1 + IndexOf(s[1..], b)
  }

  /** The fields of a parameter string, split at every `;`. */
  function Split(s: seq<byte>): (fields: seq<seq<byte>>)
    ensures |fields| >= 1
    decreases |s|
  {
    if SEMICOLON in s then
      var i := IndexOf(s, SEMICOLON);
      [s[..i]] + Split(s[i + 1..])
    else [s]
  }

  /** The numeric values of the fields, when each is a non-empty digit string. */
  function Values(fields: seq<seq<byte>>): Option<seq<nat>>
    decreases |fields|
  {
    if fields == [] then Some([])
    else if |fields[0]| >= 1 && AllDigits(fields[0]) then
      match Values(fields[1..])
      case Some(rest) => Some([Value(fields[0])] + rest)
      case None => None
    else None
  }

  /** Parses one complete control sequence with numeric parameters. */
  function Parse(s: seq<byte>): Option<(seq<nat>, byte)> {
    if |s| >= 3 && s[0] == ESC && s[1] == LEFT_BRACKET && IsFinal(s[|s| - 1]) then
      match Values(Split(s[2..|s| - 1]))
      case Some(ps) => Some((ps, s[|s| - 1]))
      case None => None
    else None
  }

  lemma DigitsHaveNoSeparator(d: seq<byte>)
    requires AllDigits(d)
    ensures SEMICOLON !in d
  {
  }

  lemma SplitAfterDigits(d: seq<byte>, rest: seq<byte>)
    requires AllDigits(d)
    ensures Split(d + [SEMICOLON] + rest) == [d] + Split(rest)
  {
    var s := d + [SEMICOLON] + rest;
    assert s[|d|] == SEMICOLON;
    var i := IndexOf(s, SEMICOLON);
    assert s[..i] == d;
    assert s[i + 1..] == rest;
  }

  lemma ValuesCons(d: seq<byte>, fields: seq<seq<byte>>, ps: seq<nat>)
    requires |d| >= 1 && AllDigits(d) && Values(fields) == Some(ps)
    ensures Values([d] + fields) == Some([Value(d)] + ps)
  {
    assert ([d] + fields)[1..] == fields;
  }

  lemma {:induction false} ValuesOfParameters(ps: seq<nat>)
    requires |ps| >= 1
    ensures Values(Split(Parameters(ps))) == Some(ps)
    decreases |ps|
  {
    var d := Decimal(ps[0]);
    ValueOfDecimal(ps[0]);
    if |ps| == 1 {
      DigitsHaveNoSeparator(d);
      ValuesCons(d, [], []);
      assert [d] + [] == Split(Parameters(ps));
      assert [ps[0]] + [] == ps;
    } else {
      SplitAfterDigits(d, Parameters(ps[1..]));
      ValuesOfParameters(ps[1..]);
      ValuesCons(d, Split(Parameters(ps[1..])), ps[1..]);
      assert [ps[0]] + ps[1..] == ps;
    }
  }

  /** Every control sequence with at least one parameter parses back to its parameters and final byte. */
  lemma ParseControlSequence(ps: seq<nat>, final: byte)
    requires |ps| >= 1 && IsFinal(final)
    ensures Parse(ControlSequence(ps, final)) == Some((ps, final))
  {
    var s := ControlSequence(ps, final);
    assert s[2..|s| - 1] == Parameters(ps);
    ValuesOfParameters(ps);
  }
}
