/**
 * UTF-8, as `str.encode('utf-8')` and `bytes.decode('utf-8')` use it for the
 * string payloads of the segment. The decoder is strict, like Python's: it
 * rejects overlong forms, surrogates, code points above U+10FFFF and
 * truncated sequences.
 */
module Utf8 {
  import opened Wrappers
  import opened Bytes

  predicate IsCont(b: byte) { 0x80 <= b < 0xC0 }

  /** The encoding of one Unicode scalar value. */
  function EncodeChar(c: char): (r: seq<byte>)
    ensures 1 <= |r| <= 4
  {
    var n := c as int;
    if n < 0x80 then [n as byte]
    else if n < 0x800 then [(0xC0 + n / 64) as byte, (0x80 + n % 64) as byte]
    else if n < 0x10000 then
      [(0xE0 + n / 4096) as byte, (0x80 + n / 64 % 64) as byte, (0x80 + n % 64) as byte]
    else
      [(0xF0 + n / 262144) as byte, (0x80 + n / 4096 % 64) as byte,
       (0x80 + n / 64 % 64) as byte, (0x80 + n % 64) as byte]
  }

  function Encode(s: string): (r: seq<byte>)
    ensures |r| >= |s|
  {
    if s == [] then [] else EncodeChar(s[0]) + Encode(s[1..])
  }

  predicate IsScalar(n: int) { 0 <= n < 0xD800 || 0xE000 <= n < 0x11_0000 }

  /** The first scalar value of `b` and the number of bytes it takes, if `b` starts with a valid one. */
  function DecodeFirst(b: seq<byte>): (r: Option<(char, nat)>)
    requires |b| > 0
    ensures r.Some? ==> 1 <= r.value.1 <= |b| && r.value.1 <= 4
  {
    var b0 := b[0] as int;
    if b0 < 0x80 then Some((b0 as char, 1))
    else if 0xC2 <= b0 < 0xE0 && |b| >= 2 && IsCont(b[1]) then
      var n := (b0 - 0xC0) * 64 + (b[1] as int - 0x80);
      Some((n as char, 2))
    else if 0xE0 <= b0 < 0xF0 && |b| >= 3 && IsCont(b[1]) && IsCont(b[2]) then
      var n := (b0 - 0xE0) * 4096 + (b[1] as int - 0x80) * 64 + (b[2] as int - 0x80);
      if 0x800 <= n && IsScalar(n) then Some((n as char, 3)) else None
    else if 0xF0 <= b0 < 0xF5 && |b| >= 4 && IsCont(b[1]) && IsCont(b[2]) && IsCont(b[3]) then
      var n := (b0 - 0xF0) * 262144 + (b[1] as int - 0x80) * 4096 + (b[2] as int - 0x80) * 64 + (b[3] as int - 0x80);
      if 0x10000 <= n < 0x11_0000 then Some((n as char, 4)) else None
    else None
  }

  /** `bytes.decode('utf-8')`: None stands for UnicodeDecodeError. */
  function Decode(b: seq<byte>): (r: Option<string>)
    decreases |b|
  {
    if b == [] then Some([])
    else match DecodeFirst(b)
      case None => None
      case Some((c, k)) =>
        match Decode(b[k..])
        case None => None
        case Some(rest) => Some([c] + rest)
  }

  lemma DecodeFirstOfEncoded(c: char, rest: seq<byte>)
    ensures DecodeFirst(EncodeChar(c) + rest) == Some((c, |EncodeChar(c)|))
  {
    var n := c as int;
    if n < 0x80 {
    } else if n < 0x800 {
      DecodeFirstOfTwo(c, rest);
    } else if n < 0x10000 {
      DecodeFirstOfThree(c, rest);
    } else {
      DecodeFirstOfFour(c, rest);
    }
  }

  lemma DecodeFirstOfTwo(c: char, rest: seq<byte>)
    requires 0x80 <= c as int < 0x800
    ensures DecodeFirst(EncodeChar(c) + rest) == Some((c, 2))
  {
    var n := c as int;
    var x := n / 64;
    assert n == 64 * x + n % 64;
    var b := EncodeChar(c) + rest;
    assert b[0] as int == 0xC0 + x && b[1] as int == 0x80 + n % 64;
  }

  lemma DecodeFirstOfThree(c: char, rest: seq<byte>)
    requires 0x800 <= c as int < 0x10000
    ensures DecodeFirst(EncodeChar(c) + rest) == Some((c, 3))
  {
    var n := c as int;
    var x := n / 64;
    var y := x / 64;
    assert n == 64 * x + n % 64 && x == 64 * y + x % 64;
    assert n == 4096 * y + (64 * (x % 64) + n % 64);
    assert y == n / 4096;
    var b := EncodeChar(c) + rest;
    assert b[0] as int == 0xE0 + y && b[1] as int == 0x80 + x % 64 && b[2] as int == 0x80 + n % 64;
  }

  lemma DecodeFirstOfFour(c: char, rest: seq<byte>)
    requires 0x10000 <= c as int
    ensures DecodeFirst(EncodeChar(c) + rest) == Some((c, 4))
  {
    var n := c as int;
    var x := n / 64;
    var y := x / 64;
    var z := y / 64;
    assert n == 64 * x + n % 64 && x == 64 * y + x % 64 && y == 64 * z + y % 64;
    assert n == 4096 * y + (64 * (x % 64) + n % 64);
    assert y == n / 4096;
    assert n == 262144 * z + (4096 * (y % 64) + 64 * (x % 64) + n % 64);
    assert z == n / 262144;
    var b := EncodeChar(c) + rest;
    assert b[0] as int == 0xF0 + z && b[1] as int == 0x80 + y % 64;
    assert b[2] as int == 0x80 + x % 64 && b[3] as int == 0x80 + n % 64;
  }

  lemma {:induction false} DecodeEncode(s: string)
    ensures Decode(Encode(s)) == Some(s)
  {
    if s != [] {
      var e := EncodeChar(s[0]);
      var b := Encode(s);
      assert b == e + Encode(s[1..]);
      DecodeFirstOfEncoded(s[0], Encode(s[1..]));
      assert b[|e|..] == Encode(s[1..]);
      DecodeEncode(s[1..]);
      assert [s[0]] + s[1..] == s;
    }
  }
}
