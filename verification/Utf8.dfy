/** UTF-8 (RFC 3629), the byte form of every frozen JSON object. */
module Utf8 {
  import opened Basics

  type byte = u8

  function EncodeChar(c: char): (b: seq<byte>)
    ensures b != []
  {
    var n := c as int;
    if n < 0x80 then [n]
    else if n < 0x800 then [0xC0 + n / 64, 0x80 + n % 64]
    else if n < 0x1_0000 then [0xE0 + n / 4096, 0x80 + n / 64 % 64, 0x80 + n % 64]
    else [0xF0 + n / 262144, 0x80 + n / 4096 % 64, 0x80 + n / 64 % 64, 0x80 + n % 64]
  }

  function Encode(s: string): seq<byte> {
    if s == "" then [] else EncodeChar(s[0]) + Encode(s[1..])
  }

  predicate IsContinuation(b: byte) {
    0x80 <= b < 0xC0
  }

  /** The payload bits of a byte, below its marker bits. */
  function Low(b: byte, marker: int): int {
    b - marker
  }

  predicate IsScalar(n: int) {
    0 <= n < 0xD800 || 0xE000 <= n < 0x11_0000
  }

  /** The first character of `b` and the number of bytes it takes; overlong forms and surrogates are refused. */
  function DecodeChar(b: seq<byte>): (r: Result<(char, nat)>)
    requires b != []
    ensures r.Success? ==> 0 < r.value.1 <= |b|
  {
    if b[0] < 0x80 then Success((b[0] as char, 1))
    else if 0xC0 <= b[0] < 0xE0 then
      if |b| < 2 || !IsContinuation(b[1]) then Failure
      else
        var n := Low(b[0], 0xC0) * 64 + Low(b[1], 0x80);
        if n < 0x80 then Failure else Success((n as char, 2))
    else if 0xE0 <= b[0] < 0xF0 then
      if |b| < 3 || !IsContinuation(b[1]) || !IsContinuation(b[2]) then Failure
      else
        var n := Low(b[0], 0xE0) * 4096 + Low(b[1], 0x80) * 64 + Low(b[2], 0x80);
        if n < 0x800 || !IsScalar(n) then Failure else Success((n as char, 3))
    else if 0xF0 <= b[0] < 0xF8 then
      if |b| < 4 || !IsContinuation(b[1]) || !IsContinuation(b[2]) || !IsContinuation(b[3]) then Failure
      else
        var n := Low(b[0], 0xF0) * 262144 + Low(b[1], 0x80) * 4096 + Low(b[2], 0x80) * 64 + Low(b[3], 0x80);
        if n < 0x1_0000 || !IsScalar(n) then Failure else Success((n as char, 4))
    else Failure
  }

  function Decode(b: seq<byte>): Result<string> {
    if b == [] then Success("")
    else
      var first :- DecodeChar(b);
      var rest :- Decode(b[first.1..]);
      Success([first.0] + rest)
  }

  lemma CharRoundTrip(c: char, rest: seq<byte>)
    ensures DecodeChar(EncodeChar(c) + rest) == Success((c, |EncodeChar(c)|))
  {
    var n := c as int;
    var b := EncodeChar(c) + rest;
    if n < 0x80 {
    } else if n < 0x800 {
      assert b[1] == 0x80 + n % 64;
    } else if n < 0x1_0000 {
      assert b[1] == 0x80 + n / 64 % 64 && b[2] == 0x80 + n % 64;
      assert Low(b[0], 0xE0) == n / 4096;
      assert n / 4096 == n / 64 / 64;
    } else {
      assert b[1] == 0x80 + n / 4096 % 64 && b[2] == 0x80 + n / 64 % 64 && b[3] == 0x80 + n % 64;
      assert Low(b[0], 0xF0) == n / 262144;
      assert n / 262144 == n / 4096 / 64 && n / 4096 == n / 64 / 64;
    }
  }

  /** Decoding undoes encoding, so `Encode` is injective. */
  lemma {:induction false} RoundTrip(s: string)
    ensures Decode(Encode(s)) == Success(s)
  {
    if s != "" {
      var b := EncodeChar(s[0]);
      CharRoundTrip(s[0], Encode(s[1..]));
      RoundTrip(s[1..]);
      assert s == [s[0]] + s[1..];
      assert (b + Encode(s[1..]))[|b|..] == Encode(s[1..]);
    }
  }

  lemma {:induction false} EncodeAppend(a: string, b: string)
    ensures Encode(a + b) == Encode(a) + Encode(b)
  {
    hide EncodeChar;
    if a == "" {
      assert a + b == b;
    } else {
      EncodeAppend(a[1..], b);
      assert (a + b)[1..] == a[1..] + b;
      assert Encode(a + b) == EncodeChar(a[0]) + Encode(a[1..] + b);
    }
  }
}
