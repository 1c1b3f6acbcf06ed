/** UTF-8, as `str::as_bytes` writes it and `core::str::from_utf8` accepts it. */
module Utf8 {
  import opened Common

  function CharLen(c: char): (n: nat)
    ensures 1 <= n <= 4
  {
    var u := c as int;
    if u < 0x80 then 1 else if u < 0x800 then 2 else if u < 0x10000 then 3 else 4
  }

  function EncodeChar(c: char): (b: seq<Byte>)
    ensures |b| == CharLen(c)
  {
    var u := c as int;
    if u < 0x80 then [u]
    else if u < 0x800 then [0xC0 + u / 64, 0x80 + u % 64]
    else if u < 0x10000 then [0xE0 + u / 64 / 64, 0x80 + u / 64 % 64, 0x80 + u % 64]
    else [0xF0 + u / 64 / 64 / 64, 0x80 + u / 64 / 64 % 64, 0x80 + u / 64 % 64, 0x80 + u % 64]
  }

  function Encode(s: string): seq<Byte> {
    if s == [] then [] else EncodeChar(s[0]) + Encode(s[1..])
  }

  predicate IsContinuation(b: Byte) {
    0x80 <= b < 0xC0
  }

  /** The first character of `b`, and how many bytes it takes.  Overlong forms,
      surrogates and values above U+10FFFF are refused. */
  function DecodeOne(b: seq<Byte>): (r: Option<(char, nat)>)
    ensures r.Some? ==> 1 <= r.value.1 <= |b|
  {
    if |b| == 0 then None
    else if b[0] < 0x80 then Some((b[0] as char, 1))
    else if 0xC0 <= b[0] < 0xE0 && |b| >= 2 && IsContinuation(b[1]) then
      var u := (b[0] as int - 0xC0) * 64 + (b[1] as int - 0x80);
      if u < 0x80 then None else Some((u as char, 2))
    else if 0xE0 <= b[0] < 0xF0 && |b| >= 3 && IsContinuation(b[1]) && IsContinuation(b[2]) then
      var u := (b[0] as int - 0xE0) * 4096 + (b[1] as int - 0x80) * 64 + (b[2] as int - 0x80);
      if u < 0x800 || 0xD800 <= u < 0xE000 then None else Some((u as char, 3))
    else if 0xF0 <= b[0] < 0xF8 && |b| >= 4
         && IsContinuation(b[1]) && IsContinuation(b[2]) && IsContinuation(b[3]) then
      var u := (b[0] as int - 0xF0) * 262144 + (b[1] as int - 0x80) * 4096 +
              (b[2] as int - 0x80) * 64 + (b[3] as int - 0x80);
      if u < 0x10000 || u >= 0x110000 then None else Some((u as char, 4))
    else None
  }

  function Decode(b: seq<Byte>): Option<string> {
    if b == [] then Some([])
    else match DecodeOne(b)
      case None => None
      case Some((c, n)) =>
        match Decode(b[n..])
        case None => None
        case Some(rest) => Some([c] + rest)
  }

  lemma DecodeOneEncodeChar(c: char, rest: seq<Byte>)
    ensures DecodeOne(EncodeChar(c) + rest) == Some((c, CharLen(c)))
  {
    var u := c as int;
    var b := EncodeChar(c) + rest;
    SixBitDigits(u);
    if u < 0x80 {
    } else if u < 0x800 {
      assert b[0] == 0xC0 + u / 64 && b[1] == 0x80 + u % 64;
    } else if u < 0x10000 {
      assert b[0] == 0xE0 + u / 64 / 64 && b[1] == 0x80 + u / 64 % 64 && b[2] == 0x80 + u % 64;
    } else {
      assert b[0] == 0xF0 + u / 64 / 64 / 64 && b[1] == 0x80 + u / 64 / 64 % 64;
      assert b[2] == 0x80 + u / 64 % 64 && b[3] == 0x80 + u % 64;
    }
  }

  lemma SixBitDigits(u: nat)
    ensures u == u / 64 * 64 + u % 64
    ensures u == u / 64 / 64 * 4096 + u / 64 % 64 * 64 + u % 64
    ensures u == u / 64 / 64 / 64 * 262144 + u / 64 / 64 % 64 * 4096 + u / 64 % 64 * 64 + u % 64
  {}

  lemma {:induction false} RoundTrip(s: string)
    ensures Decode(Encode(s)) == Some(s)
  {
    if s != [] {
      var head, tail := EncodeChar(s[0]), Encode(s[1..]);
      DecodeOneEncodeChar(s[0], tail);
      assert (head + tail)[CharLen(s[0])..] == tail;
      RoundTrip(s[1..]);
      assert s == [s[0]] + s[1..];
    }
  }

  lemma {:induction false} EncodeConcat(s: string, t: string)
    ensures Encode(s + t) == Encode(s) + Encode(t)
  {
    if s == [] {
      assert s + t == t;
    } else {
      assert (s + t)[1..] == s[1..] + t;
      EncodeConcat(s[1..], t);
    }
  }

  /** No byte of an encoded string is 0xFF, so text never looks like erased flash. */
  lemma {:induction false} NoErasedByte(s: string)
    ensures forall i :: 0 <= i < |Encode(s)| ==> Encode(s)[i] != 0xFF
  {
    if s != [] { NoErasedByte(s[1..]); }
  }
}
