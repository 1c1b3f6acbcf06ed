/** The GSM 7-bit default alphabet and its extension table
    (3GPP TS 23.038 section 6.2.1), for whole message bodies. */
module Gsm7 {
  import opened Common
  import opened Septets

  const ESC: Septet := 0x1B

  // ---- One character ----

  /** Septets of a code point outside ASCII. */
  function EncodeLatin(cp: nat): seq<Septet> {
    if cp == 0xA1 then [0x40] else if cp == 0xA3 then [0x01] else if cp == 0xA4 then [0x24]
    else if cp == 0xA5 then [0x03] else if cp == 0xA7 then [0x5F] else if cp == 0xBF then [0x60]
    else if cp == 0xC4 then [0x5B] else if cp == 0xC5 then [0x0E] else if cp == 0xC6 then [0x1C]
    else if cp == 0xC7 then [0x09] else if cp == 0xC9 then [0x1F] else if cp == 0xD1 then [0x5D]
    else if cp == 0xD6 then [0x5C] else if cp == 0xD8 then [0x0B] else if cp == 0xDC then [0x5E]
    else if cp == 0xDF then [0x1E] else if cp == 0xE0 then [0x7F] else if cp == 0xE4 then [0x7B]
    else if cp == 0xE5 then [0x0F] else if cp == 0xE6 then [0x1D] else if cp == 0xE8 then [0x04]
    else if cp == 0xE9 then [0x05] else if cp == 0xEC then [0x07] else if cp == 0xF1 then [0x7D]
    else if cp == 0xF2 then [0x08] else if cp == 0xF6 then [0x7C] else if cp == 0xF8 then [0x0C]
    else if cp == 0xF9 then [0x06] else if cp == 0xFC then [0x7E] else []
  }

  function EncodeGreek(cp: nat): seq<Septet> {
    if cp == 0x393 then [0x13] else if cp == 0x394 then [0x10] else if cp == 0x398 then [0x19]
    else if cp == 0x39B then [0x14] else if cp == 0x39E then [0x1A] else if cp == 0x3A0 then [0x16]
    else if cp == 0x3A3 then [0x18] else if cp == 0x3A6 then [0x12] else if cp == 0x3A8 then [0x17]
    else if cp == 0x3A9 then [0x15] else []
  }

  function EncodeAscii(cp: nat): seq<Septet> {
    if cp == 0x24 then [0x02] else if cp == 0x40 then [0x00] else if cp == 0x5F then [0x11]
    else if cp == 0x60 then []
    else if cp == 0x5B then [ESC, 0x3C] else if cp == 0x5C then [ESC, 0x2F] else if cp == 0x5D then [ESC, 0x3E]
    else if cp == 0x5E then [ESC, 0x14] else if cp == 0x7B then [ESC, 0x28] else if cp == 0x7C then [ESC, 0x40]
    else if cp == 0x7D then [ESC, 0x29] else if cp == 0x7E then [ESC, 0x3D]
    else if 0x20 <= cp <= 0x7E then [cp]
    else if cp == 0x0A then [0x0A] else if cp == 0x0D then [0x0D] else if cp == 0x0C then [ESC, 0x0A]
    else []
  }

  /** Zero, one or two septets. */
  function EncodeChar(c: char): (s: seq<Septet>)
    ensures |s| <= 2
  {
    var cp := c as int;
    if cp < 0x80 then EncodeAscii(cp)
    else if cp < 0x100 then EncodeLatin(cp)
    else if cp < 0x400 then EncodeGreek(cp)
    else if cp == 0x20AC then [ESC, 0x65]
    else []
  }

  /** The default alphabet, by septet value. */
  function Basic(s: Septet): char {
    if s < 0x10 then BasicLow(s)
    else if s < 0x20 then BasicHigh(s)
    else if s == 0x24 then '\U{A4}' else if s == 0x40 then '\U{A1}'
    else if s == 0x5B then '\U{C4}' else if s == 0x5C then '\U{D6}' else if s == 0x5D then '\U{D1}'
    else if s == 0x5E then '\U{DC}' else if s == 0x5F then '\U{A7}' else if s == 0x60 then '\U{BF}'
    else if s == 0x7B then '\U{E4}' else if s == 0x7C then '\U{F6}' else if s == 0x7D then '\U{F1}'
    else if s == 0x7E then '\U{FC}' else if s == 0x7F then '\U{E0}'
    else s as char
  }

  function BasicLow(s: Septet): char {
    if s == 0 then '@' else if s == 1 then '\U{A3}' else if s == 2 then '$' else if s == 3 then '\U{A5}'
    else if s == 4 then '\U{E8}' else if s == 5 then '\U{E9}' else if s == 6 then '\U{F9}' else if s == 7 then '\U{EC}'
    else if s == 8 then '\U{F2}' else if s == 9 then '\U{C7}' else if s == 0x0A then '\n'
    else if s == 0x0B then '\U{D8}'
    else if s == 0x0C then '\U{F8}' else if s == 0x0D then '\r' else if s == 0x0E then '\U{C5}' else '\U{E5}'
  }

  function BasicHigh(s: Septet): char {
    if s == 0x10 then '\U{394}' else if s == 0x11 then '_' else if s == 0x12 then '\U{3A6}'
    else if s == 0x13 then '\U{393}'
    else if s == 0x14 then '\U{39B}' else if s == 0x15 then '\U{3A9}' else if s == 0x16 then '\U{3A0}'
    else if s == 0x17 then '\U{3A8}' else if s == 0x18 then '\U{3A3}' else if s == 0x19 then '\U{398}'
    else if s == 0x1A then '\U{39E}' else if s == 0x1B then '\U{1B}' else if s == 0x1C then '\U{C6}'
    else if s == 0x1D then '\U{E6}' else if s == 0x1E then '\U{DF}' else '\U{C9}'
  }

  /** The extension table; a code it does not define reads as a space. */
  function Extension(s: Septet): char {
    if s == 0x0A then '\U{0C}' else if s == 0x14 then '^' else if s == 0x28 then '{' else if s == 0x29 then '}'
    else if s == 0x2F then '\\' else if s == 0x3C then '[' else if s == 0x3D then '~' else if s == 0x3E then ']'
    else if s == 0x40 then '|' else if s == 0x65 then '\U{20AC}' else ' '
  }

  /** What decoding makes of the septets of one character. */
  ghost predicate DecodesTo(s: seq<Septet>, c: char) {
    || (|s| == 1 && s[0] != ESC && Basic(s[0]) == c)
    || (|s| == 2 && s[0] == ESC && s[1] != ESC && Extension(s[1]) == c)
  }

  lemma AsciiDecodes(c: char)
    requires c as int < 0x80 && EncodeAscii(c as int) != []
    ensures DecodesTo(EncodeAscii(c as int), c)
  {}

  lemma LatinDecodes(c: char)
    requires EncodeLatin(c as int) != []
    ensures DecodesTo(EncodeLatin(c as int), c)
  {}

  lemma GreekDecodes(c: char)
    requires EncodeGreek(c as int) != []
    ensures DecodesTo(EncodeGreek(c as int), c)
  {}

  lemma CharDecodes(c: char)
    requires EncodeChar(c) != []
    ensures DecodesTo(EncodeChar(c), c)
  {
    hide EncodeAscii, EncodeLatin, EncodeGreek, Basic;
    var cp := c as int;
    if cp < 0x80 { AsciiDecodes(c); } else if cp < 0x100 { LatinDecodes(c); } else if cp < 0x400 { GreekDecodes(c); }
  }

  // ---- Whole bodies ----

  function EncodeBody(body: string): Option<seq<Septet>> {
    if body == [] then Some([])
    else
      var head := EncodeChar(body[0]);
      if head == [] then None
      else match EncodeBody(body[1..])
        case None => None
        case Some(rest) => Some(head + rest)
  }

  method EncodeGsm7Body(body: string) returns (r: Option<seq<Septet>>)
    ensures r == EncodeBody(body)
  {
    hide EncodeChar;
    var out: seq<Septet> := [];
    assert body[0..] == body;
    PrependNothing(EncodeBody(body));
    for i := 0 to |body|
      invariant EncodeBody(body) == Prepend(out, EncodeBody(body[i..]))
    {
      var septets := EncodeChar(body[i]);
      assert body[i..][1..] == body[i + 1..];
      if septets == [] {
        return None;
      }
      PrependMore(out, septets, EncodeBody(body[i + 1..]));
      out := out + septets;
    }
    assert out + [] == out;
    return Some(out);
  }

  function Prepend(out: seq<Septet>, rest: Option<seq<Septet>>): Option<seq<Septet>> {
    match rest
    case None => None
    case Some(s) => Some(out + s)
  }

  lemma PrependNothing(r: Option<seq<Septet>>)
    ensures Prepend([], r) == r
  {
    if r.Some? { assert [] + r.value == r.value; }
  }

  lemma PrependMore(out: seq<Septet>, head: seq<Septet>, rest: Option<seq<Septet>>)
    ensures Prepend(out + head, rest) == Prepend(out, Prepend(head, rest))
  {
    if rest.Some? { assert (out + head) + rest.value == out + (head + rest.value); }
  }

  function DecodeSeptets(s: seq<Septet>): string {
    if s == [] then ""
    else if s[0] == ESC then (if |s| == 1 then "" else [Extension(s[1])] + DecodeSeptets(s[2..]))
    else [Basic(s[0])] + DecodeSeptets(s[1..])
  }

  method SeptetsToText(septets: seq<Septet>) returns (out: string)
    ensures out == DecodeSeptets(septets)
  {
    hide Basic, Extension, DecodeSeptets;
    out := "";
    var i := 0;
    while i < |septets|
      invariant i <= |septets|
      invariant DecodeSeptets(septets) == out + DecodeSeptets(septets[i..])
    {
      DecodeAt(septets, i);
      var s := septets[i];
      if s == ESC {
        i := i + 1;
        if i < |septets| {
          Associate(out, [Extension(septets[i])], DecodeSeptets(septets[i + 1..]));
          out := out + [Extension(septets[i])];
        } else {
          DecodeAt(septets, i);
          break;
        }
      } else {
        Associate(out, [Basic(s)], DecodeSeptets(septets[i + 1..]));
        out := out + [Basic(s)];
      }
      i := i + 1;
    }
    DecodeAt(septets, i);
  }

  lemma DecodeAt(s: seq<Septet>, i: nat)
    requires i <= |s|
    ensures s[0..] == s
    ensures DecodeSeptets(s[i..]) ==
      if i == |s| then ""
      else if s[i] == ESC then (if i + 1 == |s| then "" else [Extension(s[i + 1])] + DecodeSeptets(s[i + 2..]))
      else [Basic(s[i])] + DecodeSeptets(s[i + 1..])
  {
    hide Basic, Extension;
    if i < |s| {
      assert s[i..][1..] == s[i + 1..];
      if i + 1 < |s| { assert s[i..][2..] == s[i + 2..]; }
    }
  }

  /** Every escape is followed by its code, and no code is itself an escape. */
  ghost predicate EscapesPaired(s: seq<Septet>) {
    forall i :: 0 <= i < |s| && s[i] == ESC ==> i + 1 < |s| && s[i + 1] != ESC
  }

  lemma {:induction false} EncodedIsPaired(body: string)
    requires EncodeBody(body).Some?
    ensures EscapesPaired(EncodeBody(body).value)
  {
    hide EncodeChar, Basic, Extension;
    if body != [] {
      CharDecodes(body[0]);
      EncodedIsPaired(body[1..]);
      var head, rest := EncodeChar(body[0]), EncodeBody(body[1..]).value;
      var s := head + rest;
      forall i | 0 <= i < |s| && s[i] == ESC ensures i + 1 < |s| && s[i + 1] != ESC {
        if i >= |head| { assert rest[i - |head|] == ESC; }
      }
    }
  }

  /** Decoding undoes encoding, for every body the alphabet can hold. */
  lemma {:induction false} DecodeEncode(body: string)
    requires EncodeBody(body).Some?
    ensures DecodeSeptets(EncodeBody(body).value) == body
  {
    hide EncodeChar, Basic, Extension;
    if body != [] {
      CharDecodes(body[0]);
      DecodeEncode(body[1..]);
      var head, rest := EncodeChar(body[0]), EncodeBody(body[1..]).value;
      assert (head + rest)[|head|..] == rest;
      assert body == [body[0]] + body[1..];
    }
  }

  /** Decoding may be done piece by piece as long as no piece ends inside an escape. */
  lemma {:induction false} DecodeConcat(a: seq<Septet>, b: seq<Septet>)
    requires EscapesPaired(a)
    ensures DecodeSeptets(a + b) == DecodeSeptets(a) + DecodeSeptets(b)
    decreases |a|
  {
    hide Basic, Extension;
    if a == [] {
      assert a + b == b;
    } else if a[0] == ESC {
      assert (a + b)[2..] == a[2..] + b;
      DecodeConcat(a[2..], b);
      Associate([Extension(a[1])], DecodeSeptets(a[2..]), DecodeSeptets(b));
    } else {
      assert (a + b)[1..] == a[1..] + b;
      DecodeConcat(a[1..], b);
      Associate([Basic(a[0])], DecodeSeptets(a[1..]), DecodeSeptets(b));
    }
  }

  // ---- What the decoder makes of every code ----

  lemma LowIsEncoded(s: Septet)
    requires s < 0x20 && s != ESC
    ensures EncodeChar(Basic(s)) == [s]
  {}

  lemma AsciiIsEncoded(s: Septet)
    requires 0x20 <= s < 0x40 || 0x41 <= s < 0x5B || 0x61 <= s < 0x7B
    ensures EncodeChar(Basic(s)) == [s]
  {}

  lemma OtherIsEncoded(s: Septet)
    requires s == 0x40 || 0x5B <= s <= 0x60 || 0x7B <= s
    ensures EncodeChar(Basic(s)) == [s]
  {}

  /** Every code but the escape is the code of the character it decodes to: the alphabet has no
      code that the encoder lacks. */
  lemma CodeIsEncoded(s: Septet)
    requires s != ESC
    ensures EncodeChar(Basic(s)) == [s]
  {
    hide EncodeChar, Basic;
    if s < 0x20 {
      LowIsEncoded(s);
    } else if s == 0x40 || 0x5B <= s <= 0x60 || 0x7B <= s {
      OtherIsEncoded(s);
    } else {
      AsciiIsEncoded(s);
    }
  }

  /** The same behind the escape; a code that no character has there is shown as a space. */
  lemma ExtensionIsEncoded(s: Septet)
    ensures EncodeChar(Extension(s)) == [ESC, s] || Extension(s) == ' '
    ensures Extension(s) == ' ' <==> forall c :: EncodeChar(c) != [ESC, s]
  {
    hide EncodeAscii, EncodeLatin, EncodeGreek, EncodeChar, Basic;
    ExtensionCode(s);
    forall c | EncodeChar(c) == [ESC, s] ensures Extension(s) == c != ' ' {
      CharDecodes(c);
      SpaceIsBasic();
    }
  }

  lemma SpaceIsBasic()
    ensures EncodeChar(' ') == [0x20]
  {}

  lemma ExtensionCode(s: Septet)
    ensures Extension(s) == ' ' || EncodeChar(Extension(s)) == [ESC, s]
  {}

  /** An escape with nothing behind it is dropped. */
  lemma DanglingEscape(s: seq<Septet>)
    requires EscapesPaired(s)
    ensures DecodeSeptets(s + [ESC]) == DecodeSeptets(s)
  {
    hide Basic, Extension, EscapesPaired;
    DecodeConcat(s, [ESC]);
    assert DecodeSeptets(s) + "" == DecodeSeptets(s);
  }
}
