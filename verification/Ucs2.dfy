/** Bodies outside the GSM alphabet: two octets per UTF-16 unit, cut so that no surrogate
    pair is split between parts. */
module Ucs2 {
  import opened Common
  import opened UserData

  function UnitOctets(u: nat): (s: seq<Byte>)
    requires u < 0x10000
    ensures |s| == 2
  {
    [u / 256, u % 256]
  }

  /** One UTF-16 unit, or a surrogate pair above U+FFFF. */
  function CharOctets(c: char): (s: seq<Byte>)
    ensures |s| == 2 * CharUnits(c)
  {
    var cp := c as int;
    if cp < 0x10000 then UnitOctets(cp)
    else UnitOctets(0xD800 + (cp - 0x10000) / 1024) + UnitOctets(0xDC00 + (cp - 0x10000) % 1024)
  }

  function CharUnits(c: char): nat {
    if c as int < 0x10000 then 1 else 2
  }

  function Encode(body: string): seq<Byte> {
    if body == [] then [] else CharOctets(body[0]) + Encode(body[1..])
  }

  method EncodeBody(body: string) returns (out: seq<Byte>)
    ensures out == Encode(body)
  {
    hide CharOctets;
    out := [];
    for i := 0 to |body|
      invariant out + Encode(body[i..]) == Encode(body)
    {
      assert body[i..][1..] == body[i + 1..];
      Associate(out, CharOctets(body[i]), Encode(body[i + 1..]));
      out := out + CharOctets(body[i]);
    }
  }

  /** What the decoder makes of the octets of one character, whatever follows. */
  lemma CharDecodes(c: char, rest: seq<Byte>)
    ensures DecodeUcs2(CharOctets(c) + rest) == [c] + DecodeUcs2(rest)
  {
    var s := CharOctets(c) + rest;
    var cp := c as int;
    assert s[|CharOctets(c)|..] == rest;
    if cp < 0x10000 {
      assert UnitAt(s, 0) == cp;
    } else {
      assert UnitAt(s, 0) == 0xD800 + (cp - 0x10000) / 1024;
      assert UnitAt(s, 2) == 0xDC00 + (cp - 0x10000) % 1024;
    }
  }

  /** Decoding undoes encoding for every body. */
  lemma {:induction false} DecodeEncode(body: string)
    ensures DecodeUcs2(Encode(body)) == body
  {
    hide CharOctets;
    if body != [] {
      CharDecodes(body[0], Encode(body[1..]));
      DecodeEncode(body[1..]);
      assert body == [body[0]] + body[1..];
    }
  }

  // ---- Splitting ----

  function ChunkLen(b: seq<Byte>): (n: nat)
    requires b != []
    ensures 1 <= n <= |b| && n <= 134
  {
    if |b| <= 134 then |b| else if IsHigh(UnitAt(b, 132)) then 132 else 134
  }

  function Chunks(b: seq<Byte>): seq<seq<Byte>> {
    if b == [] then [] else [b[..ChunkLen(b)]] + Chunks(b[ChunkLen(b)..])
  }

  lemma ChunksStep(b: seq<Byte>)
    requires b != []
    ensures Chunks(b) == [b[..ChunkLen(b)]] + Chunks(b[ChunkLen(b)..])
  {}

  lemma NoChunks()
    ensures Chunks([]) == []
  {}

  method Split(ucs2: seq<Byte>) returns (chunks: seq<seq<Byte>>)
    ensures chunks == Chunks(ucs2)
  {
    hide Chunks;
    chunks := [];
    var pos := 0;
    while pos < |ucs2|
      invariant pos <= |ucs2|
      invariant chunks + Chunks(ucs2[pos..]) == Chunks(ucs2)
    {
      var remaining := |ucs2| - pos;
      var chunk := Min(remaining, 134);
      if chunk == 134 && remaining > 134 {
        if IsHigh(UnitAt(ucs2, pos + 132)) {
          chunk := 132;
        }
      }
      ChunksStep(ucs2[pos..]);
      assert chunk == ChunkLen(ucs2[pos..]);
      assert ucs2[pos..][..chunk] == ucs2[pos..pos + chunk];
      assert ucs2[pos..][chunk..] == ucs2[pos + chunk..];
      Associate(chunks, [ucs2[pos..pos + chunk]], Chunks(ucs2[pos + chunk..]));
      chunks := chunks + [ucs2[pos..pos + chunk]];
      pos := pos + chunk;
    }
    assert ucs2[pos..] == [];
    NoChunks();
  }

  lemma {:induction false} ChunkSizes(b: seq<Byte>)
    ensures forall i :: 0 <= i < |Chunks(b)| ==> 1 <= |Chunks(b)[i]| <= 134
  {
    if b != [] { ChunkSizes(b[ChunkLen(b)..]); }
  }

  /** Whole units, each high surrogate followed by its low one. */
  predicate PairsWhole(b: seq<Byte>) {
    b == [] || (|b| >= 2 && (IsHigh(UnitAt(b, 0)) ==> |b| >= 4 && IsLow(UnitAt(b, 2))) && PairsWhole(b[2..]))
  }

  lemma CharIsWhole(c: char)
    ensures PairsWhole(CharOctets(c))
    ensures c as int >= 0x10000 ==> IsHigh(UnitAt(CharOctets(c), 0))
  {
    var b := CharOctets(c);
    if c as int >= 0x10000 {
      assert UnitAt(b[2..], 0) == UnitAt(b, 2);
      assert PairsWhole(b[2..][2..]);
    }
  }

  lemma {:induction false} EncodedIsWhole(body: string)
    ensures PairsWhole(Encode(body))
  {
    hide CharOctets;
    if body != [] {
      CharIsWhole(body[0]);
      EncodedIsWhole(body[1..]);
      WholeConcat(CharOctets(body[0]), Encode(body[1..]));
    }
  }

  lemma {:induction false} WholeConcat(a: seq<Byte>, b: seq<Byte>)
    requires PairsWhole(a) && PairsWhole(b)
    ensures PairsWhole(a + b)
    decreases |a|
  {
    if a == [] {
      assert a + b == b;
    } else {
      assert (a + b)[2..] == a[2..] + b;
      WholeConcat(a[2..], b);
    }
  }

  lemma {:induction false} WholeSuffix(b: seq<Byte>, n: nat)
    requires PairsWhole(b) && n <= |b| && n % 2 == 0
    ensures PairsWhole(b[n..])
  {
    if n > 0 {
      assert b[2..][n - 2..] == b[n..];
      WholeSuffix(b[2..], n - 2);
    }
  }

  lemma {:induction false} WholeIsEven(b: seq<Byte>)
    requires PairsWhole(b)
    ensures |b| % 2 == 0
  {
    if b != [] { WholeIsEven(b[2..]); }
  }

  /** A cut in front of which no high surrogate stands leaves whole pairs before it. */
  lemma {:induction false} WholePrefix(b: seq<Byte>, n: nat)
    requires PairsWhole(b) && 2 <= n <= |b| && n % 2 == 0 && !IsHigh(UnitAt(b, n - 2))
    ensures PairsWhole(b[..n])
  {
    var p := b[..n];
    if n == 2 {
      assert p[2..] == [];
    } else {
      assert b[2..][..n - 2] == p[2..];
      assert UnitAt(b[2..], n - 4) == UnitAt(b, n - 2);
      WholePrefix(b[2..], n - 2);
    }
  }

  /** The unit after a high surrogate is a low one. */
  lemma {:induction false} HighThenLow(b: seq<Byte>, k: nat)
    requires PairsWhole(b) && k % 2 == 0 && k + 3 < |b| && IsHigh(UnitAt(b, k))
    ensures IsLow(UnitAt(b, k + 2))
  {
    if k > 0 {
      assert UnitAt(b[2..], k - 2) == UnitAt(b, k);
      assert UnitAt(b[2..], k) == UnitAt(b, k + 2);
      HighThenLow(b[2..], k - 2);
    }
  }

  lemma ChunkIsWhole(b: seq<Byte>)
    requires b != [] && PairsWhole(b)
    ensures ChunkLen(b) % 2 == 0 && PairsWhole(b[..ChunkLen(b)])
  {
    hide PairsWhole;
    WholeIsEven(b);
    if |b| <= 134 {
      assert b[..|b|] == b;
    } else if IsHigh(UnitAt(b, 132)) {
      if IsHigh(UnitAt(b, 130)) { HighThenLow(b, 130); }
      WholePrefix(b, 132);
    } else {
      WholePrefix(b, 134);
    }
  }

  /** The chunks are the body, in order, and no surrogate pair is cut. */
  lemma {:induction false} ChunksAreWhole(b: seq<Byte>)
    requires PairsWhole(b)
    ensures Flatten(Chunks(b)) == b
    ensures forall i :: 0 <= i < |Chunks(b)| ==> PairsWhole(Chunks(b)[i])
  {
    hide PairsWhole, ChunkLen;
    if b != [] {
      var n := ChunkLen(b);
      ChunkIsWhole(b);
      WholeSuffix(b, n);
      ChunksAreWhole(b[n..]);
      assert b == b[..n] + b[n..];
    }
  }

  lemma FirstOfConcat(a: seq<Byte>, b: seq<Byte>)
    requires a != [] && PairsWhole(a)
    ensures CharLen(a + b) == CharLen(a) && CharText(a + b) == CharText(a)
  {
    assert UnitAt(a + b, 0) == UnitAt(a, 0);
    if |a| >= 4 { assert UnitAt(a + b, 2) == UnitAt(a, 2); }
  }

  /** Decoding may be done piece by piece as long as no pair is cut. */
  lemma {:induction false} DecodeConcat(a: seq<Byte>, b: seq<Byte>)
    requires PairsWhole(a)
    ensures DecodeUcs2(a + b) == DecodeUcs2(a) + DecodeUcs2(b)
    decreases |a|
  {
    hide CharLen, CharText, UnitAt, IsHigh, IsLow;
    if a == [] {
      assert a + b == b;
    } else {
      var n := CharLen(a);
      FirstOfConcat(a, b);
      WholeSuffix(a, n);
      DecodeConcat(a[n..], b);
      assert (a + b)[n..] == a[n..] + b;
      Associate(CharText(a), DecodeUcs2(a[n..]), DecodeUcs2(b));
    }
  }

  // ---- Building ----

  function Part(chunk: seq<Byte>, refNum: Byte, total: Byte, part: Byte): Field
    requires |chunk| <= 134
  {
    Field(0x08, true, 6 + |chunk|, ConcatHeader(refNum, total, part) + chunk)
  }

  function Build(b: seq<Byte>, maxParts: nat, refNum: Byte): (fs: seq<Field>) {
    if |b| <= 140 then [Field(0x08, false, |b|, b)]
    else
      ChunkSizes(b);
      var chunks := Chunks(b);
      var total := |chunks|;
      if total > maxParts || total > 255 then []
      else seq(total, i requires 0 <= i < total => Part(chunks[i], refNum, total, i + 1))
  }

  method BuildFields(b: seq<Byte>, maxParts: nat, refNum: Byte) returns (fs: seq<Field>)
    ensures fs == Build(b, maxParts, refNum)
  {
    hide Chunks, ConcatHeader;
    if |b| <= 140 {
      return [Field(0x08, false, |b|, b)];
    }
    var chunks := Split(b);
    ChunkSizes(b);
    var total := |chunks|;
    if total > maxParts || total > 255 {
      return [];
    }
    fs := [];
    for i := 0 to total
      invariant |fs| == i && forall j :: 0 <= j < i ==> fs[j] == Part(chunks[j], refNum, total, j + 1)
    {
      var ud := ConcatHeader(refNum, total, i + 1) + chunks[i];
      fs := fs + [Field(0x08, true, 6 + |chunks[i]|, ud)];
    }
  }

  lemma PartParses(chunk: seq<Byte>, refNum: Byte, total: Byte, part: Byte)
    requires |chunk| <= 134
    ensures Parse(Part(chunk, refNum, total, part))
         == Ok(Parsed(DecodeUcs2(chunk), Elements(true, refNum, total, part, None, None)))
  {
    hide DecodeUcs2, ScanElements, ConcatHeader, Parse;
    var f := Part(chunk, refNum, total, part);
    HeaderScans(f.octets, refNum, total, part);
    FieldParses(f);
    assert f.octets[6..|f.octets|] == chunk;
  }

  lemma SingleParses(b: seq<Byte>)
    requires |b| <= 140
    ensures Parse(Field(0x08, false, |b|, b)) == Ok(Parsed(DecodeUcs2(b), NO_ELEMENTS))
  {
    hide DecodeUcs2, Parse;
    FieldParses(Field(0x08, false, |b|, b));
    assert b[0..|b|] == b;
  }

  lemma FieldParses(f: Field)
    requires f.dcs == 0x08 && f.udl == |f.octets|
    ensures !f.udhi ==> Parse(f) == Ok(Parsed(DecodeUcs2(f.octets[0..f.udl]), NO_ELEMENTS))
    ensures f.udhi && f.udl >= 6 && f.octets[0] == 5 ==>
      Parse(f) == Ok(Parsed(DecodeUcs2(f.octets[6..f.udl]), ScanElements(f.octets, 1, 6, NO_ELEMENTS)))
  {
    hide DecodeUcs2, ScanElements;
    assert AlphabetOf(f.dcs) == Alphabet.Ucs2;
    assert Extent(f) == Some(f.udl);
  }

  // ---- What the decoder makes of every sequence of units ----

  /** A character, or a surrogate that is not part of a pair. */
  datatype Unit = Whole(c: char) | Lone(u: nat)

  predicate IsUnit(x: Unit) {
    x.Lone? ==> 0xD800 <= x.u < 0xE000
  }

  function UnitBytes(x: Unit): (b: seq<Byte>)
    requires IsUnit(x)
    ensures |b| == 2 || |b| == 4
  {
    if x.Whole? then CharOctets(x.c) else UnitOctets(x.u)
  }

  /** No two units in a row that would be read as a pair. */
  predicate Apart(x: Unit, y: Unit) {
    !(x.Lone? && IsHigh(x.u) && y.Lone? && IsLow(y.u))
  }

  predicate Separate(xs: seq<Unit>) {
    xs == [] || (IsUnit(xs[0]) && (|xs| > 1 ==> Apart(xs[0], xs[1])) && Separate(xs[1..]))
  }

  function Bytes(xs: seq<Unit>): seq<Byte>
    requires Separate(xs)
  {
    if xs == [] then [] else UnitBytes(xs[0]) + Bytes(xs[1..])
  }

  function Chars(xs: seq<Unit>): string {
    if xs == [] then "" else (if xs[0].Whole? then [xs[0].c] else "") + Chars(xs[1..])
  }

  lemma CharIsUnits(c: char)
    ensures var b := CharOctets(c);
      if c as int < 0x10000 then UnitAt(b, 0) == c as int
      else |b| == 4 && IsHigh(UnitAt(b, 0)) && IsLow(UnitAt(b, 2))
           && (UnitAt(b, 0) - 0xD800) * 1024 + (UnitAt(b, 2) - 0xDC00) + 0x10000 == c as int
  {}

  /** A character in front of anything is decoded by itself. */
  lemma CharRead(c: char, rest: seq<Byte>)
    ensures var b := CharOctets(c) + rest; CharLen(b) == |CharOctets(c)| && CharText(b) == [c]
  {
    hide CharOctets;
    CharIsUnits(c);
    var b, a := CharOctets(c) + rest, CharOctets(c);
    assert UnitAt(b, 0) == UnitAt(a, 0);
    if |a| == 4 { assert UnitAt(b, 2) == UnitAt(a, 2); }
  }

  /** A lone surrogate in front of what is no second half is passed over. */
  lemma LoneRead(u: nat, rest: seq<Byte>)
    requires 0xD800 <= u < 0xE000 && (IsHigh(u) && |rest| >= 2 ==> !IsLow(UnitAt(rest, 0)))
    ensures var b := UnitOctets(u) + rest; CharLen(b) == 2 && CharText(b) == ""
  {
    var b := UnitOctets(u) + rest;
    assert UnitAt(b, 0) == u;
    if |rest| >= 2 { assert UnitAt(b, 2) == UnitAt(rest, 0); }
  }

  lemma FirstUnit(xs: seq<Unit>, tail: seq<Byte>)
    requires Separate(xs) && xs != []
    ensures var b := Bytes(xs) + tail;
      |b| >= 2 && (IsLow(UnitAt(b, 0)) ==> xs[0].Lone? && IsLow(xs[0].u))
  {
    var b := Bytes(xs) + tail;
    assert UnitAt(b, 0) == UnitAt(UnitBytes(xs[0]), 0);
    if xs[0].Whole? { CharIsUnits(xs[0].c); }
  }

  /** Any units, among them surrogates without their other half, and an octet too many at the
      end: exactly the characters are read, in order. */
  lemma {:induction false} LoneSurrogatesDropped(xs: seq<Unit>, tail: seq<Byte>)
    requires Separate(xs) && |tail| <= 1
    ensures DecodeUcs2(Bytes(xs) + tail) == Chars(xs)
  {
    hide CharLen, CharText, CharOctets, UnitOctets, IsHigh, IsLow, UnitAt;
    if xs != [] {
      var x, rest := xs[0], Bytes(xs[1..]) + tail;
      Associate(UnitBytes(x), Bytes(xs[1..]), tail);
      var b := UnitBytes(x) + rest;
      assert b[|UnitBytes(x)|..] == rest;
      if x.Whole? {
        CharRead(x.c, rest);
      } else {
        if |xs| > 1 { FirstUnit(xs[1..], tail); } else { assert rest == tail; }
        LoneRead(x.u, rest);
      }
      LoneSurrogatesDropped(xs[1..], tail);
    }
  }
}
