/** The user-data field of a short message: how the builder fills it, part by part, and
    how the parser reads it back (3GPP TS 23.040 sections 9.2.3.24 and 9.2.3.24.1). */
module UserData {
  import opened Common
  import opened Septets
  import opened Gsm7

  /** TP-DCS, TP-UDHI, TP-UDL and the TP-UD octets. */
  datatype Field = Field(dcs: Byte, udhi: bool, udl: Byte, octets: seq<Byte>)

  datatype Alphabet = Gsm7Bit | EightBit | Ucs2

  datatype ParseError = UdlTooLong | MissingHeader | HeaderTooLong | HeaderBeyondUdl

  /** What the information elements of a header say. */
  datatype Elements = Elements(concatenated: bool, refNum: nat, total: Byte, part: Byte,
                               destination: Option<nat>, source: Option<nat>)

  datatype Parsed = Parsed(content: string, elements: Elements)

  const NO_ELEMENTS: Elements := Elements(false, 0, 0, 0, None, None)

  // ---- Splitting and building, GSM-7 ----

  /** Length of the next chunk: 153 septets, less when that would end inside an escape. */
  function ChunkLen(s: seq<Septet>): (n: nat)
    requires s != []
    ensures 1 <= n <= |s| && n <= 153
  {
    if |s| <= 153 then |s|
    else if s[152] == ESC then 152
    else if s[151] == ESC then 151
    else 153
  }

  function Chunks(s: seq<Septet>): seq<seq<Septet>> {
    if s == [] then [] else [s[..ChunkLen(s)]] + Chunks(s[ChunkLen(s)..])
  }

  method SplitGsm7(septets: seq<Septet>) returns (chunks: seq<seq<Septet>>)
    ensures chunks == Chunks(septets)
  {
    hide Chunks;
    chunks := [];
    var pos := 0;
    while pos < |septets|
      invariant pos <= |septets|
      invariant chunks + Chunks(septets[pos..]) == Chunks(septets)
    {
      var remaining := |septets| - pos;
      var chunk := Min(remaining, 153);
      if chunk == 153 && remaining > 153 {
        if septets[pos + 152] == ESC {
          chunk := 152;
        } else if septets[pos + 151] == ESC {
          chunk := 151;
        }
      }
      ChunksStep(septets[pos..]);
      assert chunk == ChunkLen(septets[pos..]);
      assert septets[pos..][..chunk] == septets[pos..pos + chunk];
      assert septets[pos..][chunk..] == septets[pos + chunk..];
      Associate(chunks, [septets[pos..pos + chunk]], Chunks(septets[pos + chunk..]));
      chunks := chunks + [septets[pos..pos + chunk]];
      pos := pos + chunk;
    }
    assert septets[pos..] == [];
    NoChunks();
  }

  lemma ChunksStep(s: seq<Septet>)
    requires s != []
    ensures Chunks(s) == [s[..ChunkLen(s)]] + Chunks(s[ChunkLen(s)..])
  {}

  lemma NoChunks()
    ensures Chunks([]) == []
  {}

  function ConcatHeader(refNum: Byte, total: Byte, part: Byte): (h: seq<Byte>)
    ensures |h| == 6
  {
    [0x05, 0x00, 0x03, refNum, total, part]
  }

  /** One part: the chunk packed at bit 49, its first six octets overwritten by the header. */
  function Gsm7Part(chunk: seq<Septet>, refNum: Byte, total: Byte, part: Byte): (f: Field)
    requires 1 <= |chunk| <= 153
  {
    var packed := Pack(chunk, 49);
    assert |packed| >= 6;
    Field(0x00, true, 7 + |chunk|, ConcatHeader(refNum, total, part) + packed[6..])
  }

  /** The fields of all parts, or none when there are too many. */
  function BuildGsm7(s: seq<Septet>, maxParts: nat, refNum: Byte): (fs: seq<Field>)
  {
    if |s| <= 160 then [Field(0x00, false, |s|, Pack(s, 0))]
    else
      ChunkSizes(s);
      var chunks := Chunks(s);
      var total := |chunks|;
      if total > maxParts || total > 255 then []
      else seq(total, i requires 0 <= i < total => Gsm7Part(chunks[i], refNum, total, i + 1))
  }

  method BuildGsm7Fields(s: seq<Septet>, maxParts: nat, refNum: Byte) returns (fs: seq<Field>)
    ensures fs == BuildGsm7(s, maxParts, refNum)
  {
    hide Pack, Chunks, ConcatHeader;
    if |s| <= 160 {
      var packed := PackSeptets(s, 0);
      return [Field(0x00, false, |s|, packed)];
    }
    var chunks := SplitGsm7(s);
    ChunkSizes(s);
    var total := |chunks|;
    if total > maxParts || total > 255 {
      return [];
    }
    fs := [];
    for i := 0 to total
      invariant |fs| == i && forall j :: 0 <= j < i ==> fs[j] == Gsm7Part(chunks[j], refNum, total, j + 1)
    {
      var packed := PackSeptets(chunks[i], 49);
      HeaderLeavesSeptets(chunks[i], ConcatHeader(refNum, total, i + 1));
      packed := ConcatHeader(refNum, total, i + 1) + packed[6..];
      fs := fs + [Field(0x00, true, 7 + |chunks[i]|, packed)];
    }
  }

  lemma {:induction false} ChunkSizes(s: seq<Septet>)
    ensures forall i :: 0 <= i < |Chunks(s)| ==> 1 <= |Chunks(s)[i]| <= 153
  {
    if s != [] { ChunkSizes(s[ChunkLen(s)..]); }
  }

  function Flatten<T>(xs: seq<seq<T>>): seq<T> {
    if xs == [] then [] else xs[0] + Flatten(xs[1..])
  }

  /** The chunks are the body, in order, and none of them ends between ESC and its code. */
  lemma {:induction false} ChunksAreEscapeSafe(s: seq<Septet>)
    requires EscapesPaired(s)
    ensures Flatten(Chunks(s)) == s
    ensures forall i :: 0 <= i < |Chunks(s)| ==> EscapesPaired(Chunks(s)[i])
  {
    hide EscapesPaired, ChunkLen, Chunks, Flatten;
    if s == [] {
      NothingChunked();
    } else {
      var n, first, later := ChunkLen(s), s[..ChunkLen(s)], s[ChunkLen(s)..];
      CutsBehindPlain(s);
      CutBehindPlain(s, n);
      ChunksAreEscapeSafe(later);
      OneChunkMore(s);
      assert s == first + later;
    }
  }

  lemma NothingChunked()
    ensures Chunks([]) == [] && Flatten(Chunks([])) == []
  {}

  lemma OneChunkMore(s: seq<Septet>)
    requires s != []
    ensures var n := ChunkLen(s);
      && Chunks(s) == [s[..n]] + Chunks(s[n..]) && Flatten(Chunks(s)) == s[..n] + Flatten(Chunks(s[n..]))
  {
    hide ChunkLen;
    var n := ChunkLen(s);
    assert ([s[..n]] + Chunks(s[n..]))[1..] == Chunks(s[n..]);
  }

  lemma CutsBehindPlain(s: seq<Septet>)
    requires EscapesPaired(s) && s != []
    ensures s[ChunkLen(s) - 1] != ESC
  {}

  lemma CutBehindPlain(s: seq<Septet>, n: nat)
    requires EscapesPaired(s) && 1 <= n <= |s| && s[n - 1] != ESC
    ensures EscapesPaired(s[..n]) && EscapesPaired(s[n..])
  {}

  // ---- Parsing ----

  function AlphabetOf(dcs: Byte): Alphabet {
    if dcs / 64 == 0 then
      (if dcs / 4 % 4 == 1 then EightBit else if dcs / 4 % 4 == 2 then Ucs2 else Gsm7Bit)
    else if dcs / 16 == 15 then (if dcs / 4 % 2 != 0 then EightBit else Gsm7Bit)
    else if dcs / 16 == 14 then Ucs2
    else Gsm7Bit
  }

  function Word(hi: Byte, lo: Byte): nat {
    hi as int * 256 + lo as int
  }

  /** What one information element adds. */
  function ReadElement(iei: Byte, data: seq<Byte>, e: Elements): Elements {
    if iei == 0x04 && |data| == 2 then e.(destination := Some(data[0]), source := Some(data[1]))
    else if iei == 0x05 && |data| == 4 then
      e.(destination := Some(Word(data[0], data[1])), source := Some(Word(data[2], data[3])))
    else if iei == 0x00 && |data| == 3 then
      e.(concatenated := true, refNum := data[0], total := data[1], part := data[2])
    else if iei == 0x08 && |data| == 4 then
      e.(concatenated := true, refNum := Word(data[0], data[1]), total := data[2], part := data[3])
    else e
  }

  /** The information elements of `ud` from `at` to `end`. */
  function ScanElements(ud: seq<Byte>, at: nat, end: nat, e: Elements): Elements
    requires at <= end <= |ud|
    decreases end - at
  {
    if at + 1 >= end || at + 2 + ud[at + 1] > end then e
    else
      var next := at + 2 + ud[at + 1];
      ScanElements(ud, next, end, ReadElement(ud[at], ud[at + 2..next], e))
  }

  method ReadElements(ud: seq<Byte>, headerLen: nat) returns (e: Elements)
    requires 1 <= headerLen <= |ud|
    ensures e == ScanElements(ud, 1, headerLen, NO_ELEMENTS)
  {
    hide ReadElement;
    e := NO_ELEMENTS;
    var at := 1;
    while at + 1 < headerLen
      invariant 1 <= at <= headerLen
      invariant ScanElements(ud, at, headerLen, e) == ScanElements(ud, 1, headerLen, NO_ELEMENTS)
    {
      var len := ud[at + 1];
      if at + 2 + len > headerLen {
        break;
      }
      e := ReadElement(ud[at], ud[at + 2..at + 2 + len], e);
      at := at + 2 + len;
    }
  }

  function UnitAt(b: seq<Byte>, i: nat): nat
    requires i + 1 < |b|
  {
    Word(b[i], b[i + 1])
  }

  predicate IsHigh(u: nat) { 0xD800 <= u < 0xDC00 }
  predicate IsLow(u: nat) { 0xDC00 <= u < 0xE000 }

  /** Octets of the next character: four for a surrogate pair. */
  function CharLen(b: seq<Byte>): (n: nat)
    requires |b| >= 2
    ensures n == 2 || (n == 4 && |b| >= 4)
  {
    if IsHigh(UnitAt(b, 0)) && |b| >= 4 && IsLow(UnitAt(b, 2)) then 4 else 2
  }

  /** The next character; a lone surrogate is dropped. */
  function CharText(b: seq<Byte>): string
    requires |b| >= 2
  {
    var u := UnitAt(b, 0);
    if CharLen(b) == 4 then [((u - 0xD800) * 1024 + (UnitAt(b, 2) - 0xDC00) + 0x10000) as char]
    else if 0xD800 <= u < 0xE000 then ""
    else [u as char]
  }

  function DecodeUcs2(b: seq<Byte>): string {
    if |b| < 2 then "" else CharText(b) + DecodeUcs2(b[CharLen(b)..])
  }

  method Ucs2ToText(data: seq<Byte>) returns (out: string)
    ensures out == DecodeUcs2(data)
  {
    hide CharText, CharLen;
    out := "";
    var i := 0;
    while i + 1 < |data|
      invariant i <= |data|
      invariant out + DecodeUcs2(data[i..]) == DecodeUcs2(data)
    {
      var n := CharLen(data[i..]);
      assert data[i..][n..] == data[i + n..];
      Associate(out, CharText(data[i..]), DecodeUcs2(data[i + n..]));
      out := out + CharText(data[i..]);
      i := i + n;
    }
  }

  function DecodeLatin1(b: seq<Byte>): string {
    seq(|b|, i requires 0 <= i < |b| => b[i] as char)
  }

  /** Octets of the user data that belong to the message. */
  function Extent(f: Field): Option<nat> {
    if AlphabetOf(f.dcs) == Gsm7Bit then Some(|f.octets|)
    else if f.udl > |f.octets| then None
    else Some(f.udl)
  }

  /** Septets a header of `len` octets takes up, with its fill bits. */
  function HeaderSeptets(len: nat): nat {
    (len * 8 + (7 - len * 8 % 7) % 7) / 7
  }

  function Parse(f: Field): Result<Parsed, ParseError> {
    match Extent(f)
    case None => Err(UdlTooLong)
    case Some(n) =>
      if !f.udhi then Ok(Parsed(Content(f, n, 0), NO_ELEMENTS))
      else if n < 1 then Err(MissingHeader)
      else
        var headerLen: int := f.octets[0] as int + 1;
        if headerLen > n then Err(HeaderTooLong)
        else if AlphabetOf(f.dcs) == Gsm7Bit && HeaderSeptets(headerLen) > f.udl then Err(HeaderBeyondUdl)
        else Ok(Parsed(Content(f, n, headerLen), ScanElements(f.octets, 1, headerLen, NO_ELEMENTS)))
  }

  /** The text behind a header of `headerLen` octets (0 without one). */
  function Content(f: Field, n: nat, headerLen: nat): string
    requires headerLen <= n <= |f.octets|
    requires AlphabetOf(f.dcs) == Gsm7Bit ==> HeaderSeptets(headerLen) <= f.udl
  {
    match AlphabetOf(f.dcs)
    case Gsm7Bit =>
      var skip := HeaderSeptets(headerLen);
      DecodeSeptets(Unpack(f.octets[..n], f.udl - skip, skip * 7))
    case Ucs2 => DecodeUcs2(f.octets[headerLen..n])
    case EightBit => DecodeLatin1(f.octets[headerLen..n])
  }

  method ParseField(f: Field) returns (r: Result<Parsed, ParseError>)
    ensures r == Parse(f)
  {
    hide ScanElements, Content;
    var alphabet := AlphabetOf(f.dcs);
    var n := |f.octets|;
    if alphabet != Gsm7Bit {
      if f.udl > n {
        return Err(UdlTooLong);
      }
      n := f.udl;
    }
    var headerLen := 0;
    var elements := NO_ELEMENTS;
    if f.udhi {
      if n < 1 {
        return Err(MissingHeader);
      }
      headerLen := f.octets[0] as int + 1;
      if headerLen > n {
        return Err(HeaderTooLong);
      }
      elements := ReadElements(f.octets, headerLen);
    }
    var headerSeptets := (headerLen * 8 + (7 - headerLen * 8 % 7) % 7) / 7;
    if alphabet == Gsm7Bit && headerSeptets > f.udl {
      return Err(HeaderBeyondUdl);
    }
    var content := TextBehind(f, n, headerLen);
    return Ok(Parsed(content, elements));
  }

  /** The text behind a header of `headerLen` octets, or from the start. */
  method TextBehind(f: Field, n: nat, headerLen: nat) returns (content: string)
    requires headerLen <= n <= |f.octets|
    requires AlphabetOf(f.dcs) == Gsm7Bit ==> HeaderSeptets(headerLen) <= f.udl
    ensures content == Content(f, n, headerLen)
  {
    hide DecodeSeptets, Unpack, DecodeUcs2, DecodeLatin1;
    match AlphabetOf(f.dcs) {
      case Gsm7Bit =>
        var bits := headerLen * 8;
        var fill := (7 - bits % 7) % 7;
        var headerSeptets := (bits + fill) / 7;
        assert headerSeptets * 7 == bits + fill;
        var septets := UnpackSeptets(f.octets[..n], f.udl - headerSeptets, bits + fill);
        content := SeptetsToText(septets);
      case Ucs2 => content := Ucs2ToText(f.octets[headerLen..n]);
      case EightBit => content := DecodeLatin1(f.octets[headerLen..n]);
    }
  }

  // ---- The parser reads what the builder wrote ----

  /** The builder's header is one concatenation element. */
  lemma HeaderScans(ud: seq<Byte>, refNum: Byte, total: Byte, part: Byte)
    requires |ud| >= 6 && ud[..6] == ConcatHeader(refNum, total, part)
    ensures ud[0] == 5
    ensures ScanElements(ud, 1, 6, NO_ELEMENTS) == Elements(true, refNum, total, part, None, None)
  {
    assert ud[..6][0] == 5 && ud[..6][1] == 0 && ud[..6][2] == 3;
    assert ud[3..6] == ud[..6][3..] == [refNum, total, part];
  }

  /** A GSM-7 field with no header, or with the builder's of six octets. */
  lemma Gsm7Parse(f: Field, headerLen: nat)
    requires f.dcs == 0x00 && headerLen <= |f.octets|
    requires if f.udhi then headerLen == 6 && f.octets[0] == 5 && f.udl >= 7 else headerLen == 0
    ensures var skip := if f.udhi then 7 else 0;
      Parse(f) == Ok(Parsed(DecodeSeptets(Unpack(f.octets, f.udl - skip, skip * 7)),
                            if f.udhi then ScanElements(f.octets, 1, 6, NO_ELEMENTS) else NO_ELEMENTS))
  {
    hide DecodeSeptets, Unpack, ScanElements;
    assert AlphabetOf(0x00) == Gsm7Bit && HeaderSeptets(6) == 7 && HeaderSeptets(0) == 0;
    assert f.octets[..|f.octets|] == f.octets;
  }

  /** One part gives back its chunk's text and its place in the message. */
  lemma Gsm7PartParses(chunk: seq<Septet>, refNum: Byte, total: Byte, part: Byte)
    requires 1 <= |chunk| <= 153
    ensures Parse(Gsm7Part(chunk, refNum, total, part))
         == Ok(Parsed(DecodeSeptets(chunk), Elements(true, refNum, total, part, None, None)))
  {
    hide DecodeSeptets, Pack, Unpack, ScanElements, ConcatHeader, Parse;
    var f := Gsm7Part(chunk, refNum, total, part);
    HeaderScans(f.octets, refNum, total, part);
    HeaderLeavesSeptets(chunk, ConcatHeader(refNum, total, part));
    Gsm7Parse(f, 6);
  }

  /** The six header octets touch no bit from 49 up. */
  lemma HeaderLeavesSeptets(chunk: seq<Septet>, header: seq<Byte>)
    requires |header| == 6 && 1 <= |chunk|
    ensures |Pack(chunk, 49)| >= 6
    ensures Unpack(header + Pack(chunk, 49)[6..], |chunk|, 49) == chunk
  {
    hide Unpack;
    UnpackPack(chunk, 49);
    UnpackIgnoresBelow(header + Pack(chunk, 49)[6..], Pack(chunk, 49), |chunk|, 49);
  }

  lemma SingleParses(s: seq<Septet>)
    requires |s| <= 160
    ensures Parse(Field(0x00, false, |s|, Pack(s, 0))) == Ok(Parsed(DecodeSeptets(s), NO_ELEMENTS))
  {
    hide DecodeSeptets, Pack, Unpack, Parse;
    UnpackPack(s, 0);
    Gsm7Parse(Field(0x00, false, |s|, Pack(s, 0)), 0);
  }
}
