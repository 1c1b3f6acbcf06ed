/** User-data headers of any kind, as other senders write them: information elements one after
    another (3GPP TS 23.040 section 9.2.3.24), in front of text in any alphabet. */
module Headers {
  import opened Common
  import opened Septets
  import opened Gsm7
  import opened UserData

  /** A part's place in its message, and the application ports of a message. */
  datatype Place = Place(refNum: nat, total: Byte, part: Byte)
  datatype Ports = Ports(destination: nat, source: nat)

  datatype Element =
    | Concat8(p8: Place)
    | Concat16(p16: Place)
    | Ports8(d8: Byte, s8: Byte)
    | Ports16(d16: nat, s16: nat)
    | Other(iei: Byte, data: seq<Byte>)

  /** An element in the ranges of its kind; `Other` is none of the four kinds that are read. */
  predicate Proper(e: Element) {
    match e
    case Concat8(p) => p.refNum < 0x100
    case Concat16(p) => p.refNum < 0x1_0000
    case Ports8(_, _) => true
    case Ports16(d, s) => d < 0x1_0000 && s < 0x1_0000
    case Other(iei, data) =>
      |data| < 0x100 && !(iei == 0x00 && |data| == 3) && !(iei == 0x08 && |data| == 4)
      && !(iei == 0x04 && |data| == 2) && !(iei == 0x05 && |data| == 4)
  }

  function Octets(e: Element): (b: seq<Byte>)
    requires Proper(e)
    ensures |b| >= 2 && |b| == 2 + b[1] as int
  {
    match e
    case Concat8(p) => [0x00, 3, p.refNum, p.total, p.part]
    case Concat16(p) => [0x08, 4, p.refNum / 0x100, p.refNum % 0x100, p.total, p.part]
    case Ports8(d, s) => [0x04, 2, d, s]
    case Ports16(d, s) => [0x05, 4, d / 0x100, d % 0x100, s / 0x100, s % 0x100]
    case Other(iei, data) => [iei, |data|] + data
  }

  /** Octets behind the elements that make no whole element any more. */
  predicate Incomplete(tail: seq<Byte>) {
    |tail| < 2 || 2 + tail[1] > |tail|
  }

  predicate AllProper(es: seq<Element>) {
    forall i :: 0 <= i < |es| ==> Proper(es[i])
  }

  function AllOctets(es: seq<Element>): seq<Byte>
    requires AllProper(es)
  {
    if es == [] then [] else Octets(es[0]) + AllOctets(es[1..])
  }

  predicate Fits(es: seq<Element>, tail: seq<Byte>) {
    AllProper(es) && Incomplete(tail) && |AllOctets(es) + tail| < 0x100
  }

  /** The header: its length without itself, the elements, and what may be left. */
  function Header(es: seq<Element>, tail: seq<Byte>): (b: seq<Byte>)
    requires Fits(es, tail)
    ensures |b| == 1 + |AllOctets(es) + tail|
  {
    [|AllOctets(es) + tail|] + (AllOctets(es) + tail)
  }

  /** Every header is of this form. */
  lemma {:induction false} EveryHeader(b: seq<Byte>) returns (es: seq<Element>, tail: seq<Byte>)
    ensures AllProper(es) && Incomplete(tail) && AllOctets(es) + tail == b
    decreases |b|
  {
    if Incomplete(b) {
      es, tail := [], b;
      assert AllOctets(es) + tail == b;
    } else {
      var n: nat := 2 + b[1] as int;
      var e := ElementOf(b[..n]);
      var later: seq<Element>;
      later, tail := EveryHeader(b[n..]);
      es := [e] + later;
      assert es[1..] == later;
      Associate(b[..n], AllOctets(later), tail);
      assert b == b[..n] + b[n..];
    }
  }

  lemma ElementOf(b: seq<Byte>) returns (e: Element)
    requires |b| >= 2 && |b| == 2 + b[1] as int
    ensures Proper(e) && Octets(e) == b
  {
    if b[0] == 0x00 && b[1] == 3 {
      e := Concat8(Place(b[2], b[3], b[4]));
    } else if b[0] == 0x08 && b[1] == 4 {
      e := Concat16(Place(b[2] as int * 0x100 + b[3], b[4], b[5]));
    } else if b[0] == 0x04 && b[1] == 2 {
      e := Ports8(b[2], b[3]);
    } else if b[0] == 0x05 && b[1] == 4 {
      e := Ports16(b[2] as int * 0x100 + b[3], b[4] as int * 0x100 + b[5]);
    } else {
      e := Other(b[0], b[2..]);
      assert b == [b[0], |b[2..]|] + b[2..];
    }
  }

  /** Of several elements that say the same thing the last one counts. */
  function LastPlace(es: seq<Element>): Option<Place> {
    if es == [] then None
    else
      var n := |es| - 1;
      match es[n]
      case Concat8(p) => Some(p)
      case Concat16(p) => Some(p)
      case _ => LastPlace(es[..n])
  }

  function LastPorts(es: seq<Element>): Option<Ports> {
    if es == [] then None
    else
      var n := |es| - 1;
      match es[n]
      case Ports8(d, s) => Some(Ports(d, s))
      case Ports16(d, s) => Some(Ports(d, s))
      case _ => LastPorts(es[..n])
  }

  function Said(es: seq<Element>): Elements {
    var p := match LastPlace(es) case None => Place(0, 0, 0) case Some(p) => p;
    var ports := LastPorts(es);
    Elements(LastPlace(es).Some?, p.refNum, p.total, p.part,
             if ports.Some? then Some(ports.value.destination) else None,
             if ports.Some? then Some(ports.value.source) else None)
  }

  // ---- The parser reads every header ----

  /** One element after others. */
  lemma SaidMore(es: seq<Element>, e: Element)
    requires Proper(e)
    ensures ReadElement(Octets(e)[0], Octets(e)[2..], Said(es)) == Said(es + [e])
  {
    assert (es + [e])[..|es|] == es;
    var b := Octets(e);
    match e {
      case Concat8(p) => assert b[2..] == [p.refNum, p.total, p.part];
      case Concat16(p) => assert b[2..] == [p.refNum / 0x100, p.refNum % 0x100, p.total, p.part];
      case Ports8(d, s) => assert b[2..] == [d, s];
      case Ports16(d, s) => assert b[2..] == [d / 0x100, d % 0x100, s / 0x100, s % 0x100];
      case Other(iei, data) => assert b[2..] == data;
    }
  }

  lemma ScanStep(ud: seq<Byte>, at: nat, end: nat, e: Elements, b: seq<Byte>)
    requires at + |b| <= end <= |ud| && ud[at..at + |b|] == b && |b| >= 2 && |b| == 2 + b[1] as int
    ensures ScanElements(ud, at, end, e) == ScanElements(ud, at + |b|, end, ReadElement(b[0], b[2..], e))
  {
    hide ReadElement;
    assert ud[at] == ud[at..at + |b|][0] && ud[at + 1] == ud[at..at + |b|][1];
    assert ud[at + 2..at + |b|] == b[2..];
  }

  /** Scanning from where the elements `rest` begin, `done` being behind. */
  lemma {:induction false} ScansRest(ud: seq<Byte>, at: nat, end: nat, done: seq<Element>, rest: seq<Element>,
                                     tail: seq<Byte>)
    requires AllProper(rest) && at <= end <= |ud| && ud[at..end] == AllOctets(rest) + tail && Incomplete(tail)
    ensures ScanElements(ud, at, end, Said(done)) == Said(done + rest)
    decreases |rest|
  {
    hide ScanElements, Said, Octets, ReadElement;
    if rest == [] {
      assert done + rest == done;
      assert ud[at..end] == tail;
      ScanEnds(ud, at, end, Said(done));
    } else {
      var b, later := Octets(rest[0]), AllOctets(rest[1..]) + tail;
      Associate(b, AllOctets(rest[1..]), tail);
      assert ud[at..end] == b + later;
      assert ud[at..at + |b|] == ud[at..end][..|b|] == b && ud[at + |b|..end] == ud[at..end][|b|..] == later;
      ScanStep(ud, at, end, Said(done), b);
      SaidMore(done, rest[0]);
      ScansRest(ud, at + |b|, end, done + [rest[0]], rest[1..], tail);
      assert (done + [rest[0]]) + rest[1..] == done + rest;
    }
  }

  lemma ScanEnds(ud: seq<Byte>, at: nat, end: nat, e: Elements)
    requires at <= end <= |ud| && Incomplete(ud[at..end])
    ensures ScanElements(ud, at, end, e) == e
  {
    if at + 1 < end { assert ud[at..end][1] == ud[at + 1]; }
  }

  /** Whatever follows the header. */
  lemma HeaderRead(es: seq<Element>, tail: seq<Byte>, behind: seq<Byte>)
    requires Fits(es, tail)
    ensures var h := Header(es, tail);
      (h + behind)[0] == |h| - 1 && ScanElements(h + behind, 1, |h|, NO_ELEMENTS) == Said(es)
  {
    hide ScanElements, AllOctets, Said;
    var h := Header(es, tail);
    assert (h + behind)[1..|h|] == AllOctets(es) + tail;
    assert Said([]) == NO_ELEMENTS by { NothingSaid(); }
    assert [] + es == es;
    ScansRest(h + behind, 1, |h|, [], es, tail);
  }

  lemma NothingSaid()
    ensures Said([]) == NO_ELEMENTS
  {}

  // ---- A place in the message, wherever it stands in the header ----

  /** A reference, total and part are read from their element alone and between others, as long
      as no later element gives another place; the same of the ports. */
  lemma {:induction false} PlaceRead(before: seq<Element>, e: Element, after: seq<Element>)
    requires LastPlace(after).None?
    ensures e.Concat8? ==> LastPlace(before + [e] + after) == Some(e.p8)
    ensures e.Concat16? ==> LastPlace(before + [e] + after) == Some(e.p16)
    decreases |after|
  {
    if after == [] {
      assert before + [e] + after == before + [e];
      assert (before + [e])[|before|] == e;
    } else {
      var n, all := |after| - 1, before + [e] + after;
      assert all[..|all| - 1] == before + [e] + after[..n] && all[|all| - 1] == after[n];
      PlaceRead(before, e, after[..n]);
    }
  }

  lemma {:induction false} PortsRead(before: seq<Element>, e: Element, after: seq<Element>)
    requires LastPorts(after).None?
    ensures e.Ports8? ==> LastPorts(before + [e] + after) == Some(Ports(e.d8, e.s8))
    ensures e.Ports16? ==> LastPorts(before + [e] + after) == Some(Ports(e.d16, e.s16))
    decreases |after|
  {
    if after == [] {
      assert before + [e] + after == before + [e];
      assert (before + [e])[|before|] == e;
    } else {
      var n, all := |after| - 1, before + [e] + after;
      assert all[..|all| - 1] == before + [e] + after[..n] && all[|all| - 1] == after[n];
      PortsRead(before, e, after[..n]);
    }
  }

  // ---- Whole fields ----

  /** The septets begin at the first septet boundary behind the header. */
  lemma FillBits(r: nat)
    requires r < 7
    ensures (7 - r) % 7 == if r == 0 then 0 else 7 - r
  {}

  lemma SevenTimes(n: nat, k: nat)
    requires n == 7 * k
    ensures n / 7 == k
  {}

  lemma Skipped(len: nat)
    ensures HeaderSeptets(len) * 7 / 8 >= len && HeaderSeptets(len) <= 2 * len
    ensures 7 * HeaderSeptets(len) - 7 < 8 * len <= 7 * HeaderSeptets(len)
  {
    var bits := len * 8;
    var q, r := bits / 7, bits % 7;
    var fill := (7 - r) % 7;
    FillBits(r);
    SevenTimes(bits + fill, if r == 0 then q else q + 1);
  }

  function Gsm7Field(dcs: Byte, es: seq<Element>, tail: seq<Byte>, text: seq<Septet>): (f: Field)
    requires Fits(es, tail) && HeaderSeptets(|Header(es, tail)|) + |text| < 0x100
  {
    var h := Header(es, tail);
    var skip := HeaderSeptets(|h|);
    var packed := Pack(text, skip * 7);
    PackedLen(text, skip * 7);
    Skipped(|h|);
    Field(dcs, true, skip + |text|, h + packed[|h|..])
  }

  function OctetField(dcs: Byte, es: seq<Element>, tail: seq<Byte>, text: seq<Byte>): Field
    requires Fits(es, tail) && |Header(es, tail)| + |text| < 0x100
  {
    Field(dcs, true, |Header(es, tail)| + |text|, Header(es, tail) + text)
  }

  lemma PackedLen(s: seq<Septet>, bit: nat)
    ensures |Pack(s, bit)| == OctetCount(bit + 7 * |s|) && OctetCount(bit + 7 * |s|) >= bit / 8
  {
    hide PlaceAll;
  }

  /** What a GSM-7 field with a header of `len` octets is read as. */
  lemma Gsm7Read(f: Field, len: nat, count: nat, septets: seq<Septet>, elements: Elements)
    requires AlphabetOf(f.dcs) == Gsm7Bit && f.udhi && 1 <= len <= |f.octets| && f.octets[0] == len - 1
    requires f.udl == HeaderSeptets(len) + count && Unpack(f.octets, count, HeaderSeptets(len) * 7) == septets
    requires ScanElements(f.octets, 1, len, NO_ELEMENTS) == elements
    ensures Parse(f) == Ok(Parsed(DecodeSeptets(septets), elements))
  {
    hide DecodeSeptets, Unpack, ScanElements, AlphabetOf, HeaderSeptets;
    assert f.octets[..|f.octets|] == f.octets;
  }

  /** The septets behind the header are read as they were packed. */
  lemma Gsm7Behind(h: seq<Byte>, text: seq<Septet>, skip: nat)
    requires |h| <= |Pack(text, skip * 7)| && 8 * |h| <= skip * 7
    ensures Unpack(h + Pack(text, skip * 7)[|h|..], |text|, skip * 7) == text
  {
    hide Unpack, Pack;
    var packed := Pack(text, skip * 7);
    UnpackPack(text, skip * 7);
    UnpackIgnoresBelow(h + packed[|h|..], packed, |text|, skip * 7);
  }

  /** A GSM-7 field under any header parses to its text and to what the header says. */
  lemma Gsm7FieldParses(dcs: Byte, es: seq<Element>, tail: seq<Byte>, text: seq<Septet>)
    requires Fits(es, tail) && HeaderSeptets(|Header(es, tail)|) + |text| < 0x100
    requires AlphabetOf(dcs) == Gsm7Bit
    ensures Parse(Gsm7Field(dcs, es, tail, text)) == Ok(Parsed(DecodeSeptets(text), Said(es)))
  {
    hide DecodeSeptets, Unpack, Pack, ScanElements, AllOctets, Said, AlphabetOf, HeaderSeptets, Header, Parse, Fits,
         OctetCount;
    var h := Header(es, tail);
    var skip := HeaderSeptets(|h|);
    PackedLen(text, skip * 7);
    Skipped(|h|);
    var behind := Pack(text, skip * 7)[|h|..];
    HeaderRead(es, tail, behind);
    Gsm7Behind(h, text, skip);
    Gsm7Read(Gsm7Field(dcs, es, tail, text), |h|, |text|, text, Said(es));
  }

  /** What a field of octets with a header of `len` octets is read as. */
  lemma OctetRead(f: Field, len: nat, text: seq<Byte>, elements: Elements)
    requires AlphabetOf(f.dcs) != Gsm7Bit && f.udhi && 1 <= len <= |f.octets| == f.udl as int && f.octets[0] == len - 1
    requires f.octets[len..|f.octets|] == text && ScanElements(f.octets, 1, len, NO_ELEMENTS) == elements
    ensures Parse(f)
         == Ok(Parsed(if AlphabetOf(f.dcs) == EightBit then DecodeLatin1(text) else DecodeUcs2(text), elements))
  {
    hide DecodeUcs2, DecodeLatin1, ScanElements, AlphabetOf, DecodeSeptets, Unpack, HeaderSeptets;
  }

  /** The same of UCS-2 and of 8-bit text. */
  lemma OctetFieldParses(dcs: Byte, es: seq<Element>, tail: seq<Byte>, text: seq<Byte>)
    requires Fits(es, tail) && |Header(es, tail)| + |text| < 0x100
    ensures AlphabetOf(dcs) == Alphabet.Ucs2 ==>
              Parse(OctetField(dcs, es, tail, text)) == Ok(Parsed(DecodeUcs2(text), Said(es)))
    ensures AlphabetOf(dcs) == EightBit ==>
              Parse(OctetField(dcs, es, tail, text)) == Ok(Parsed(DecodeLatin1(text), Said(es)))
  {
    hide DecodeUcs2, DecodeLatin1, ScanElements, AllOctets, Said, AlphabetOf, Header, Parse, Fits;
    var f, h := OctetField(dcs, es, tail, text), Header(es, tail);
    HeaderRead(es, tail, text);
    assert f.octets[|h|..|f.octets|] == text;
    if AlphabetOf(dcs) != Gsm7Bit { OctetRead(f, |h|, text, Said(es)); }
  }

  /** A field without a header is its text from the first octet on; behind a length octet that
      promises more octets than there are, it is refused. */
  lemma PlainParses(dcs: Byte, septets: seq<Septet>, octets: seq<Byte>, udl: Byte)
    requires |septets| < 0x100 && |octets| < 0x100
    ensures AlphabetOf(dcs) == Gsm7Bit ==>
              Parse(Field(dcs, false, |septets|, Pack(septets, 0))) == Ok(Parsed(DecodeSeptets(septets), NO_ELEMENTS))
    ensures AlphabetOf(dcs) == Alphabet.Ucs2 ==>
              Parse(Field(dcs, false, |octets|, octets)) == Ok(Parsed(DecodeUcs2(octets), NO_ELEMENTS))
    ensures AlphabetOf(dcs) == EightBit ==>
              Parse(Field(dcs, false, |octets|, octets)) == Ok(Parsed(DecodeLatin1(octets), NO_ELEMENTS))
    ensures AlphabetOf(dcs) != Gsm7Bit ==> (Parse(Field(dcs, false, udl, octets)).Ok? <==> udl <= |octets|)
  {
    hide DecodeSeptets, DecodeUcs2, DecodeLatin1, Unpack, Pack, AlphabetOf;
    UnpackPack(septets, 0);
    var packed := Pack(septets, 0);
    assert packed[..|packed|] == packed && octets[0..|octets|] == octets;
  }

  /** A header in front of the octets, with as many of them as the length octet needs. */
  predicate Framed(f: Field, es: seq<Element>, tail: seq<Byte>) {
    && Fits(es, tail) && Header(es, tail) <= f.octets
    && if AlphabetOf(f.dcs) == Gsm7Bit then HeaderSeptets(|Header(es, tail)|) <= f.udl as int
       else |Header(es, tail)| <= f.udl as int <= |f.octets|
  }

  /** A field with a header is accepted exactly when it is framed; what is behind the octets that
      the length allows is not read. */
  lemma ParsesExactly(f: Field)
    requires f.udhi
    ensures Parse(f).Ok? <==> exists es, tail :: Framed(f, es, tail)
    ensures forall es, tail :: Framed(f, es, tail) ==> Parse(f).value.elements == Said(es)
    ensures forall es, tail :: Framed(f, es, tail) && AlphabetOf(f.dcs) != Gsm7Bit ==>
              (var text := f.octets[|Header(es, tail)|..f.udl];
               Parse(f).value.content == if AlphabetOf(f.dcs) == EightBit then DecodeLatin1(text) else DecodeUcs2(text))
  {
    hide Header, Fits, ScanElements, Content, AlphabetOf, Said, HeaderSeptets, DecodeLatin1, DecodeUcs2;
    forall es, tail | Framed(f, es, tail)
      ensures Parse(f).Ok? && Parse(f).value.elements == Said(es)
      ensures AlphabetOf(f.dcs) != Gsm7Bit ==> Parse(f).value.content == TextIn(f, |Header(es, tail)|)
    {
      FramedParses(f, es, tail);
    }
    if Parse(f).Ok? {
      var es, tail := FramedWhenParsed(f);
    }
  }

  function TextIn(f: Field, from: nat): string
    requires AlphabetOf(f.dcs) != Gsm7Bit && from <= f.udl as int <= |f.octets|
  {
    var text := f.octets[from..f.udl];
    if AlphabetOf(f.dcs) == EightBit then DecodeLatin1(text) else DecodeUcs2(text)
  }

  lemma FramedParses(f: Field, es: seq<Element>, tail: seq<Byte>)
    requires f.udhi && Framed(f, es, tail)
    ensures Parse(f).Ok? && Parse(f).value.elements == Said(es)
    ensures AlphabetOf(f.dcs) != Gsm7Bit ==> Parse(f).value.content == TextIn(f, |Header(es, tail)|)
  {
    hide ScanElements, AlphabetOf, Said, HeaderSeptets, DecodeLatin1, DecodeUcs2, DecodeSeptets, Unpack, AllOctets;
    var h := Header(es, tail);
    assert f.octets == h + f.octets[|h|..];
    HeaderRead(es, tail, f.octets[|h|..]);
  }

  lemma FramedWhenParsed(f: Field) returns (es: seq<Element>, tail: seq<Byte>)
    requires f.udhi && Parse(f).Ok?
    ensures Framed(f, es, tail)
  {
    hide ScanElements, AlphabetOf, Said, HeaderSeptets, DecodeLatin1, DecodeUcs2, DecodeSeptets, Unpack, AllOctets;
    var len: nat := f.octets[0] as int + 1;
    es, tail := EveryHeader(f.octets[1..len]);
    assert |AllOctets(es) + tail| == len - 1;
    assert Header(es, tail) == [f.octets[0]] + f.octets[1..len] == f.octets[..len];
  }

  // ---- Data coding schemes (3GPP TS 23.038 section 4) ----

  datatype Coding =
    | General(compressed: bool, hasClass: bool, alphabet: nat, level: nat)
    | Reserved(rest: nat)
    | WaitingGsm7(group: nat, active: bool, kind: nat)
    | WaitingUcs2(active: bool, kind: nat)
    | DataClass(eight: bool, level: nat)

  predicate Coded(c: Coding) {
    match c
    case General(_, _, alphabet, level) => alphabet < 4 && level < 4
    case Reserved(rest) => rest < 0x80
    case WaitingGsm7(group, _, kind) => 12 <= group <= 13 && kind < 4
    case WaitingUcs2(_, kind) => kind < 4
    case DataClass(_, level) => level < 4
  }

  function Bit(b: bool): nat {
    if b then 1 else 0
  }

  /** The octet of a coding. */
  function Scheme(c: Coding): Byte
    requires Coded(c)
  {
    match c
    case General(compressed, hasClass, alphabet, level) =>
      32 * Bit(compressed) + 16 * Bit(hasClass) + 4 * alphabet + level
    case Reserved(rest) => 0x40 + rest
    case WaitingGsm7(group, active, kind) => 16 * group + 8 * Bit(active) + kind
    case WaitingUcs2(active, kind) => 0xE0 + 8 * Bit(active) + kind
    case DataClass(eight, level) => 0xF0 + 4 * Bit(eight) + level
  }

  /** Each coding is read in its alphabet. */
  lemma SchemeRead(c: Coding)
    requires Coded(c)
    ensures AlphabetOf(Scheme(c)) ==
      match c
      case General(_, _, alphabet, _) =>
        if alphabet == 1 then EightBit else if alphabet == 2 then Alphabet.Ucs2 else Gsm7Bit
      case Reserved(_) => Gsm7Bit
      case WaitingGsm7(_, _, _) => Gsm7Bit
      case WaitingUcs2(_, _) => Alphabet.Ucs2
      case DataClass(eight, _) => if eight then EightBit else Gsm7Bit
  {
    match c {
      case General(compressed, hasClass, alphabet, level) =>
        GeneralBits(2 * Bit(compressed) + Bit(hasClass), alphabet, level);
      case _ =>
    }
  }

  lemma GeneralBits(flags: nat, alphabet: nat, level: nat)
    requires flags < 4 && alphabet < 4 && level < 4
    ensures var d := 16 * flags + 4 * alphabet + level; d < 64 && d / 64 == 0 && d / 4 % 4 == alphabet
  {
    assert (16 * flags + 4 * alphabet + level) / 4 == 4 * flags + alphabet;
  }
}
