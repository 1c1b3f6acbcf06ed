/** A whole text message: built into user-data fields, parsed and reassembled. */
module Message {
  import opened Common
  import opened UserData
  import opened Concat
  import H = Headers
  import Gsm7
  import Septets
  import Ucs2

  /** The fields of all parts of `body`, or none when it cannot be sent. */
  function Build(body: string, maxParts: nat, refNum: Byte): seq<Field> {
    if body == [] || maxParts == 0 then []
    else match Gsm7.EncodeBody(body)
      case Some(s) => BuildGsm7(s, maxParts, refNum)
      case None => Ucs2.Build(Ucs2.Encode(body), maxParts, refNum)
  }

  method BuildMessage(body: string, maxParts: nat, refNum: Byte) returns (fields: seq<Field>)
    ensures fields == Build(body, maxParts, refNum)
  {
    hide Gsm7.EncodeBody, BuildGsm7, Ucs2.Encode, Ucs2.Build;
    if body == [] || maxParts == 0 {
      return [];
    }
    var gsm7 := Gsm7.EncodeGsm7Body(body);
    if gsm7.Some? {
      fields := BuildGsm7Fields(gsm7.value, maxParts, refNum);
    } else {
      var ucs2 := Ucs2.EncodeBody(body);
      fields := Ucs2.BuildFields(ucs2, maxParts, refNum);
    }
  }

  // ---- What the parser finds in the parts ----

  /** The field is part number `part` of `total` under this reference, and holds `text`. */
  predicate CarriesPart(f: Field, refNum: nat, total: nat, part: nat, text: string) {
    match Parse(f)
    case Err(_) => false
    case Ok(p) =>
      p.content == text && p.elements.concatenated && p.elements.refNum == refNum && p.elements.total as int == total
      && p.elements.part as int == part
  }

  /** `fields` are the parts, in order, of a message cut into `texts`. */
  ghost predicate Carry(fields: seq<Field>, refNum: nat, texts: seq<string>) {
    && |fields| == |texts|
    && forall k :: 0 <= k < |fields| ==> CarriesPart(fields[k], refNum, |texts|, k + 1, texts[k])
  }

  function Gsm7Texts(chunks: seq<seq<Septets.Septet>>): (t: seq<string>)
    ensures |t| == |chunks|
  {
    seq(|chunks|, i requires 0 <= i < |chunks| => Gsm7.DecodeSeptets(chunks[i]))
  }

  function Ucs2Texts(chunks: seq<seq<Byte>>): (t: seq<string>)
    ensures |t| == |chunks|
  {
    seq(|chunks|, i requires 0 <= i < |chunks| => DecodeUcs2(chunks[i]))
  }

  lemma {:induction false} JoinGsm7(chunks: seq<seq<Septets.Septet>>)
    requires forall i :: 0 <= i < |chunks| ==> Gsm7.EscapesPaired(chunks[i])
    ensures Join(Gsm7Texts(chunks)) == Gsm7.DecodeSeptets(Flatten(chunks))
  {
    hide Gsm7.EscapesPaired, Gsm7.DecodeSeptets;
    if chunks == [] {
      assert Gsm7.DecodeSeptets([]) == "" by { EmptyTexts(); }
    } else {
      JoinGsm7(chunks[1..]);
      Gsm7.DecodeConcat(chunks[0], Flatten(chunks[1..]));
      assert Gsm7Texts(chunks)[1..] == Gsm7Texts(chunks[1..]);
    }
  }

  lemma {:induction false} JoinUcs2(chunks: seq<seq<Byte>>)
    requires forall i :: 0 <= i < |chunks| ==> Ucs2.PairsWhole(chunks[i])
    ensures Join(Ucs2Texts(chunks)) == DecodeUcs2(Flatten(chunks))
  {
    hide Ucs2.PairsWhole, DecodeUcs2;
    if chunks == [] {
      assert DecodeUcs2([]) == "" by { EmptyTexts(); }
    } else {
      JoinUcs2(chunks[1..]);
      Ucs2.DecodeConcat(chunks[0], Flatten(chunks[1..]));
      assert Ucs2Texts(chunks)[1..] == Ucs2Texts(chunks[1..]);
    }
  }

  lemma EmptyTexts()
    ensures Gsm7.DecodeSeptets([]) == "" && DecodeUcs2([]) == ""
  {}

  lemma Gsm7Carries(body: string, maxParts: nat, refNum: Byte) returns (texts: seq<string>)
    requires Gsm7.EncodeBody(body).Some? && |Gsm7.EncodeBody(body).value| > 160
    requires BuildGsm7(Gsm7.EncodeBody(body).value, maxParts, refNum) != []
    ensures Carry(BuildGsm7(Gsm7.EncodeBody(body).value, maxParts, refNum), refNum, texts)
    ensures Join(texts) == body
  {
    hide Gsm7.EncodeBody, Gsm7.DecodeSeptets, Gsm7.EscapesPaired, Chunks, Parse, Gsm7Part;
    var s := Gsm7.EncodeBody(body).value;
    var chunks := Chunks(s);
    texts := Gsm7Texts(chunks);
    ChunkSizes(s);
    Gsm7.EncodedIsPaired(body);
    ChunksAreEscapeSafe(s);
    JoinGsm7(chunks);
    Gsm7.DecodeEncode(body);
    var fields := BuildGsm7(s, maxParts, refNum);
    forall k | 0 <= k < |fields|
      ensures CarriesPart(fields[k], refNum, |texts|, k + 1, texts[k])
    {
      Gsm7PartParses(chunks[k], refNum, |chunks|, k + 1);
    }
  }

  lemma Ucs2Carries(body: string, maxParts: nat, refNum: Byte) returns (texts: seq<string>)
    requires |Ucs2.Encode(body)| > 140 && Ucs2.Build(Ucs2.Encode(body), maxParts, refNum) != []
    ensures Carry(Ucs2.Build(Ucs2.Encode(body), maxParts, refNum), refNum, texts)
    ensures Join(texts) == body
  {
    hide Ucs2.Encode, DecodeUcs2, Ucs2.PairsWhole, Ucs2.Chunks, Parse, Ucs2.Part;
    var b := Ucs2.Encode(body);
    var chunks := Ucs2.Chunks(b);
    texts := Ucs2Texts(chunks);
    Ucs2.ChunkSizes(b);
    Ucs2.EncodedIsWhole(body);
    Ucs2.ChunksAreWhole(b);
    JoinUcs2(chunks);
    Ucs2.DecodeEncode(body);
    var fields := Ucs2.Build(b, maxParts, refNum);
    forall k | 0 <= k < |fields|
      ensures CarriesPart(fields[k], refNum, |texts|, k + 1, texts[k])
    {
      Ucs2.PartParses(chunks[k], refNum, |chunks|, k + 1);
    }
  }

  // ---- Loopback ----

  /** A message field as it arrives. */
  datatype Inbound = Inbound(sender: string, timestamp: string, field: Field, slot: Option<StorageSlot>, now: nat)

  /** A parsed part into the reassembler; anything else does not belong there. */
  function FeedField(groups: seq<Group>, m: Inbound): (seq<Group>, Outcome) {
    match Parse(m.field)
    case Err(_) => (groups, Invalid)
    case Ok(p) =>
      if !p.elements.concatenated then (groups, Invalid)
      else
        var part := Part(m.sender, p.elements.refNum, p.elements.total, p.elements.part, p.content, m.timestamp);
        Feed(groups, part, m.slot, m.now)
  }

  function FeedFields(groups: seq<Group>, inbox: seq<Inbound>): (seq<Group>, seq<Outcome>)
    decreases |inbox|
  {
    if inbox == [] then (groups, [])
    else
      var (g, out) := FeedField(groups, inbox[0]);
      var (rest, outs) := FeedFields(g, inbox[1..]);
      (rest, [out] + outs)
  }

  /** What the reassembler sees of a field; one that is no part has number 0, which it ignores. */
  function AsArrival(m: Inbound): Arrival {
    match Parse(m.field)
    case Err(_) => Arrival(Part(m.sender, 0, 0, 0, "", m.timestamp), m.slot, m.now)
    case Ok(p) =>
      if !p.elements.concatenated then Arrival(Part(m.sender, 0, 0, 0, "", m.timestamp), m.slot, m.now)
      else
        var part := Part(m.sender, p.elements.refNum, p.elements.total, p.elements.part, p.content, m.timestamp);
        Arrival(part, m.slot, m.now)
  }

  function Arrivals(inbox: seq<Inbound>): (feed: seq<Arrival>)
    ensures |feed| == |inbox|
    ensures forall j :: 0 <= j < |inbox| ==> feed[j] == AsArrival(inbox[j])
  {
    seq(|inbox|, i requires 0 <= i < |inbox| => AsArrival(inbox[i]))
  }

  lemma FieldIsSeen(groups: seq<Group>, m: Inbound)
    ensures FeedField(groups, m) == Feed(groups, AsArrival(m).part, AsArrival(m).slot, AsArrival(m).now)
  {
    hide Parse, Located, FeedGroup;
  }

  lemma {:induction false} FieldsAreSeen(groups: seq<Group>, inbox: seq<Inbound>)
    ensures FeedFields(groups, inbox) == FeedAll(groups, Arrivals(inbox))
    decreases |inbox|
  {
    hide FeedField, Feed, AsArrival;
    if inbox != [] {
      FieldIsSeen(groups, inbox[0]);
      assert Arrivals(inbox)[1..] == Arrivals(inbox[1..]);
      FieldsAreSeen(FeedField(groups, inbox[0]).0, inbox[1..]);
    }
  }

  /** Whatever comes with the key of the built message is one of its fields. */
  ghost predicate Genuine(inbox: seq<Inbound>, key: Key, fields: seq<Field>) {
    forall j :: 0 <= j < |inbox| && IsOf(AsArrival(inbox[j]), key) ==> inbox[j].field in fields
  }

  lemma GenuineIsFaithful(inbox: seq<Inbound>, key: Key, fields: seq<Field>, refNum: nat, texts: seq<string>)
    requires Carry(fields, refNum, texts) && Genuine(inbox, key, fields)
    ensures AllFaithful(Arrivals(inbox), key, texts)
  {
    hide Parse;
    var feed := Arrivals(inbox);
    forall j | 0 <= j < |feed| ensures Faithful(feed[j].part, key, texts) {
      if IsOf(feed[j], key) {
        var k: nat :| k < |fields| && fields[k] == inbox[j].field;
        assert CarriesPart(fields[k], refNum, |texts|, k + 1, texts[k]);
      }
    }
  }

  /** A message sent in one part parses to exactly its body. */
  lemma SinglePartLoopback(body: string, maxParts: nat, refNum: Byte)
    requires |Build(body, maxParts, refNum)| == 1
    ensures Parse(Build(body, maxParts, refNum)[0]) == Ok(Parsed(body, NO_ELEMENTS))
  {
    hide Gsm7.EncodeBody, Gsm7.DecodeSeptets, Ucs2.Encode, DecodeUcs2, Parse, Septets.Pack, Chunks, Ucs2.Chunks;
    match Gsm7.EncodeBody(body) {
      case Some(s) =>
        if |s| > 160 { LongMeansMany(s); }
        SingleParses(s);
        Gsm7.DecodeEncode(body);
      case None =>
        var b := Ucs2.Encode(body);
        if |b| > 140 { LongUcs2MeansMany(b); }
        Ucs2.SingleParses(b);
        Ucs2.DecodeEncode(body);
    }
  }

  lemma LongMeansMany(s: seq<Septets.Septet>)
    requires |s| > 160
    ensures |Chunks(s)| >= 2
  {}

  lemma LongUcs2MeansMany(b: seq<Byte>)
    requires |b| > 140
    ensures |Ucs2.Chunks(b)| >= 2
  {}

  /** Fields that carry the parts of a message deliver it, in any order, with repeats, between
      the traffic of other messages and whatever else is being collected. */
  lemma {:induction false} CarriedDelivers(fields: seq<Field>, refNum: nat, texts: seq<string>, groups: seq<Group>,
                                           sender: string, inbox: seq<Inbound>)
    requires Carry(fields, refNum, texts)
    requires var key, feed := Key(sender, refNum, |fields|), Arrivals(inbox);
      && Genuine(inbox, key, fields)
      && feed != [] && IsOf(feed[0], key) && Timely(feed, feed[0].now)
      && Absent(groups, key) && Uncrowded(groups, feed, key) && CompletesAtEnd(feed, key, {})
      && Coherent(Slots(feed, key))
    ensures var key, feed := Key(sender, refNum, |fields|), Arrivals(inbox);
      DeliversAtEnd(feed, FeedFields(groups, inbox).1, key, Join(texts), inbox[0].timestamp, Slots(feed, key))
  {
    hide CompletesAtEnd, Absent, DeliversAtEnd, FeedFields, FeedAll, Join, Carry, Genuine, AllFaithful, Timely,
         Uncrowded, Coherent, Slots;
    var key, feed := Key(sender, refNum, |fields|), Arrivals(inbox);
    GenuineIsFaithful(inbox, key, fields, refNum, texts);
    FieldsAreSeen(groups, inbox);
    AnyOrderDelivers(groups, key, texts, feed);
  }

  /** A message sent in several parts comes back whole: whatever the order of arrival, with
      repeats, between the traffic of other messages and whatever else is being collected, the
      last missing part delivers exactly the body, with the slots of all its parts. */
  lemma {:induction false} MultipartLoopback(body: string, maxParts: nat, refNum: Byte, groups: seq<Group>,
                                             sender: string, inbox: seq<Inbound>)
    requires var fields := Build(body, maxParts, refNum);
      var key, feed := Key(sender, refNum, |fields|), Arrivals(inbox);
      && |fields| > 1 && Genuine(inbox, key, fields)
      && feed != [] && IsOf(feed[0], key) && Timely(feed, feed[0].now)
      && Absent(groups, key) && Uncrowded(groups, feed, key) && CompletesAtEnd(feed, key, {})
      && Coherent(Slots(feed, key))
    ensures var key, feed := Key(sender, refNum, |Build(body, maxParts, refNum)|), Arrivals(inbox);
      DeliversAtEnd(feed, FeedFields(groups, inbox).1, key, body, inbox[0].timestamp, Slots(feed, key))
  {
    hide CompletesAtEnd, Absent, DeliversAtEnd, FeedFields, FeedAll, Join, Carry, Build, Genuine, AllFaithful, Timely,
         Uncrowded, Coherent, Slots;
    var texts := BuiltCarries(body, maxParts, refNum);
    CarrySizes(Build(body, maxParts, refNum), refNum, texts);
    CarriedDelivers(Build(body, maxParts, refNum), refNum, texts, groups, sender, inbox);
  }

  lemma CarrySizes(fields: seq<Field>, refNum: nat, texts: seq<string>)
    requires Carry(fields, refNum, texts)
    ensures |fields| == |texts|
  {}

  lemma BuiltCarries(body: string, maxParts: nat, refNum: Byte) returns (texts: seq<string>)
    requires |Build(body, maxParts, refNum)| > 1
    ensures Carry(Build(body, maxParts, refNum), refNum, texts)
    ensures Join(texts) == body
  {
    hide Gsm7.EncodeBody, Ucs2.Encode, Carry, Join;
    match Gsm7.EncodeBody(body) {
      case Some(s) => texts := Gsm7Carries(body, maxParts, refNum);
      case None => texts := Ucs2Carries(body, maxParts, refNum);
    }
  }

  // ---- Messages of other senders ----

  /** A part as another sender may write it: any header, any coding, text that fits. */
  datatype Foreign =
    | Septet7(dcs: Byte, es: seq<H.Element>, tail: seq<Byte>, septets: seq<Septets.Septet>)
    | Octet8(dcs: Byte, es: seq<H.Element>, tail: seq<Byte>, octets: seq<Byte>)

  predicate WellFormed(p: Foreign) {
    && H.Fits(p.es, p.tail)
    && match p
       case Septet7(dcs, es, tail, septets) =>
         AlphabetOf(dcs) == Gsm7Bit && HeaderSeptets(|H.Header(es, tail)|) + |septets| < 0x100
       case Octet8(dcs, es, tail, octets) => AlphabetOf(dcs) != Gsm7Bit && |H.Header(es, tail)| + |octets| < 0x100
  }

  function FieldOf(p: Foreign): Field
    requires WellFormed(p)
  {
    match p
    case Septet7(dcs, es, tail, septets) => H.Gsm7Field(dcs, es, tail, septets)
    case Octet8(dcs, es, tail, octets) => H.OctetField(dcs, es, tail, octets)
  }

  function TextOf(p: Foreign): string {
    match p
    case Septet7(_, _, _, septets) => Gsm7.DecodeSeptets(septets)
    case Octet8(dcs, _, _, octets) => if AlphabetOf(dcs) == EightBit then DecodeLatin1(octets) else DecodeUcs2(octets)
  }

  function Fields(parts: seq<Foreign>): (fields: seq<Field>)
    requires forall k :: 0 <= k < |parts| ==> WellFormed(parts[k])
    ensures |fields| == |parts|
  {
    seq(|parts|, k requires 0 <= k < |parts| => FieldOf(parts[k]))
  }

  function Texts(parts: seq<Foreign>): (texts: seq<string>)
    ensures |texts| == |parts|
  {
    seq(|parts|, k requires 0 <= k < |parts| => TextOf(parts[k]))
  }

  /** The parts of one message, in order: each header says so last, whatever else it says. */
  ghost predicate Numbered(parts: seq<Foreign>, refNum: nat) {
    && |parts| < 0x100
    && forall k :: 0 <= k < |parts| ==>
         WellFormed(parts[k]) && H.LastPlace(parts[k].es) == Some(H.Place(refNum, |parts|, k + 1))
  }

  lemma FieldCarries(p: Foreign, place: H.Place)
    requires WellFormed(p) && H.LastPlace(p.es) == Some(place)
    ensures CarriesPart(FieldOf(p), place.refNum, place.total as int, place.part as int, TextOf(p))
  {
    hide Parse, H.Fits, Gsm7.DecodeSeptets, DecodeUcs2, DecodeLatin1, H.LastPorts, AlphabetOf;
    match p {
      case Septet7(dcs, es, tail, septets) => H.Gsm7FieldParses(dcs, es, tail, septets);
      case Octet8(dcs, es, tail, octets) => H.OctetFieldParses(dcs, es, tail, octets);
    }
  }

  /** A message of another sender, under a reference of 8 or 16 bits, in any coding and with any
      other elements in its headers, is delivered as its parts' texts joined. */
  lemma {:induction false} ForeignDelivers(parts: seq<Foreign>, refNum: nat, groups: seq<Group>, sender: string,
                                           inbox: seq<Inbound>)
    requires Numbered(parts, refNum)
    requires var key, feed := Key(sender, refNum, |parts|), Arrivals(inbox);
      && Genuine(inbox, key, Fields(parts))
      && feed != [] && IsOf(feed[0], key) && Timely(feed, feed[0].now)
      && Absent(groups, key) && Uncrowded(groups, feed, key) && CompletesAtEnd(feed, key, {})
      && Coherent(Slots(feed, key))
    ensures var key, feed := Key(sender, refNum, |parts|), Arrivals(inbox);
      DeliversAtEnd(feed, FeedFields(groups, inbox).1, key, Join(Texts(parts)), inbox[0].timestamp, Slots(feed, key))
  {
    hide CompletesAtEnd, Absent, DeliversAtEnd, FeedFields, Join, Genuine, Timely, Uncrowded, Coherent, Slots,
         CarriesPart, FieldOf, TextOf, WellFormed;
    var fields, texts := Fields(parts), Texts(parts);
    forall k | 0 <= k < |fields| ensures CarriesPart(fields[k], refNum, |texts|, k + 1, texts[k]) {
      FieldCarries(parts[k], H.Place(refNum, |parts|, k + 1));
    }
    CarriedDelivers(fields, refNum, texts, groups, sender, inbox);
  }
}
