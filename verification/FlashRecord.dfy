/** One 256-byte record slot of the event log: its image, how it is read back,
    and what a write that stops early leaves behind. */
module FlashRecord {
  import opened Common
  import Bits
  import opened LogPayload
  import opened RingCells

  const RECORD_SIZE: nat := 256
  const HEADER_SIZE: nat := 16
  const MAGIC: seq<Byte> := [0x47, 0x4C, 0x4D, 0x53]
  type Slot = s: seq<Byte> | |s| == RECORD_SIZE witness seq(RECORD_SIZE, _ => 0xFF)

  function Erased(): (s: Slot) {
    seq(RECORD_SIZE, _ => 0xFF)
  }

  function Ones(n: nat): seq<Byte> {
    seq(n, _ => 0xFF)
  }

  // ---- Little-endian words ----

  function Le2(n: nat): (b: seq<Byte>)
    requires n < 0x1_0000
    ensures |b| == 2
  {
    [n % 256, n / 256]
  }

  function Le4(n: nat): (b: seq<Byte>)
    requires n < WORD
    ensures |b| == 4
  {
    [n % 256, n / 256 % 256, n / 256 / 256 % 256, n / 256 / 256 / 256]
  }

  function FromLe2(b: seq<Byte>): (n: nat)
    requires |b| == 2
  {
    b[0] as int + 256 * b[1] as int
  }

  function FromLe4(b: seq<Byte>): (n: nat)
    requires |b| == 4
  {
    b[0] as int + 256 * (b[1] as int + 256 * (b[2] as int + 256 * b[3] as int))
  }

  lemma Le4RoundTrip(n: nat)
    requires n < WORD
    ensures FromLe4(Le4(n)) == n
  {}

  lemma Le2RoundTrip(n: nat)
    requires n < 0x1_0000
    ensures FromLe2(Le2(n)) == n
  {}

  // ---- Image of a record, and reading it ----

  function HeaderBytes(seqNo: nat, payload: seq<Byte>): (h: seq<Byte>)
    requires seqNo < WORD && |payload| <= PAYLOAD_SIZE
    ensures |h| == HEADER_SIZE
  {
    MAGIC + Le4(seqNo) + Le2(|payload|) + Le4(Checksum(payload)) + Ones(2)
  }

  function Record(seqNo: nat, payload: seq<Byte>): (s: Slot)
    requires seqNo < WORD && |payload| <= PAYLOAD_SIZE
  {
    HeaderBytes(seqNo, payload) + payload + Ones(PAYLOAD_SIZE - |payload|)
  }

  /** Everything the reader checks before it trusts a slot. */
  function ReadMeta(s: Slot): Option<Meta<seq<Byte>>> {
    if s == Erased() then None
    else if s[0..4] != MAGIC then None
    else
      var seqNo, len, expected := FromLe4(s[4..8]), FromLe2(s[8..10]), FromLe4(s[10..14]);
      if seqNo == 0 || len > PAYLOAD_SIZE then None
      else
        var payload := s[HEADER_SIZE..HEADER_SIZE + len];
        if Checksum(payload) != expected then None else Some(Meta(seqNo, payload))
  }

  /** How mounting sees a slot. */
  function Classify(s: Slot): Cell<seq<Byte>> {
    match ReadMeta(s)
    case Some(m) => Rec(m)
    case None => if s == Erased() then Blank else Torn
  }

  /** Where the fields of a record lie, whatever its payload area holds. */
  lemma RecordFields(seqNo: nat, payload: seq<Byte>, s: Slot)
    requires seqNo < WORD && |payload| <= PAYLOAD_SIZE
    requires s[..HEADER_SIZE] == HeaderBytes(seqNo, payload)
    ensures s[0..4] == MAGIC && s != Erased()
    ensures FromLe4(s[4..8]) == seqNo
    ensures FromLe2(s[8..10]) == |payload|
    ensures FromLe4(s[10..14]) == Checksum(payload)
  {
    hide HeaderBytes, Le4, Le2, FromLe4, FromLe2, Checksum;
    var h := HeaderBytes(seqNo, payload);
    assert s[0..4] == h[0..4] && s[4..8] == h[4..8] && s[8..10] == h[8..10] && s[10..14] == h[10..14];
    HeaderLayout(seqNo, payload);
    Le4RoundTrip(seqNo);
    Le4RoundTrip(Checksum(payload));
    Le2RoundTrip(|payload|);
    assert s[0] == s[0..4][0] == 0x47;
  }

  lemma HeaderLayout(seqNo: nat, payload: seq<Byte>)
    requires seqNo < WORD && |payload| <= PAYLOAD_SIZE
    ensures var h := HeaderBytes(seqNo, payload);
      h[0..4] == MAGIC && h[4..8] == Le4(seqNo) && h[8..10] == Le2(|payload|) && h[10..14] == Le4(Checksum(payload))
  {
    hide Le4, Le2, Checksum;
    FourFields(MAGIC, Le4(seqNo), Le2(|payload|), Le4(Checksum(payload)), Ones(2));
  }

  lemma FourFields(a: seq<Byte>, b: seq<Byte>, c: seq<Byte>, d: seq<Byte>, e: seq<Byte>)
    requires |a| == |b| == |d| == 4 && |c| == |e| == 2
    ensures var h := a + b + c + d + e; h[0..4] == a && h[4..8] == b && h[8..10] == c && h[10..14] == d
  {}

  lemma ReadRecord(seqNo: nat, payload: seq<Byte>)
    requires 1 <= seqNo < WORD && |payload| <= PAYLOAD_SIZE
    ensures ReadMeta(Record(seqNo, payload)) == Some(Meta(seqNo, payload))
  {
    var s := Record(seqNo, payload);
    assert s[..HEADER_SIZE] == HeaderBytes(seqNo, payload);
    RecordFields(seqNo, payload, s);
    assert s[HEADER_SIZE..HEADER_SIZE + |payload|] == payload;
  }

  lemma LowByte(b: Byte, m: nat)
    ensures (b as int + 256 * m) % 256 == b as int && (b as int + 256 * m) / 256 == m
  {}

  lemma Le4Unique(b: seq<Byte>)
    requires |b| == 4
    ensures FromLe4(b) < WORD && Le4(FromLe4(b)) == b
  {
    var high: nat := b[2] as int + 256 * b[3] as int;
    LowByte(b[2], b[3] as int);
    LowByte(b[1], high);
    LowByte(b[0], b[1] as int + 256 * high);
  }

  lemma Le2Unique(b: seq<Byte>)
    requires |b| == 2
    ensures FromLe2(b) < 0x1_0000 && Le2(FromLe2(b)) == b
  {}

  /** The checked part of a record: its header without the padding, and its payload. */
  predicate Carries(s: Slot, seqNo: nat, payload: seq<Byte>) {
    && 1 <= seqNo < WORD && |payload| <= PAYLOAD_SIZE
    && s[..14] == HeaderBytes(seqNo, payload)[..14] && s[HEADER_SIZE..HEADER_SIZE + |payload|] == payload
  }

  lemma CarriedFields(seqNo: nat, payload: seq<Byte>, s: Slot)
    requires seqNo < WORD && |payload| <= PAYLOAD_SIZE
    ensures s[..14] == HeaderBytes(seqNo, payload)[..14] <==>
            && s[0..4] == MAGIC && s[4..8] == Le4(seqNo) && s[8..10] == Le2(|payload|)
            && s[10..14] == Le4(Checksum(payload))
  {
    hide HeaderBytes, Le4, Le2, Checksum;
    var h := HeaderBytes(seqNo, payload);
    HeaderLayout(seqNo, payload);
    FourParts(s);
    FourParts(h);
  }

  lemma FourParts(s: seq<Byte>)
    requires |s| >= 14
    ensures s[..14] == s[0..4] + s[4..8] + s[8..10] + s[10..14]
  {}

  /** A slot reads as a record exactly when it carries that record's header and payload, whatever
      else is in it: nothing less is trusted, and nothing more is looked at. */
  lemma ReadsExactly(s: Slot, seqNo: nat, payload: seq<Byte>)
    ensures ReadMeta(s) == Some(Meta(seqNo, payload)) <==> Carries(s, seqNo, payload)
  {
    hide HeaderBytes, Le4, Le2, FromLe4, FromLe2, Checksum;
    Le4Unique(s[4..8]);
    Le4Unique(s[10..14]);
    Le2Unique(s[8..10]);
    if s[0..4] == MAGIC { MagicIsNotErased(s); }
    if seqNo < WORD && |payload| <= PAYLOAD_SIZE {
      CarriedFields(seqNo, payload, s);
      Le4RoundTrip(seqNo);
      Le4RoundTrip(Checksum(payload));
      Le2RoundTrip(|payload|);
    }
  }

  lemma MagicIsNotErased(s: Slot)
    requires s[0..4] == MAGIC
    ensures s != Erased()
  {
    assert s[0] == s[0..4][0] == 0x47;
  }

  // ---- Programming flash clears bits ----

  /** The slot after the first `k` bytes of `data` have been programmed into it. */
  function Program(prior: Slot, data: Slot, k: nat): (s: Slot)
    requires k <= RECORD_SIZE
  {
    seq(RECORD_SIZE, i requires 0 <= i < RECORD_SIZE =>
      if i < k then AndBytes(prior[i], data[i]) else prior[i])
  }

  function AndBytes(a: Byte, b: Byte): (r: Byte) {
    AndBound(a, b);
    Bits.BitAnd(a, b)
  }

  lemma {:induction false} AndBound(a: nat, b: nat)
    ensures Bits.BitAnd(a, b) <= a
    decreases a
  {
    if a > 0 { AndBound(a / 2, b / 2); }
  }

  /** On an erased slot, clearing bits writes exactly the programmed prefix. */
  lemma ProgramErased(data: Slot, k: nat)
    requires k <= RECORD_SIZE
    ensures Program(Erased(), data, k) == data[..k] + Ones(RECORD_SIZE - k)
    ensures k == RECORD_SIZE ==> Program(Erased(), data, k) == data
  {
    forall b: Byte ensures AndBytes(0xFF, b) == b { Bits.AndByte(b); }
    assert Program(Erased(), data, k) == data[..k] + Ones(RECORD_SIZE - k);
  }

  /** What a write into an erased slot leaves when it stops after `k` bytes. */
  function CutImage(seqNo: nat, payload: seq<Byte>, k: nat): (s: Slot)
    requires seqNo < WORD && |payload| <= PAYLOAD_SIZE && k <= RECORD_SIZE
  {
    Program(Erased(), Record(seqNo, payload), k)
  }

  lemma CutBody(seqNo: nat, payload: seq<Byte>, k: nat)
    requires seqNo < WORD && |payload| <= PAYLOAD_SIZE && HEADER_SIZE <= k <= HEADER_SIZE + |payload|
    ensures CutImage(seqNo, payload, k)
         == HeaderBytes(seqNo, payload) + payload[..k - HEADER_SIZE] + Ones(RECORD_SIZE - k)
  {
    ProgramErased(Record(seqNo, payload), k);
  }

  /** A write cut inside the first ten bytes is never mistaken for a record. */
  lemma CutInHeaderUnreadable(seqNo: nat, payload: seq<Byte>, k: nat)
    requires seqNo < WORD && |payload| <= PAYLOAD_SIZE && k < 10
    ensures ReadMeta(CutImage(seqNo, payload, k)) == None
  {
    var rec := Record(seqNo, payload);
    ProgramErased(rec, k);
    var s := CutImage(seqNo, payload, k);
    if k < 4 {
      assert s[3] == 0xFF;
      assert s[0..4][3] == 0xFF && MAGIC[3] != 0xFF;
    } else {
      assert s[9] == 0xFF;
      assert FromLe2(s[8..10]) >= 0xFF00;
    }
  }

  /** A write that lost only its last payload byte is never mistaken for a record. */
  lemma CutBeforeLastByteUnreadable(seqNo: nat, payload: seq<Byte>)
    requires 1 <= seqNo < WORD && 1 <= |payload| <= PAYLOAD_SIZE
    requires payload[|payload| - 1] != 0xFF
    ensures ReadMeta(CutImage(seqNo, payload, HEADER_SIZE + |payload| - 1)) == None
  {
    hide ReadMeta, Checksum, ChecksumFrom, HeaderBytes;
    var n := |payload| - 1;
    CutBody(seqNo, payload, HEADER_SIZE + n);
    assert CutImage(seqNo, payload, HEADER_SIZE + n) == Record(seqNo, payload)[HEADER_SIZE + n := 0xFF];
    OneBadPayloadByteRejected(seqNo, payload, n, 0xFF);
  }

  /** Once every payload byte is programmed the record is complete. */
  lemma CutAfterPayloadIsComplete(seqNo: nat, payload: seq<Byte>, k: nat)
    requires seqNo < WORD && |payload| <= PAYLOAD_SIZE && HEADER_SIZE + |payload| <= k <= RECORD_SIZE
    ensures CutImage(seqNo, payload, k) == Record(seqNo, payload)
  {
    ProgramErased(Record(seqNo, payload), k);
  }

  /** A stored record with exactly one wrong payload byte is rejected. */
  lemma OneBadPayloadByteRejected(seqNo: nat, payload: seq<Byte>, i: nat, b: Byte)
    requires 1 <= seqNo < WORD && |payload| <= PAYLOAD_SIZE
    requires i < |payload| && b != payload[i]
    ensures ReadMeta(Record(seqNo, payload)[HEADER_SIZE + i := b]) == None
  {
    var s: Slot := Record(seqNo, payload)[HEADER_SIZE + i := b];
    assert s[..HEADER_SIZE] == HeaderBytes(seqNo, payload);
    RecordFields(seqNo, payload, s);
    assert s[HEADER_SIZE..HEADER_SIZE + |payload|] == payload[i := b];
    OneByteChangesChecksum(0x811C_9DC5, payload, i, b);
  }
}
