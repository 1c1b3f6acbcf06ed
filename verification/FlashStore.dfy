/** The event log as it runs: an array of flash bytes whose writes only clear bits, and
    a ring object with a RAM cursor over it. */
module FlashStore {
  import opened Common
  import opened LogPayload
  import opened RingCells
  import opened FlashRecord
  import opened FlashLog
  import opened LogPages

  datatype StorageError = OutOfBounds | InvalidGeometry | EntryTooLarge(len: nat) | DeviceFailure

  // ---- Slots of a byte array ----

  function SlotsOf(bytes: seq<Byte>): (s: seq<Slot>)
    requires |bytes| % RECORD_SIZE == 0
    ensures |s| == |bytes| / RECORD_SIZE
  {
    seq(|bytes| / RECORD_SIZE, i requires 0 <= i < |bytes| / RECORD_SIZE =>
      bytes[i * RECORD_SIZE..i * RECORD_SIZE + RECORD_SIZE])
  }

  /** Bytes after the first `k` bytes of `patch` have been programmed at `offset`. */
  function ProgramBytes(bytes: seq<Byte>, offset: nat, patch: seq<Byte>, k: nat): (r: seq<Byte>)
    requires offset + |patch| <= |bytes| && k <= |patch|
    ensures |r| == |bytes|
  {
    seq(|bytes|, i requires 0 <= i < |bytes| =>
      if offset <= i < offset + k then AndBytes(bytes[i], patch[i - offset]) else bytes[i])
  }

  function EraseBytes(bytes: seq<Byte>, offset: nat, len: nat): (r: seq<Byte>)
    requires offset + len <= |bytes|
    ensures |r| == |bytes|
  {
    seq(|bytes|, i requires 0 <= i < |bytes| => if offset <= i < offset + len then 0xFF else bytes[i])
  }

  lemma ProgramSlot(bytes: seq<Byte>, t: nat, rec: Slot, k: nat)
    requires |bytes| % RECORD_SIZE == 0 && t < |bytes| / RECORD_SIZE && k <= RECORD_SIZE
    ensures SlotsOf(ProgramBytes(bytes, t * RECORD_SIZE, rec, k))
         == SlotsOf(bytes)[t := Program(SlotsOf(bytes)[t], rec, k)]
  {
    hide AndBytes;
    var b2 := ProgramBytes(bytes, t * RECORD_SIZE, rec, k);
    forall i | 0 <= i < |SlotsOf(bytes)|
      ensures SlotsOf(b2)[i] == SlotsOf(bytes)[t := Program(SlotsOf(bytes)[t], rec, k)][i]
    {
      forall j | 0 <= j < RECORD_SIZE
        ensures SlotsOf(b2)[i][j] == SlotsOf(bytes)[t := Program(SlotsOf(bytes)[t], rec, k)][i][j]
      {
        assert SlotsOf(b2)[i][j] == b2[i * RECORD_SIZE + j];
      }
    }
  }

  lemma EraseSlotAt(slots: seq<Slot>, t: nat, spe: nat, i: nat)
    requires t + spe <= |slots| && i < |slots|
    ensures EraseSlots(slots, t, spe)[i] == if t <= i < t + spe then Erased() else slots[i]
  {}

  lemma EraseSlotsOf(bytes: seq<Byte>, t: nat, spe: nat)
    requires |bytes| % RECORD_SIZE == 0 && t + spe <= |bytes| / RECORD_SIZE
    ensures SlotsOf(EraseBytes(bytes, t * RECORD_SIZE, spe * RECORD_SIZE)) == EraseSlots(SlotsOf(bytes), t, spe)
  {
    var b2 := EraseBytes(bytes, t * RECORD_SIZE, spe * RECORD_SIZE);
    forall i | 0 <= i < |SlotsOf(bytes)| ensures SlotsOf(b2)[i] == EraseSlots(SlotsOf(bytes), t, spe)[i] {
      EraseSlotAt(SlotsOf(bytes), t, spe, i);
      forall j | 0 <= j < RECORD_SIZE
        ensures SlotsOf(b2)[i][j] == (if t <= i < t + spe then Erased() else SlotsOf(bytes)[i])[j]
      {
        assert SlotsOf(b2)[i][j] == b2[i * RECORD_SIZE + j];
      }
    }
  }

  // ---- Storage ----

  class MemFlash {
    const data: array<Byte>
    const eraseSize: nat

    constructor (size: nat, eraseSize: nat)
      ensures fresh(data) && data.Length == size && this.eraseSize == eraseSize
      ensures forall i :: 0 <= i < size ==> data[i] == 0xFF
    {
      this.eraseSize := eraseSize;
      data := new Byte[size](_ => 0xFF);
    }

    method Read(offset: nat, len: nat) returns (r: Result<seq<Byte>, StorageError>)
      ensures r == if offset + len <= data.Length then Ok(data[offset..offset + len]) else Err(OutOfBounds)
    {
      if offset + len > data.Length {
        return Err(OutOfBounds);
      }
      return Ok(data[offset..offset + len]);
    }

    /** Programs `bytes` at `offset`, clearing bits only.  When the device fails, it does so
        after `failsAfter` bytes. */
    method Write(offset: nat, bytes: seq<Byte>, failsAfter: Option<nat>) returns (r: Result<(), StorageError>)
      requires failsAfter.Some? ==> failsAfter.value <= |bytes|
      modifies data
      ensures offset + |bytes| > data.Length ==> r == Err(OutOfBounds) && data[..] == old(data[..])
      ensures offset + |bytes| <= data.Length ==>
        && r == (if failsAfter.Some? then Err(DeviceFailure) else Ok(()))
        && data[..] == ProgramBytes(old(data[..]), offset, bytes,
                                    if failsAfter.Some? then failsAfter.value else |bytes|)
    {
      if offset + |bytes| > data.Length {
        return Err(OutOfBounds);
      }
      var stop := if failsAfter.Some? then failsAfter.value else |bytes|;
      for i := 0 to stop
        invariant forall j :: 0 <= j < data.Length ==>
          data[j] == if offset <= j < offset + i then AndBytes(old(data[j]), bytes[j - offset]) else old(data[j])
      {
        data[offset + i] := AndBytes(data[offset + i], bytes[i]);
      }
      assert data[..] == ProgramBytes(old(data[..]), offset, bytes, stop);
      return if failsAfter.Some? then Err(DeviceFailure) else Ok(());
    }

    method Erase(offset: nat, len: nat, works: bool) returns (r: Result<(), StorageError>)
      requires eraseSize > 0
      modifies data
      ensures r.Ok? <==> offset % eraseSize == 0 && len % eraseSize == 0 && offset + len <= data.Length && works
      ensures r.Ok? ==> data[..] == EraseBytes(old(data[..]), offset, len)
      ensures r.Err? ==> data[..] == old(data[..])
    {
      if offset % eraseSize != 0 || len % eraseSize != 0 {
        return Err(InvalidGeometry);
      }
      if offset + len > data.Length {
        return Err(OutOfBounds);
      }
      if !works {
        return Err(DeviceFailure);
      }
      forall i | offset <= i < offset + len {
        data[i] := 0xFF;
      }
      assert data[..] == EraseBytes(old(data[..]), offset, len);
      return Ok(());
    }
  }

  predicate ValidGeometry(size: nat, eraseSize: nat) {
    && size >= RECORD_SIZE && size % RECORD_SIZE == 0
    && eraseSize >= RECORD_SIZE && eraseSize % RECORD_SIZE == 0
    && size % eraseSize == 0
  }

  lemma GeometryOf(size: nat, eraseSize: nat)
    requires ValidGeometry(size, eraseSize)
    ensures Geometry(size / RECORD_SIZE, eraseSize / RECORD_SIZE)
    ensures size == size / RECORD_SIZE * RECORD_SIZE && eraseSize == eraseSize / RECORD_SIZE * RECORD_SIZE
  {
    var n, spe, k := size / RECORD_SIZE, eraseSize / RECORD_SIZE, size / eraseSize;
    assert size == k * eraseSize;
    assert n * RECORD_SIZE == (k * spe) * RECORD_SIZE;
    DivUnique(n, spe, k, 0);
    SectorArithmetic(n, spe);
  }

  /** The accepted geometries: whole records, whole sectors of whole records, at least one. */
  lemma GeometryExactly(size: nat, eraseSize: nat)
    ensures ValidGeometry(size, eraseSize) <==>
            exists spe: nat, sectors: nat :: spe >= 1 && sectors >= 1 && eraseSize == 256 * spe
                                             && size == sectors * eraseSize
  {
    if ValidGeometry(size, eraseSize) {
      var spe, sectors := eraseSize / 256, size / eraseSize;
      assert eraseSize == 256 * spe && size == sectors * eraseSize;
      assert size == 0 || sectors >= 1;
    }
    forall spe: nat, sectors: nat | spe >= 1 && sectors >= 1 && eraseSize == 256 * spe && size == sectors * eraseSize
      ensures ValidGeometry(size, eraseSize)
    {
      WholeSectors(spe, sectors);
    }
  }

  lemma WholeSectors(spe: nat, sectors: nat)
    requires spe >= 1 && sectors >= 1
    ensures ValidGeometry(sectors * (256 * spe), 256 * spe)
  {
    var size := sectors * (256 * spe);
    assert size == 256 * (sectors * spe);
    assert sectors * spe >= 1;
    DivUnique(size, 256 * spe, sectors, 0);
    DivUnique(size, 256, sectors * spe, 0);
    DivUnique(256 * spe, 256, spe, 0);
  }

  // ---- The ring object ----

  class FlashLogRing {
    const storage: MemFlash
    const slots: nat
    const slotsPerErase: nat
    var nextSeq: nat
    var nextSlot: nat

    ghost predicate Valid()
      reads this, storage.data
    {
      && storage.data.Length == slots * RECORD_SIZE
      && storage.eraseSize == slotsPerErase * RECORD_SIZE
      && Geometry(slots, slotsPerErase)
      && nextSlot < slots && 1 <= nextSeq <= MAX_SEQ
    }

    ghost function Slots(): (s: seq<Slot>)
      requires Valid()
      reads this, storage.data
      ensures |s| == slots
    {
      SlotsOf(storage.data[..])
    }

    ghost function View(): Ring
      requires Valid()
      reads this, storage.data
    {
      RingState(Slots(), slotsPerErase, Cursor(nextSeq, nextSlot))
    }

    constructor Resume(storage: MemFlash, slots: nat, slotsPerErase: nat, nextSeq: nat, nextSlot: nat)
      ensures this.storage == storage && this.slots == slots && this.slotsPerErase == slotsPerErase
      ensures this.nextSeq == nextSeq && this.nextSlot == nextSlot
    {
      this.storage, this.slots, this.slotsPerErase := storage, slots, slotsPerErase;
      this.nextSeq, this.nextSlot := nextSeq, nextSlot;
    }

    /** Reads one slot; it never fails on a slot of the ring. */
    method ReadSlot(slot: nat) returns (r: Slot)
      requires Valid() && slot < slots
      ensures r == Slots()[slot]
    {
      var bytes := storage.Read(slot * RECORD_SIZE, RECORD_SIZE);
      return bytes.value;
    }

    method Append(entry: LogEntry, device: Device) returns (r: Result<(), StorageError>)
      requires Valid()
      requires device.writeFailsAfter.Some? ==> device.writeFailsAfter.value <= RECORD_SIZE
      modifies this, storage.data
      ensures Valid()
      ensures EncodePayload(entry).Err? ==>
        r == Err(EntryTooLarge(EncodePayload(entry).error)) && View() == old(View())
      ensures EncodePayload(entry).Ok? ==>
        && |EncodePayload(entry).value| <= PAYLOAD_SIZE
        && (View(), r.Ok?) == AppendPayload(old(View()), EncodePayload(entry).value, device)
    {
      var encoded := EncodeEntry(entry);
      if encoded.Err? {
        return Err(EntryTooLarge(encoded.error));
      }
      PayloadFits(entry);
      var payload: Payload := encoded.value;
      r := AppendEncoded(payload, device);
    }

    method AppendEncoded(payload: Payload, device: Device) returns (r: Result<(), StorageError>)
      requires Valid()
      requires device.writeFailsAfter.Some? ==> device.writeFailsAfter.value <= RECORD_SIZE
      modifies this, storage.data
      ensures Valid()
      ensures (View(), r.Ok?) == AppendPayload(old(View()), payload, device)
    {
      hide Program, Record, SlotsOf, SectorStart;
      SectorArithmetic(nextSlot, slotsPerErase);
      if nextSlot % slotsPerErase == 0 {
        r := EraseForAppend(device.eraseOk);
        if r.Err? {
          return;
        }
      }
      r := ProgramNext(payload, device.writeFailsAfter);
      if r.Err? {
        if nextSlot % slotsPerErase != 0 {
          nextSlot := SectorAfter(nextSlot, slots, slotsPerErase);
        }
        return;
      }
      nextSeq := if nextSeq == MAX_SEQ then 1 else nextSeq + 1;
      WrapIsRemainder(nextSlot + 1, slots);
      nextSlot := (nextSlot + 1) % slots;
    }

    /** Writes the next record into its slot, erased or not. */
    method ProgramNext(payload: Payload, failsAfter: Option<nat>) returns (r: Result<(), StorageError>)
      requires Valid()
      requires failsAfter.Some? ==> failsAfter.value <= RECORD_SIZE
      modifies storage.data
      ensures Valid() && r.Ok? == failsAfter.None?
      ensures Slots() == old(Slots())[nextSlot := Program(old(Slots())[nextSlot], Record(nextSeq, payload),
                                                          if failsAfter.Some? then failsAfter.value else RECORD_SIZE)]
    {
      hide Program, Record, SlotsOf, ProgramBytes, SectorStart;
      var image := BuildRecord(nextSeq, payload);
      ghost var bytes := storage.data[..];
      r := storage.Write(nextSlot * RECORD_SIZE, image, failsAfter);
      ProgramSlot(bytes, nextSlot, image, if failsAfter.Some? then failsAfter.value else RECORD_SIZE);
    }

    method EraseForAppend(works: bool) returns (r: Result<(), StorageError>)
      requires Valid() && Aligned(nextSlot, slotsPerErase)
      modifies storage.data
      ensures Valid() && r.Ok? == works
      ensures Slots() == if works then PreparedSlots(old(View())) else old(Slots())
    {
      hide SlotsOf, EraseBytes, EraseSlots;
      ghost var bytes := storage.data[..];
      assert nextSlot == End(nextSlot, slots, slotsPerErase) - slotsPerErase;
      EraseAligned();
      r := storage.Erase(nextSlot * RECORD_SIZE, storage.eraseSize, works);
      EraseSlotsOf(bytes, nextSlot, slotsPerErase);
    }

    // ---- Reads ----

    method EntryCountOf() returns (count: nat)
      requires Valid()
      ensures count == EntryCount(Slots())
    {
      hide ReadMeta;
      count := 0;
      for slot := 0 to slots
        invariant count == EntryCount(Slots()[..slot])
      {
        var image := ReadSlot(slot);
        assert Slots()[..slot + 1][..slot] == Slots()[..slot];
        if ReadMeta(image).Some? {
          count := count + 1;
        }
      }
      assert Slots()[..slots] == Slots();
    }

    /** Reads the records at `headers`, in that order. */
    method ReadEntries(headers: seq<Header>) returns (entries: seq<LogEntry>)
      requires Valid()
      requires forall i :: 0 <= i < |headers| ==> headers[i].slot < slots
      ensures entries == ReadAll(Slots(), headers)
    {
      hide ReadEntry, ReadAll, SlotsOf;
      entries := [];
      ReadAllNone(Slots());
      for i := 0 to |headers|
        invariant entries == ReadAll(Slots(), headers[..i])
      {
        var image := ReadSlot(headers[i].slot);
        var entry := ReadEntry(image);
        ReadAllSnoc(Slots(), headers[..i], headers[i]);
        assert headers[..i + 1] == headers[..i] + [headers[i]];
        if entry.Some? {
          entries := entries + [entry.value];
        }
      }
      assert headers[..|headers|] == headers;
    }

    /** One pass that never holds more than `limit` headers. */
    method NewestRecordHeaders(limit: nat) returns (headers: seq<Header>)
      requires Valid()
      ensures headers == NewestHeaders(Cells(Slots()), limit)
      ensures forall i :: 0 <= i < |headers| ==> headers[i].slot < slots
    {
      hide ReadMeta, NewestHeaders;
      ghost var cells := Cells(Slots());
      headers := [];
      BoundedNone(cells, limit);
      if limit == 0 {
        NoHeaders(cells);
        return;
      }
      for slot := 0 to slots
        invariant headers == NewestHeaders(cells[..slot], limit)
      {
        var image := ReadSlot(slot);
        var meta := ReadMeta(image);
        assert cells[slot] == Classify(image);
        BoundedStep(cells, slot, limit);
        if meta.Some? {
          NewestSorted(cells[..slot], limit);
          headers := InsertNewestHeader(headers, Header(meta.value.seqNo, slot), limit);
        }
      }
      assert cells[..slots] == cells;
      NewestNamed(cells, limit);
    }

    method LastEntries(n: nat) returns (entries: seq<LogEntry>)
      requires Valid()
      ensures entries == LastN(Slots(), n)
    {
      if n == 0 {
        return [];
      }
      var headers := NewestRecordHeaders(n);
      entries := ReadEntries(headers);
    }

    /** A page of entries, newest first; `offset` skips newest entries. */
    method PageOf(offset: nat, limit: nat, top: nat) returns (entries: seq<LogEntry>)
      requires Valid()
      ensures entries == Page(Slots(), offset, limit, top)
    {
      if limit == 0 {
        return [];
      }
      var headers := NewestRecordHeaders(SaturatingAdd(offset, limit, top));
      entries := ReadEntries(SkipTake(Reverse(headers), offset, limit));
    }

    method LatestEntryOfKind(kind: LogKind) returns (entry: Option<LogEntry>)
      requires Valid()
      ensures entry == LatestOfKind(Slots(), kind)
    {
      hide ReadMeta, PayloadKind;
      var latest: Option<Header> := None;
      for slot := 0 to slots
        invariant latest == LatestHeader(Slots()[..slot], kind)
      {
        var image := ReadSlot(slot);
        assert Slots()[..slot + 1][..slot] == Slots()[..slot];
        if KindAt(image) == Some(kind) {
          var seqNo := ReadMeta(image).value.seqNo;
          if latest.None? || seqNo > latest.value.seqNo {
            latest := Some(Header(seqNo, slot));
          }
        }
      }
      assert Slots()[..slots] == Slots();
      if latest.None? {
        return None;
      }
      var image := ReadSlot(latest.value.slot);
      return ReadEntry(image);
    }

    /** All decodable records, sorted by sequence number. */
    method AllEntries() returns (entries: seq<LogEntry>)
      requires Valid()
      ensures entries == Entries(Slots())
    {
      hide ReadMeta, DecodePayload;
      ghost var cells := DecodableCells(Slots());
      var headers: seq<Header> := [];
      for slot := 0 to slots
        invariant headers == SortedHeaders(cells[..slot])
        invariant forall i :: 0 <= i < |headers| ==> headers[i].slot < slots
      {
        var image := ReadSlot(slot);
        var meta := ReadMeta(image);
        assert cells[slot] == if Classify(image).Rec? && ReadEntry(image).None? then Torn else Classify(image);
        assert cells[..slot + 1][..slot] == cells[..slot];
        if meta.Some? && ReadEntry(image).Some? {
          headers := Insert(headers, Header(meta.value.seqNo, slot));
        }
      }
      assert cells[..slots] == cells;
      entries := ReadEntries(headers);
    }

    lemma EraseAligned()
      requires Valid() && Aligned(nextSlot, slotsPerErase)
      ensures storage.eraseSize > 0
      ensures nextSlot * RECORD_SIZE % storage.eraseSize == 0
      ensures storage.eraseSize % storage.eraseSize == 0
    {
      var e := storage.eraseSize;
      SectorArithmetic(nextSlot, slotsPerErase);
      var q := nextSlot / slotsPerErase;
      assert nextSlot * RECORD_SIZE == q * e;
      DivUnique(nextSlot * RECORD_SIZE, e, q, 0);
      DivUnique(e, e, 1, 0);
    }
  }

  /** `binary_search_by_key` on a sorted list; of equal keys it finds the first. */
  method InsertionPoint(headers: seq<Header>, key: nat) returns (at: nat)
    requires Sorted(headers)
    ensures at == Rank(headers, key)
  {
    var lo, hi := 0, |headers|;
    while lo < hi
      invariant 0 <= lo <= hi <= |headers|
      invariant forall i :: 0 <= i < lo ==> headers[i].seqNo < key
      invariant forall i :: hi <= i < |headers| ==> headers[i].seqNo >= key
    {
      var mid := lo + (hi - lo) / 2;
      if headers[mid].seqNo < key {
        lo := mid + 1;
      } else {
        hi := mid;
      }
    }
    RankIs(headers, key, lo);
    return lo;
  }

  method InsertNewestHeader(headers: seq<Header>, header: Header, limit: nat) returns (r: seq<Header>)
    requires Sorted(headers)
    ensures r == InsertNewest(headers, header, limit)
  {
    hide Rank, InsertAt, Sorted;
    var at := InsertionPoint(headers, header.seqNo);
    if |headers| < limit {
      return InsertAt(headers, at, header);
    }
    if at > 0 {
      return InsertAt(headers[1..], at - 1, header);
    }
    return headers;
  }

  lemma {:induction false} NoHeaders<P>(cells: seq<Cell<P>>)
    ensures NewestHeaders(cells, 0) == []
  {
    if cells != [] { NoHeaders(cells[..|cells| - 1]); }
  }

  lemma BoundedNone<P>(cells: seq<Cell<P>>, limit: nat)
    ensures NewestHeaders(cells[..0], limit) == []
  {}

  lemma BoundedStep<P>(cells: seq<Cell<P>>, slot: nat, limit: nat)
    requires slot < |cells|
    ensures var before := NewestHeaders(cells[..slot], limit);
      NewestHeaders(cells[..slot + 1], limit) ==
        if cells[slot].Rec? then InsertNewest(before, Header(cells[slot].meta.seqNo, slot), limit) else before
  {
    hide InsertNewest;
    assert cells[..slot + 1][..slot] == cells[..slot];
  }

  lemma NewestSorted<P>(cells: seq<Cell<P>>, limit: nat)
    ensures Sorted(NewestHeaders(cells, limit))
  {
    hide NewestHeaders, SortedHeaders, Names;
    NewestHeadersAreLast(cells, limit);
    SortedHeadersOk(cells);
  }

  lemma NewestNamed<P>(cells: seq<Cell<P>>, limit: nat)
    ensures var hs := NewestHeaders(cells, limit); forall i :: 0 <= i < |hs| ==> hs[i].slot < |cells|
  {
    NewestHeadersAreLast(cells, limit);
    SortedHeadersOk(cells);
    var hs := NewestHeaders(cells, limit);
    forall i | 0 <= i < |hs| ensures hs[i].slot < |cells| {
      assert hs[i] in SortedHeaders(cells);
      assert Names(cells, hs[i]);
    }
  }

  /** First slot of the sector behind slot `t`, round the ring. */
  method SectorAfter(t: nat, slots: nat, slotsPerErase: nat) returns (next: nat)
    requires Geometry(slots, slotsPerErase) && t < slots
    ensures next == Wrap(End(t, slots, slotsPerErase), slots)
  {
    SectorArithmetic(t, slotsPerErase);
    next := (t / slotsPerErase + 1) * slotsPerErase;
    assert next == End(t, slots, slotsPerErase);
    WrapIsRemainder(next, slots);
    next := next % slots;
  }

  method CopyInto(record: array<Byte>, at: nat, bytes: seq<Byte>)
    requires at + |bytes| <= record.Length
    modifies record
    ensures record[..] == old(record[..at]) + bytes + old(record[at + |bytes|..])
  {
    for i := 0 to |bytes|
      invariant record[..at] == old(record[..at])
      invariant record[at..at + i] == bytes[..i]
      invariant record[at + i..] == old(record[at + i..])
    {
      record[at + i] := bytes[i];
    }
    assert record[..] == record[..at] + record[at..at + |bytes|] + record[at + |bytes|..];
  }

  /** Fills a record buffer field by field. */
  method BuildRecord(seqNo: nat, payload: Payload) returns (image: Slot)
    requires seqNo < WORD
    ensures image == Record(seqNo, payload)
  {
    hide Checksum, Le2, Le4;
    var record := new Byte[RECORD_SIZE](_ => 0xFF);
    assert record[..] == Ones(RECORD_SIZE);
    var sum := ComputeChecksum(payload);
    var fields := MAGIC + Le4(seqNo) + Le2(|payload|) + Le4(sum);
    CopyInto(record, 0, fields);
    assert record[..] == fields + Ones(RECORD_SIZE - |fields|);
    assert record[..] == (fields + Ones(2)) + Ones(PAYLOAD_SIZE);
    CopyInto(record, HEADER_SIZE, payload);
    assert record[..] == (fields + Ones(2)) + payload + Ones(PAYLOAD_SIZE - |payload|);
    image := record[..];
  }

  lemma NewestStep<P>(cells: seq<Cell<P>>)
    ensures Newest(cells) ==
      if cells == [] then None
      else
        var n := |cells| - 1;
        var before := Newest(cells[..n]);
        if !cells[n].Rec? || (before.Some? && before.value.seqNo > cells[n].meta.seqNo) then before
        else Some(Header(cells[n].meta.seqNo, n))
  {}

  /** One pass over the slots, keeping the newest header. */
  method ScanNewest(storage: MemFlash, slots: nat) returns (newest: Option<Header>)
    requires storage.data.Length == slots * RECORD_SIZE
    ensures newest == Newest(Cells(SlotsOf(storage.data[..])))
  {
    hide ReadMeta, Newest;
    ghost var all := SlotsOf(storage.data[..]);
    NewestStep(Cells(all[..0]));
    newest := None;
    for slot := 0 to slots
      invariant newest == Newest(Cells(all[..slot]))
    {
      var bytes := storage.Read(slot * RECORD_SIZE, RECORD_SIZE);
      var image: Slot := bytes.value;
      assert image == all[slot];
      assert Cells(all[..slot + 1])[..slot] == Cells(all[..slot]);
      NewestStep(Cells(all[..slot + 1]));
      var meta := ReadMeta(image);
      if meta.Some? && (newest.None? || newest.value.seqNo <= meta.value.seqNo) {
        newest := Some(Header(meta.value.seqNo, slot));
      }
    }
    assert all[..slots] == all;
  }

  /** Scans the headers and resumes behind the newest record. */
  method Mount(storage: MemFlash) returns (r: Result<FlashLogRing, StorageError>)
    ensures r.Ok? <==> ValidGeometry(storage.data.Length, storage.eraseSize)
    ensures r.Ok? ==> fresh(r.value) && r.value.storage == storage && r.value.Valid()
    ensures r.Ok? ==> r.value.View() == FlashLog.Mount(SlotsOf(storage.data[..]), storage.eraseSize / RECORD_SIZE)
  {
    var size, eraseSize := storage.data.Length, storage.eraseSize;
    if size < RECORD_SIZE || size % RECORD_SIZE != 0 || eraseSize < RECORD_SIZE
       || eraseSize % RECORD_SIZE != 0 || size % eraseSize != 0 {
      return Err(InvalidGeometry);
    }
    var slots, slotsPerErase := size / RECORD_SIZE, eraseSize / RECORD_SIZE;
    GeometryOf(size, eraseSize);
    var cursor := ScanCursor(storage, slots, slotsPerErase);
    hide *;
    var ring := new FlashLogRing.Resume(storage, slots, slotsPerErase, cursor.nextSeq, cursor.nextSlot);
    MountedView(ring);
    return Ok(ring);
  }

  lemma MountedView(ring: FlashLogRing)
    requires ring.storage.data.Length == ring.slots * RECORD_SIZE
    requires ring.storage.eraseSize == ring.slotsPerErase * RECORD_SIZE && Geometry(ring.slots, ring.slotsPerErase)
    requires Cursor(ring.nextSeq, ring.nextSlot) ==
             MountCursor(Cells(SlotsOf(ring.storage.data[..])), ring.slotsPerErase)
    ensures ring.Valid()
    ensures ring.View() == FlashLog.Mount(SlotsOf(ring.storage.data[..]), ring.storage.eraseSize / RECORD_SIZE)
  {
    hide SlotsOf;
    var r := FlashLog.Mount(SlotsOf(ring.storage.data[..]), ring.slotsPerErase);
  }

  /** The cursor that mounting gives. */
  method ScanCursor(storage: MemFlash, slots: nat, slotsPerErase: nat) returns (c: Cursor)
    requires storage.data.Length == slots * RECORD_SIZE && Geometry(slots, slotsPerErase)
    ensures c == MountCursor(Cells(SlotsOf(storage.data[..])), slotsPerErase)
  {
    hide Newest, Cells, SlotsOf, SectorStart;
    var newest := ScanNewest(storage, slots);
    var nextSeq, nextSlot := 1, 0;
    if newest.Some? {
      nextSeq := if newest.value.seqNo == MAX_SEQ then 1 else newest.value.seqNo + 1;
      WrapIsRemainder(newest.value.slot + 1, slots);
      nextSlot := (newest.value.slot + 1) % slots;
    }
    nextSlot := SkipTorn(storage, slots, slotsPerErase, nextSlot);
    return Cursor(nextSeq, nextSlot);
  }

  /** Moves a cursor in mid-sector past a slot that is no longer erased. */
  method SkipTorn(storage: MemFlash, slots: nat, slotsPerErase: nat, at: nat) returns (next: nat)
    requires storage.data.Length == slots * RECORD_SIZE && Geometry(slots, slotsPerErase) && at < slots
    ensures next == if !Aligned(at, slotsPerErase) && !Cells(SlotsOf(storage.data[..]))[at].Blank?
                    then Wrap(End(at, slots, slotsPerErase), slots) else at
  {
    next := at;
    SectorArithmetic(at, slotsPerErase);
    if at % slotsPerErase != 0 {
      var bytes := storage.Read(at * RECORD_SIZE, RECORD_SIZE);
      var image: Slot := bytes.value;
      assert image == SlotsOf(storage.data[..])[at];
      if image != Erased() {
        next := SectorAfter(at, slots, slotsPerErase);
      }
    }
  }
}
