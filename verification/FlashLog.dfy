/** The event log over bytes of flash: what each append, failed write, power cut
    and remount makes of it, and what stays readable over every run. */
module FlashLog {
  import opened Common
  import opened LogPayload
  import opened RingCells
  import opened FlashRecord

  type Payload = p: seq<Byte> | |p| <= PAYLOAD_SIZE

  datatype RingState = RingState(slots: seq<Slot>, spe: nat, cursor: Cursor)

  predicate WellFormed(r: RingState) {
    && Geometry(|r.slots|, r.spe)
    && r.cursor.nextSlot < |r.slots|
    && 1 <= r.cursor.nextSeq <= MAX_SEQ
  }

  type Ring = r: RingState | WellFormed(r) witness RingState([Erased()], 1, Cursor(1, 0))

  /** How the device answers one append: whether the erase works, and after how
      many programmed bytes the write reports a failure, if it does. */
  datatype Device = Device(eraseOk: bool, writeFailsAfter: Option<nat>)

  /** One thing that can happen to the log.  A power cut ends with a remount. */
  datatype Event =
    | Append(payload: Payload, device: Device)
    | PowerCut
    | CutInAppend(cutPayload: Payload, eraseDone: bool, programmed: nat)

  function Cells(slots: seq<Slot>): (c: seq<Cell<seq<Byte>>>)
    ensures |c| == |slots|
  {
    seq(|slots|, i requires 0 <= i < |slots| => Classify(slots[i]))
  }

  // ---- Operations ----

  function EraseSlots(slots: seq<Slot>, at: nat, spe: nat): (r: seq<Slot>)
    requires at + spe <= |slots|
    ensures |r| == |slots|
  {
    slots[..at] + seq(spe, _ => Erased()) + slots[at + spe..]
  }

  /** Storage once the sector the next record starts has been erased, when it starts one. */
  function PreparedSlots(r: Ring): (s: seq<Slot>)
    ensures |s| == |r.slots|
  {
    var t := r.cursor.nextSlot;
    if Aligned(t, r.spe) then EraseSlots(r.slots, End(t, |r.slots|, r.spe) - r.spe, r.spe) else r.slots
  }

  /** Storage after the first `k` bytes of the next record have been programmed. */
  function Programmed(r: Ring, payload: Payload, k: nat): (s: seq<Slot>)
    requires k <= RECORD_SIZE
    ensures |s| == |r.slots|
  {
    var s, t := PreparedSlots(r), r.cursor.nextSlot;
    s[t := Program(s[t], Record(r.cursor.nextSeq, payload), k)]
  }

  /** `append` once the payload is encoded; the flag says whether it returned Ok. */
  function AppendPayload(r: Ring, payload: Payload, device: Device): (Ring, bool)
    requires device.writeFailsAfter.Some? ==> device.writeFailsAfter.value <= RECORD_SIZE
  {
    var t, n := r.cursor.nextSlot, |r.slots|;
    if Aligned(t, r.spe) && !device.eraseOk then (r, false)
    else match device.writeFailsAfter
      case Some(k) =>
        var next := if Aligned(t, r.spe) then t else Wrap(End(t, n, r.spe), n);
        (r.(slots := Programmed(r, payload, k), cursor := r.cursor.(nextSlot := next)), false)
      case None => (Appended(r, payload), true)
  }

  function Appended(r: Ring, payload: Payload): Ring {
    r.(slots := Programmed(r, payload, RECORD_SIZE),
       cursor := Cursor(Successor(r.cursor.nextSeq), Wrap(r.cursor.nextSlot + 1, |r.slots|)))
  }

  function Mount(slots: seq<Slot>, spe: nat): Ring
    requires Geometry(|slots|, spe)
  {
    var c := MountCursor(Cells(slots), spe);
    RingState(slots, spe, c)
  }

  // ---- Runs, with the history of committed payloads ----

  datatype State = State(ring: Ring, committed: seq<Payload>)

  /** The fault model: a write that did not finish does not leave a readable
      record.  `CutInHeaderUnreadable` and `CutBeforeLastByteUnreadable` prove
      this for cuts in the first ten bytes and before the last one. */
  predicate Rejected(r: Ring, payload: Payload, k: nat)
    requires k <= RECORD_SIZE
  {
    ReadMeta(CutImage(r.cursor.nextSeq, payload, k)) == None
  }

  predicate Complete(payload: Payload, k: nat) {
    k >= HEADER_SIZE + |payload|
  }

  predicate Possible(s: State, e: Event)
  {
    match e
    case PowerCut => true
    case Append(payload, Device(_, Some(k))) => k <= RECORD_SIZE && Rejected(s.ring, payload, k)
    case Append(_, _) => true
    case CutInAppend(payload, _, k) =>
      k <= RECORD_SIZE && (!Complete(payload, k) ==> Rejected(s.ring, payload, k))
  }

  function Remounted(s: State): State
  {
    s.(ring := Mount(s.ring.slots, s.ring.spe))
  }

  function AfterCut(s: State, payload: Payload, k: nat): State
    requires k <= RECORD_SIZE
  {
    State(Mount(Programmed(s.ring, payload, k), s.ring.spe),
          if Complete(payload, k) then s.committed + [payload] else s.committed)
  }

  /** A step the fault model excludes does not happen. */
  function Step(s: State, e: Event): State {
    if !Possible(s, e) then s
    else match e
      case PowerCut => Remounted(s)
      case Append(payload, device) =>
        var (ring, ok) := AppendPayload(s.ring, payload, device);
        State(ring, if ok then s.committed + [payload] else s.committed)
      case CutInAppend(payload, eraseDone, k) =>
        if Aligned(s.ring.cursor.nextSlot, s.ring.spe) && !eraseDone then Remounted(s) else AfterCut(s, payload, k)
  }

  function Run(s: State, run: seq<Event>): State
    decreases |run|
  {
    if run == [] then s else Run(Step(s, run[0]), run[1..])
  }

  lemma {:induction false} CommittedGrows(s: State, run: seq<Event>)
    ensures s.committed <= Run(s, run).committed
    decreases |run|
  {
    if run != [] { CommittedGrows(Step(s, run[0]), run[1..]); }
  }

  // ---- The invariant ----

  ghost predicate Inv(s: State) {
    RingOk(Cells(s.ring.slots), s.ring.spe, s.ring.cursor, s.committed)
  }

  /** The readable log in ring order, oldest first. */
  function Readable(r: Ring): seq<Meta<seq<Byte>>>
  {
    LiveOf(Rotated(Cells(r.slots), Base(r.cursor.nextSlot, |r.slots|, r.spe)))
  }

  /** The log an append starts from: everything, less the sector it erases. */
  function KeptRecords(r: Ring): seq<Meta<seq<Byte>>>
  {
    Kept(Cells(r.slots), r.spe, r.cursor.nextSlot)
  }

  /** The records of the sector the next append erases. */
  function LostRecords(r: Ring): seq<Meta<seq<Byte>>>
  {
    var t := r.cursor.nextSlot;
    if Aligned(t, r.spe) then LiveOf(Cells(r.slots)[t..End(t, |r.slots|, r.spe)]) else []
  }

  // ---- Bytes refine cells ----

  lemma ErasedIsBlank()
    ensures Classify(Erased()) == Blank
  {}

  lemma ErasedCells(slots: seq<Slot>, at: nat, spe: nat)
    requires at + spe <= |slots|
    ensures Cells(EraseSlots(slots, at, spe)) == EraseSector(Cells(slots), at, spe)
  {
    hide Classify;
    ErasedIsBlank();
  }

  lemma PreparedCells(r: Ring)
    ensures Cells(PreparedSlots(r)) == Prepared(Cells(r.slots), r.spe, r.cursor.nextSlot)
  {
    hide Classify, SectorStart, EraseSlots, EraseSector;
    var t, n := r.cursor.nextSlot, |r.slots|;
    if Aligned(t, r.spe) { ErasedCells(r.slots, End(t, n, r.spe) - r.spe, r.spe); }
  }

  lemma UpdateCells(slots: seq<Slot>, t: nat, x: Slot)
    requires t < |slots|
    ensures Cells(slots[t := x]) == Cells(slots)[t := Classify(x)]
  {}

  /** Every write lands on a fully erased slot. */
  lemma WritesLandOnErased(s: State)
    requires Inv(s)
    ensures PreparedSlots(s.ring)[s.ring.cursor.nextSlot] == Erased()
  {
    PreparedCells(s.ring);
    PreparedBlank(Cells(s.ring.slots), s.ring.spe, s.ring.cursor, s.committed);
    assert Cells(PreparedSlots(s.ring))[s.ring.cursor.nextSlot].Blank?;
  }

  /** Clearing bits therefore stores the exact record, or the image of a cut write. */
  lemma WritesAreExact(s: State, payload: Payload, k: nat)
    requires Inv(s) && k <= RECORD_SIZE
    ensures var r := s.ring;
      && Programmed(r, payload, k) == PreparedSlots(r)[r.cursor.nextSlot := CutImage(r.cursor.nextSeq, payload, k)]
      && (Complete(payload, k) ==>
            Programmed(r, payload, k) == PreparedSlots(r)[r.cursor.nextSlot := Record(r.cursor.nextSeq, payload)])
  {
    WritesLandOnErased(s);
    if Complete(payload, k) { CutAfterPayloadIsComplete(s.ring.cursor.nextSeq, payload, k); }
  }

  /** Programming, seen on cells. */
  lemma ProgrammedCells(s: State, payload: Payload, k: nat) returns (x: Cell<seq<Byte>>)
    requires Inv(s) && k <= RECORD_SIZE
    ensures Cells(Programmed(s.ring, payload, k))
         == Prepared(Cells(s.ring.slots), s.ring.spe, s.ring.cursor.nextSlot)[s.ring.cursor.nextSlot := x]
    ensures Complete(payload, k) ==> x == Rec(Meta(s.ring.cursor.nextSeq, payload))
    ensures Rejected(s.ring, payload, k) ==> !x.Rec?
  {
    var r := s.ring;
    var image := CutImage(r.cursor.nextSeq, payload, k);
    x := Classify(image);
    WritesAreExact(s, payload, k);
    PreparedCells(r);
    UpdateCells(PreparedSlots(r), r.cursor.nextSlot, image);
    if Complete(payload, k) {
      CutAfterPayloadIsComplete(r.cursor.nextSeq, payload, k);
      ReadRecord(r.cursor.nextSeq, payload);
    }
  }

  // ---- Every step keeps the invariant ----

  /** Flash without a readable record mounts to an empty log. */
  lemma FreshMount(slots: seq<Slot>, spe: nat)
    requires Geometry(|slots|, spe) && NoRecord(slots)
    ensures Inv(State(Mount(slots, spe), []))
    ensures Readable(Mount(slots, spe)) == []
    ensures Mount(slots, spe).cursor == Cursor(1, 0)
  {
    NoneLive(Rotated(Cells(slots), 0));
    MountEmpty(Cells(slots), spe, 0, 1, []);
  }

  ghost predicate NoRecord(slots: seq<Slot>) {
    forall i :: 0 <= i < |slots| ==> !Cells(slots)[i].Rec?
  }

  lemma RemountInv(s: State)
    requires Inv(s) && |s.committed| < MAX_SEQ
    ensures Inv(Remounted(s))
    ensures Readable(Remounted(s).ring) == Readable(s.ring)
  {
    var r := s.ring;
    MountOk(Cells(r.slots), r.spe, Base(r.cursor.nextSlot, |r.slots|, r.spe), r.cursor.nextSeq, s.committed);
  }

  lemma AppendedIs(r: Ring, payload: Payload)
    ensures Appended(r, payload).slots == Programmed(r, payload, RECORD_SIZE)
    ensures Appended(r, payload).cursor == Cursor(Successor(r.cursor.nextSeq), Wrap(r.cursor.nextSlot + 1, |r.slots|))
    ensures Appended(r, payload).spe == r.spe
    ensures Complete(payload, RECORD_SIZE)
  {}

  lemma SeqBelowMax(s: State)
    requires Inv(s) && |s.committed| < MAX_SEQ - 1
    ensures s.ring.cursor.nextSeq < MAX_SEQ
  {}

  lemma CommittedAppend(s: State, payload: Payload)
    requires Inv(s) && |s.committed| < MAX_SEQ - 1
    ensures Inv(State(Appended(s.ring, payload), s.committed + [payload]))
    ensures Readable(Appended(s.ring, payload)) == KeptRecords(s.ring) + [Meta(s.ring.cursor.nextSeq, payload)]
  {
    SeqBelowMax(s);
    AppendedIs(s.ring, payload);
    var x := ProgrammedCells(s, payload, RECORD_SIZE);
    AppendedCells(s, payload, Appended(s.ring, payload));
  }

  lemma AppendedCells(s: State, payload: Payload, ring: Ring)
    requires Inv(s) && s.ring.cursor.nextSeq < MAX_SEQ
    requires Cells(ring.slots) == Prepared(Cells(s.ring.slots), s.ring.spe, s.ring.cursor.nextSlot)
                                    [s.ring.cursor.nextSlot := Rec(Meta(s.ring.cursor.nextSeq, payload))]
    requires ring.cursor == Cursor(s.ring.cursor.nextSeq + 1, Wrap(s.ring.cursor.nextSlot + 1, |s.ring.slots|))
    requires ring.spe == s.ring.spe
    ensures Inv(State(ring, s.committed + [payload]))
    ensures Readable(ring) == KeptRecords(s.ring) + [Meta(s.ring.cursor.nextSeq, payload)]
  {
    hide LiveOf, RingOk, Prepared, Kept, Rotated, Cells;
    AppendOk(Cells(s.ring.slots), s.ring.spe, s.ring.cursor, s.committed, payload);
  }

  lemma FailedAppend(s: State, payload: Payload, k: nat)
    requires Inv(s) && k <= RECORD_SIZE && Rejected(s.ring, payload, k)
    ensures Inv(s.(ring := AppendPayload(s.ring, payload, Device(true, Some(k))).0))
    ensures Readable(AppendPayload(s.ring, payload, Device(true, Some(k))).0) == KeptRecords(s.ring)
  {
    var r := s.ring;
    var x := ProgrammedCells(s, payload, k);
    WriteFailed(Cells(r.slots), r.spe, r.cursor, s.committed, x);
  }

  lemma CutInv(s: State, payload: Payload, k: nat)
    requires Inv(s) && |s.committed| < MAX_SEQ - 1 && k <= RECORD_SIZE
    requires !Complete(payload, k) ==> Rejected(s.ring, payload, k)
    ensures Inv(AfterCut(s, payload, k))
    ensures Readable(AfterCut(s, payload, k).ring)
         == KeptRecords(s.ring) + (if Complete(payload, k) then [Meta(s.ring.cursor.nextSeq, payload)] else [])
  {
    var r := s.ring;
    var cells, c, e := Cells(r.slots), r.cursor, End(r.cursor.nextSlot, |r.slots|, r.spe);
    var x := ProgrammedCells(s, payload, k);
    ProgrammedLive(cells, r.spe, c, s.committed, x);
    var after := Cells(Programmed(r, payload, k));
    if Complete(payload, k) {
      FullStorage(cells, r.spe, c, s.committed, payload);
      MountOk(after, r.spe, e, c.nextSeq + 1, s.committed + [payload]);
    } else {
      TornStorage(cells, r.spe, c, s.committed, x);
      MountOk(after, r.spe, e, c.nextSeq, s.committed);
    }
  }

  lemma AppendInv(s: State, payload: Payload, device: Device)
    requires Inv(s) && |s.committed| < MAX_SEQ - 1 && Possible(s, Append(payload, device))
    ensures Inv(Step(s, Append(payload, device)))
  {
    if !(Aligned(s.ring.cursor.nextSlot, s.ring.spe) && !device.eraseOk) {
      match device.writeFailsAfter
      case None => CommittedAppend(s, payload);
      case Some(k) => FailedAppend(s, payload, k);
    }
  }

  lemma StepInv(s: State, e: Event)
    requires Inv(s) && |Step(s, e).committed| < MAX_SEQ - 1
    ensures Inv(Step(s, e))
  {
    CommittedGrows(s, [e]);
    if !Possible(s, e) { return; }
    match e
    case PowerCut => RemountInv(s);
    case Append(payload, device) => AppendInv(s, payload, device);
    case CutInAppend(payload, eraseDone, k) =>
      if Aligned(s.ring.cursor.nextSlot, s.ring.spe) && !eraseDone { RemountInv(s); } else { CutInv(s, payload, k); }
  }

  lemma {:induction false} RunInv(s: State, run: seq<Event>)
    requires Inv(s) && |Run(s, run).committed| < MAX_SEQ - 1
    ensures Inv(Run(s, run))
    decreases |run|
  {
    if run != [] {
      CommittedGrows(Step(s, run[0]), run[1..]);
      StepInv(s, run[0]);
      RunInv(Step(s, run[0]), run[1..]);
    }
  }

  /** The latest committed payloads, consecutively numbered, and nothing else. */
  ghost predicate IsSuffixOf(live: seq<Meta<seq<Byte>>>, committed: seq<Payload>) {
    && |live| <= |committed|
    && forall i :: 0 <= i < |live| ==>
         live[i].seqNo == live[0].seqNo + i && live[i].payload == committed[|committed| - |live| + i]
  }

  lemma ReadableIsSuffix(s: State)
    requires Inv(s)
    ensures IsSuffixOf(Readable(s.ring), s.committed)
  {}

  /** Safety over every run, from any flash that holds no record: what is readable is
      the latest committed payloads, and the next write lands on an erased slot. */
  lemma RunsKeepCommittedSuffix(slots: seq<Slot>, spe: nat, run: seq<Event>)
    requires Geometry(|slots|, spe) && NoRecord(slots)
    requires |Run(State(Mount(slots, spe), []), run).committed| < MAX_SEQ - 1
    ensures var s := Run(State(Mount(slots, spe), []), run);
      && IsSuffixOf(Readable(s.ring), s.committed)
      && PreparedSlots(s.ring)[s.ring.cursor.nextSlot] == Erased()
  {
    FreshMount(slots, spe);
    var s := Run(State(Mount(slots, spe), []), run);
    RunInv(State(Mount(slots, spe), []), run);
    ReadableIsSuffix(s);
    WritesLandOnErased(s);
  }

  lemma LostAndKept(s: State)
    requires Inv(s)
    ensures Readable(s.ring) == LostRecords(s.ring) + KeptRecords(s.ring)
  {
    KeptIsSuffix(Cells(s.ring.slots), s.ring.spe, s.ring.cursor, s.committed);
  }

  /** What a power cut in the middle of an append leaves: the old log when it came before the
      erase that the append needs; otherwise the old log less the erased sector, followed by the
      new entry exactly when all of its record had been programmed. */
  lemma CutAppendOutcome(s: State, payload: Payload, eraseDone: bool, k: nat)
    requires Inv(s) && |s.committed| < MAX_SEQ - 1
    requires Possible(s, CutInAppend(payload, eraseDone, k))
    ensures Readable(s.ring) == LostRecords(s.ring) + KeptRecords(s.ring)
    ensures Readable(Step(s, CutInAppend(payload, eraseDone, k)).ring) ==
      if Aligned(s.ring.cursor.nextSlot, s.ring.spe) && !eraseDone then Readable(s.ring)
      else KeptRecords(s.ring) + (if Complete(payload, k) then [Meta(s.ring.cursor.nextSeq, payload)] else [])
    ensures !Aligned(s.ring.cursor.nextSlot, s.ring.spe) ==> LostRecords(s.ring) == []
  {
    LostAndKept(s);
    if Aligned(s.ring.cursor.nextSlot, s.ring.spe) && !eraseDone { RemountInv(s); } else { CutInv(s, payload, k); }
  }

  /** What an append leaves, whatever the device does: nothing changes when the erase it needs
      is refused; otherwise the log less the erased sector, followed by the new entry exactly
      when the write succeeds. */
  lemma AppendOutcome(s: State, payload: Payload, device: Device)
    requires Inv(s) && |s.committed| < MAX_SEQ - 1 && Possible(s, Append(payload, device))
    ensures var (after, ok) := AppendPayload(s.ring, payload, device);
      var refused := Aligned(s.ring.cursor.nextSlot, s.ring.spe) && !device.eraseOk;
      && ok == (!refused && device.writeFailsAfter.None?)
      && Readable(after) ==
           if refused then Readable(s.ring)
           else KeptRecords(s.ring) + (if ok then [Meta(s.ring.cursor.nextSeq, payload)] else [])
  {
    hide Readable, KeptRecords, Inv, Rejected;
    assert KeptRecords(s.ring) + [] == KeptRecords(s.ring);
    if !(Aligned(s.ring.cursor.nextSlot, s.ring.spe) && !device.eraseOk) {
      match device.writeFailsAfter
      case None => CommittedAppend(s, payload);
      case Some(k) => FailedAppend(s, payload, k);
    }
  }

  // ---- An append after a failure, and a remount after an append ----

  /** The sector that the next append would erase had the write at `t` not failed, or erases
      because it has. */
  function NextSector(r: Ring): (f: nat)
    ensures f < |r.slots| && Aligned(f, r.spe) && f + r.spe <= |r.slots|
  {
    hide SectorStart;
    AlignedZero(r.spe);
    var f := Wrap(End(r.cursor.nextSlot, |r.slots|, r.spe), |r.slots|);
    AlignedGap(f, |r.slots|, r.spe);
    f
  }

  lemma UpdateDead<P>(cells: seq<Cell<P>>, t: nat, x: Cell<P>)
    requires t < |cells| && !cells[t].Rec? && !x.Rec?
    ensures LiveOf(cells[t := x]) == LiveOf(cells)
  {
    var a, b := cells[..t], cells[t + 1..];
    assert cells == a + ([cells[t]] + b) && cells[t := x] == a + ([x] + b);
    LiveConcat(a, [cells[t]] + b);
    LiveConcat(a, [x] + b);
    LiveConcat([x], b);
    LiveConcat([cells[t]], b);
    NoneLive([x]);
    NoneLive([cells[t]]);
  }

  /** After a failed write the next append that succeeds keeps everything the failed one would
      have kept, if that was at the start of a sector: the slot is tried again.  In the middle of
      a sector it gives up the rest of it, and so the records of the sector behind. */
  lemma AppendAfterFailure(s: State, payload: Payload, k: nat, next: Payload)
    requires Inv(s) && |s.committed| < MAX_SEQ - 1 && k <= RECORD_SIZE && Rejected(s.ring, payload, k)
    ensures var r := s.ring;
      var after := AppendPayload(AppendPayload(r, payload, Device(true, Some(k))).0, next, Device(true, None)).0;
      var own, f := [Meta(r.cursor.nextSeq, next)], NextSector(r);
      if Aligned(r.cursor.nextSlot, r.spe) then Readable(after) == KeptRecords(r) + own
      else LiveOf(Cells(r.slots)[f..f + r.spe]) + Readable(after) == KeptRecords(r) + own
  {
    hide Inv, Readable, KeptRecords, Cells, LiveOf, Rejected, Appended, NextSector;
    var r, t := s.ring, s.ring.cursor.nextSlot;
    FailedAppend(s, payload, k);
    var failed := AppendPayload(r, payload, Device(true, Some(k))).0;
    CommittedAppend(s.(ring := failed), next);
    var own := [Meta(r.cursor.nextSeq, next)];
    if Aligned(t, r.spe) {
      RetryKeeps(s, payload, k);
      assert failed.cursor == r.cursor;
    } else {
      SkipLoses(s, payload, k);
      assert failed.cursor.nextSeq == r.cursor.nextSeq;
      Associate(LiveOf(Cells(r.slots)[NextSector(r)..NextSector(r) + r.spe]), KeptRecords(failed), own);
    }
  }

  /** The retried slot keeps the same records. */
  lemma RetryKeeps(s: State, payload: Payload, k: nat)
    requires Inv(s) && k <= RECORD_SIZE && Rejected(s.ring, payload, k) && Aligned(s.ring.cursor.nextSlot, s.ring.spe)
    ensures var failed := AppendPayload(s.ring, payload, Device(true, Some(k))).0;
      failed.cursor == s.ring.cursor && KeptRecords(failed) == KeptRecords(s.ring)
  {
    hide LiveOf, SectorStart, Rejected, Programmed;
    var r, t, n := s.ring, s.ring.cursor.nextSlot, |s.ring.slots|;
    var e := End(t, n, r.spe);
    var x := ProgrammedCells(s, payload, k);
    PreparedBlank(Cells(r.slots), r.spe, r.cursor, s.committed);
    var now := Prepared(Cells(r.slots), r.spe, t);
    assert now[t := x][e..] == now[e..] && now[t := x][..t] == now[..t];
  }

  lemma SkipLoses(s: State, payload: Payload, k: nat)
    requires Inv(s) && k <= RECORD_SIZE && Rejected(s.ring, payload, k) && !Aligned(s.ring.cursor.nextSlot, s.ring.spe)
    ensures var failed, f := AppendPayload(s.ring, payload, Device(true, Some(k))).0, NextSector(s.ring);
      && failed.cursor == s.ring.cursor.(nextSlot := f)
      && KeptRecords(s.ring) == LiveOf(Cells(s.ring.slots)[f..f + s.ring.spe]) + KeptRecords(failed)
  {
    hide LiveOf, SectorStart, Rejected, Programmed, Readable, KeptRecords;
    FailedAppend(s, payload, k);
    var r, t, f := s.ring, s.ring.cursor.nextSlot, NextSector(s.ring);
    var failed := AppendPayload(r, payload, Device(true, Some(k))).0;
    LostAndKept(s.(ring := failed));
    var x := ProgrammedCells(s, payload, k);
    PreparedBlank(Cells(r.slots), r.spe, r.cursor, s.committed);
    var cells := Cells(r.slots);
    assert Prepared(cells, r.spe, t) == cells && cells[t].Blank? && !x.Rec?;
    assert Cells(failed.slots) == cells[t := x];
    SectorEnd(f, |r.slots|, r.spe);
    if f <= t < f + r.spe {
      UpdateDead(cells[f..f + r.spe], t - f, x);
      assert cells[t := x][f..f + r.spe] == cells[f..f + r.spe][t - f := x];
    } else {
      assert cells[t := x][f..f + r.spe] == cells[f..f + r.spe];
    }
  }

  lemma SectorEnd(f: nat, n: nat, spe: nat)
    requires Geometry(n, spe) && f < n && Aligned(f, spe)
    ensures End(f, n, spe) == f + spe
  {
    hide SectorStart;
  }

  /** Remounting after a successful append finds exactly the position that was in RAM. */
  lemma RemountAfterAppend(s: State, payload: Payload)
    requires Inv(s) && |s.committed| < MAX_SEQ - 1
    ensures var r := Appended(s.ring, payload); Mount(r.slots, r.spe) == r
  {
    hide Readable, KeptRecords, Programmed, MountCursor, SectorStart, Prepared, RingOk;
    SeqBelowMax(s);
    AppendedIs(s.ring, payload);
    CommittedAppend(s, payload);
    var r, t := Appended(s.ring, payload), s.ring.cursor.nextSlot;
    var x := ProgrammedCells(s, payload, RECORD_SIZE);
    assert Cells(r.slots)[t] == x && x.Rec?;
    assert Before(r.cursor.nextSlot, |r.slots|) == t;
    MountFindsPosition(Cells(r.slots), r.spe, r.cursor, s.committed + [payload]);
  }

  /** Remounting after a write that failed in the middle of a sector and left anything behind
      resumes where the failed append did. */
  lemma RemountAfterFailure(s: State, payload: Payload, k: nat)
    requires Inv(s) && |s.committed| < MAX_SEQ - 1 && k <= RECORD_SIZE && Rejected(s.ring, payload, k)
    requires !Aligned(s.ring.cursor.nextSlot, s.ring.spe) && CutImage(s.ring.cursor.nextSeq, payload, k) != Erased()
    ensures var failed := AppendPayload(s.ring, payload, Device(true, Some(k))).0;
      Mount(failed.slots, failed.spe) == failed
  {
    hide Readable, KeptRecords, MountCursor, SectorStart, Prepared, RingOk, ReadMeta, CutImage;
    var r, t := s.ring, s.ring.cursor.nextSlot;
    WritesAreExact(s, payload, k);
    PreparedSame(r);
    UpdateCells(r.slots, t, CutImage(r.cursor.nextSeq, payload, k));
    MountSkipsTorn(Cells(r.slots), r.spe, r.cursor, s.committed, Classify(CutImage(r.cursor.nextSeq, payload, k)));
  }

  lemma PreparedSame(r: Ring)
    requires !Aligned(r.cursor.nextSlot, r.spe)
    ensures PreparedSlots(r) == r.slots
  {}

  // ---- Capacity ----

  function FaultlessAppend(payload: Payload): Event {
    Append(payload, Device(true, None))
  }

  function Appends(payloads: seq<Payload>): seq<Event> {
    seq(|payloads|, i requires 0 <= i < |payloads| => FaultlessAppend(payloads[i]))
  }

  /** One faultless append, seen as the next fill state. */
  lemma FaultlessStep(s: State, payload: Payload, n: nat)
    requires Inv(s) && |s.committed| < MAX_SEQ - 1
    requires Filled(Cells(s.ring.slots), s.ring.spe, s.ring.cursor.nextSlot, n)
    ensures var s2 := Step(s, FaultlessAppend(payload));
      && Inv(s2) && s2.committed == s.committed + [payload]
      && Filled(Cells(s2.ring.slots), s2.ring.spe, s2.ring.cursor.nextSlot, n + 1)
      && |s2.ring.slots| == |s.ring.slots| && s2.ring.spe == s.ring.spe
  {
    hide *;
    FaultlessIs(s, payload);
    AppendedIs(s.ring, payload);
    var x := ProgrammedCells(s, payload, RECORD_SIZE);
    CommittedAppend(s, payload);
    FilledStep(Cells(s.ring.slots), s.ring.spe, s.ring.cursor.nextSlot, n, Meta(s.ring.cursor.nextSeq, payload));
  }

  lemma FaultlessIs(s: State, payload: Payload)
    ensures Step(s, FaultlessAppend(payload)) == State(Appended(s.ring, payload), s.committed + [payload])
    ensures Geometry(|s.ring.slots|, s.ring.spe) && s.ring.cursor.nextSlot < |s.ring.slots|
  {
    hide Programmed, ReadMeta;
  }

  function Capacity(n: nat, size: nat, spe: nat): int
    requires spe > 0
  {
    if n <= size then n else size - (spe - n % spe) % spe
  }

  /** The state after appending `payloads` without faults. */
  function AppendAll(s: State, payloads: seq<Payload>): State
    decreases |payloads|
  {
    if payloads == [] then s else AppendAll(Step(s, FaultlessAppend(payloads[0])), payloads[1..])
  }

  lemma {:induction false} AppendAllIsRun(s: State, payloads: seq<Payload>)
    ensures Run(s, Appends(payloads)) == AppendAll(s, payloads)
    decreases |payloads|
  {
    hide LiveOf, ReadMeta, Classify;
    if payloads != [] {
      var run := Appends(payloads);
      assert run[0] == FaultlessAppend(payloads[0]) && run[1..] == Appends(payloads[1..]);
      AppendAllIsRun(Step(s, run[0]), payloads[1..]);
    }
  }

  lemma AppendAllNone(s: State)
    ensures AppendAll(s, []) == s
  {}

  lemma AppendAllStep(s: State, payloads: seq<Payload>)
    requires payloads != []
    ensures AppendAll(s, payloads) == AppendAll(Step(s, FaultlessAppend(payloads[0])), payloads[1..])
  {}

  lemma {:induction false} FaultlessFill(s: State, payloads: seq<Payload>, n: nat) returns (final: State)
    requires Inv(s) && |s.committed| + |payloads| < MAX_SEQ - 1
    requires Filled(Cells(s.ring.slots), s.ring.spe, s.ring.cursor.nextSlot, n)
    ensures final == AppendAll(s, payloads)
    ensures Filled(Cells(final.ring.slots), final.ring.spe, final.ring.cursor.nextSlot, n + |payloads|)
    ensures |final.ring.slots| == |s.ring.slots| && final.ring.spe == s.ring.spe
    decreases |payloads|
  {
    hide *;
    if payloads == [] {
      final := s;
      AppendAllNone(s);
    } else {
      FaultlessStep(s, payloads[0], n);
      final := FaultlessFill(Step(s, FaultlessAppend(payloads[0])), payloads[1..], n + 1);
      AppendAllStep(s, payloads);
    }
  }

  lemma FreshFilled<P>(cells: seq<Cell<P>>, spe: nat)
    requires Geometry(|cells|, spe)
    requires forall i :: 0 <= i < |cells| ==> !cells[i].Rec?
    ensures Filled(cells, spe, 0, 0)
  {
    assert Aligned(0, spe);
    DivUnique(0, spe, 0, 0);
    SectorUnique(0, 0, spe);
  }

  lemma FillFresh(s: State, payloads: seq<Payload>) returns (final: State)
    requires Inv(s) && |s.committed| + |payloads| < MAX_SEQ - 1
    requires Filled(Cells(s.ring.slots), s.ring.spe, s.ring.cursor.nextSlot, 0)
    ensures final == Run(s, Appends(payloads))
    ensures |Readable(final.ring)| == Capacity(|payloads|, |s.ring.slots|, s.ring.spe)
  {
    hide LiveOf, ReadMeta, Classify, Step, Filled, Cells;
    final := FaultlessFill(s, payloads, 0);
    FilledCount(Cells(final.ring.slots), final.ring.spe, final.ring.cursor.nextSlot, |payloads|);
    AppendAllIsRun(s, payloads);
  }

  /** Without faults, `n` appends keep `n` entries until the ring is full, and then all
      slots but the rest of the sector being filled. */
  lemma FaultlessCapacity(slots: seq<Slot>, spe: nat, payloads: seq<Payload>)
    requires Geometry(|slots|, spe) && NoRecord(slots) && |payloads| < MAX_SEQ - 1
    ensures |Readable(Run(State(Mount(slots, spe), []), Appends(payloads)).ring)| == Capacity(|payloads|, |slots|, spe)
  {
    hide LiveOf, ReadMeta, Classify;
    FreshMount(slots, spe);
    FreshFilled(Cells(slots), spe);
    var final := FillFresh(State(Mount(slots, spe), []), payloads);
  }
}
