/** The life of a stored message from the modem to Telegram and out of the modem again. */
module DeliveryLife {
  import opened Common
  import opened Concat
  import opened Delivery
  import opened DeliverySafety
  import opened DeliveryRuns
  import opened DeliveryProgress

  // ---- From the ready queue on ----

  /** Nothing is on its way; parts of incomplete messages may be collected. */
  predicate Idle(st: State) {
    st.ready == [] && st.pending == [] && st.deletions == []
  }

  /** One message is sent, acknowledged and taken note of. */
  function Delivers(room: nat): seq<Event> {
    [Dispatch(room), TelegramReplies(0, true), Receipts]
  }

  function Delivered(st: State, p: Prepared): State {
    st.(ready := [], deletions := p.slots, delivered := st.delivered + {p.sms})
  }

  lemma DispatchedAlone(st: State, p: Prepared, room: nat)
    requires room > 0 && st.ready == [SmsItem(p)] && st.pending == [] && st.deletions == []
    ensures DispatchReady(st, room) == st.(ready := [], pending := [PendingItem(SmsItem(p), Waiting)])
  {
    DispatchTakesFront(st, room);
    var items := [SmsItem(p)];
    assert items[1..] == [] && [] + AllWaiting(items[..1]) == [PendingItem(SmsItem(p), Waiting)];
  }

  lemma ReceiptAlone(st: State, p: Prepared)
    requires st.pending == [PendingItem(SmsItem(p), Sent)] && st.deletions == []
    ensures TakeReceipts(st, 0) == st.(pending := [], deletions := p.slots)
  {
    var next := TakeReceipt(st, 0);
    assert next.pending == [] && next.deletions == [] + p.slots == p.slots;
    assert TakeReceipts(next, 0) == next;
  }

  lemma DeliversOne(decode: nat -> Decoded, st: State, p: Prepared, room: nat)
    requires room > 0 && st.ready == [SmsItem(p)] && st.pending == [] && st.deletions == []
    ensures Run(decode, st, Delivers(room)) == Delivered(st, p)
  {
    hide DispatchReady, TakeReceipts;
    DispatchedAlone(st, p, room);
    var sent := Step(decode, st, Dispatch(room));
    var replied := Step(decode, sent, TelegramReplies(0, true));
    assert replied.pending == [PendingItem(SmsItem(p), Sent)];
    ReceiptAlone(replied, p);
    assert Delivers(room) == [Dispatch(room)] + [TelegramReplies(0, true), Receipts];
    RunSplit(decode, st, [Dispatch(room)], [TelegramReplies(0, true), Receipts]);
    RunOne(decode, st, Dispatch(room));
    RunTwo(decode, sent, TelegramReplies(0, true), Receipts);
  }

  lemma RunOne(decode: nat -> Decoded, st: State, e: Event)
    ensures Run(decode, st, [e]) == Step(decode, st, e)
  {
    hide Step;
    assert [e][1..] == [];
  }

  /** A queued message is sent, acknowledged and erased: every slot of it leaves the modem, and
      nothing else does. */
  lemma QueuedLife(decode: nat -> Decoded, st: State, p: Prepared, room: nat)
    requires Inv(decode, st) && room > 0
    requires st.ready == [SmsItem(p)] && st.pending == [] && st.deletions == []
    ensures Run(decode, st, Delivers(room) + Erasures(|p.slots|)) == st.(
        ready := [], modem := Cleared(st.modem, p.slots), delivered := st.delivered + {p.sms})
  {
    hide Run, Inv, Keep, Cleared, Delivers, Erasures;
    var taken := Delivered(st, p);
    RunSplit(decode, st, Delivers(room), Erasures(|p.slots|));
    DeliversOne(decode, st, p, room);
    RunInv(decode, st, Delivers(room));
    HeldOnceByInv(decode, taken);
    EraseAll(decode, taken);
    SlotsPresent(decode, st, p);
    KeepNone(p.slots, GoneFrom(st.modem));
  }

  lemma HeldOnceByInv(decode: nat -> Decoded, st: State)
    requires Inv(decode, st)
    ensures HeldOnce(st)
  {}

  lemma SlotsPresent(decode: nat -> Decoded, st: State, p: Prepared)
    requires Inv(decode, st) && st.ready == [SmsItem(p)]
    ensures forall i :: 0 <= i < |p.slots| ==> !GoneFrom(st.modem)(p.slots[i])
  {
    assert ItemOk(decode, st.modem, st.ready[0]);
    forall i | 0 <= i < |p.slots| ensures !GoneFrom(st.modem)(p.slots[i]) {
      assert p.slots[i] in p.slots;
    }
  }

  // ---- A whole message ----

  lemma ReadWhenIdle(decode: nat -> Decoded, st: State, place: Place, now: nat)
    requires Inv(decode, st) && Idle(st) && place in st.modem && decode(st.modem[place]).Whole?
    requires st.forwarding && decode(st.modem[place]).sms.sender !in st.blocked
    ensures Step(decode, st, ReadStored(place, now)) == st.(
        ready := [SmsItem(Prepared(decode(st.modem[place]).sms, [SlotAt(place, st.modem[place])]))])
  {
    hide Sound, HeldOnce;
    assert QueueSms([], Prepared(decode(st.modem[place]).sms, [SlotAt(place, st.modem[place])]))
        == [SmsItem(Prepared(decode(st.modem[place]).sms, [SlotAt(place, st.modem[place])]))];
  }

  /** A stored message that is read, sent, acknowledged and erased is delivered and out of the
      modem; nothing else changed. */
  lemma StoredLife(decode: nat -> Decoded, st: State, place: Place, now: nat, room: nat)
    requires Inv(decode, st) && Idle(st) && room > 0 && place in st.modem && decode(st.modem[place]).Whole?
    requires st.forwarding && decode(st.modem[place]).sms.sender !in st.blocked
    ensures Run(decode, st, [ReadStored(place, now)] + (Delivers(room) + Erasures(1)))
         == st.(modem := st.modem - {place}, delivered := st.delivered + {decode(st.modem[place]).sms})
  {
    hide Run, Inv, Delivers, Erasures, Stored;
    var p := Prepared(decode(st.modem[place]).sms, [SlotAt(place, st.modem[place])]);
    ReadWhenIdle(decode, st, place, now);
    RunOne(decode, st, ReadStored(place, now));
    RunSplit(decode, st, [ReadStored(place, now)], Delivers(room) + Erasures(1));
    StepInv(decode, st, ReadStored(place, now));
    QueuedLife(decode, st.(ready := [SmsItem(p)]), p, room);
    assert Cleared(st.modem, p.slots) == st.modem - {place};
  }

  // ---- A message in parts ----

  datatype Visit = Visit(place: Place, now: nat)

  /** The place holds a part, and nothing past reassembly holds the place. */
  predicate Readable(decode: nat -> Decoded, st: State, place: Place) {
    && place in st.modem && decode(st.modem[place]).Piece? && Holding(st.ready, ItemSlots, place) == 0
    && Holding(st.pending, PendingSlots, place) == 0 && Count(st.deletions, place) == 0
  }

  ghost predicate AllReadable(decode: nat -> Decoded, st: State, visits: seq<Visit>) {
    forall i :: 0 <= i < |visits| ==> Readable(decode, st, visits[i].place)
  }

  function Sweep(visits: seq<Visit>): seq<Event> {
    seq(|visits|, i requires 0 <= i < |visits| => ReadStored(visits[i].place, visits[i].now))
  }

  function ReadPart(decode: nat -> Decoded, modem: map<Place, nat>, r: Visit): Arrival {
    var content := if r.place in modem then modem[r.place] else 0;
    Arrival(if decode(content).Piece? then decode(content).part else Part("", 0, 0, 0, "", ""),
            Some(SlotAt(r.place, content)), r.now)
  }

  /** The parts that reading these places brings. */
  function Parts(decode: nat -> Decoded, modem: map<Place, nat>, visits: seq<Visit>): seq<Arrival> {
    seq(|visits|, i requires 0 <= i < |visits| => ReadPart(decode, modem, visits[i]))
  }

  function Places(visits: seq<Visit>): set<Place> {
    set r | r in visits :: r.place
  }

  function PreparedFrom(m: Completed): Prepared {
    Prepared(Sms(m.sender, m.content, m.timestamp), m.slots)
  }

  /** One read while there is room: the part is collected, or its message queued. */
  lemma ReadOne(decode: nat -> Decoded, st: State, r: Visit)
    requires |st.ready| < MAX_READY && Readable(decode, st, r.place)
    ensures var a := ReadPart(decode, st.modem, r);
      var (table, out) := Feed(st.groups, a.part, a.slot, a.now);
      Step(decode, st, ReadStored(r.place, r.now)) ==
      if out.Complete? then QueuePreparation(st.(groups := table), Ready(PreparedFrom(out.message)))
      else st.(groups := table)
  {
    hide Feed, QueueSms, Holding, Count;
  }

  /** Reads that complete a message with the last of them queue that message. */
  lemma {:induction false} ReadsFeed(decode: nat -> Decoded, st: State, visits: seq<Visit>)
    requires |st.ready| < MAX_READY && AllReadable(decode, st, visits) && visits != []
    requires var outs := FeedAll(st.groups, Parts(decode, st.modem, visits)).1;
      |outs| == |visits| && outs[|outs| - 1].Complete? && forall j :: 0 <= j < |outs| - 1 ==> !outs[j].Complete?
    ensures var (table, outs) := FeedAll(st.groups, Parts(decode, st.modem, visits));
      Run(decode, st, Sweep(visits))
      == QueuePreparation(st.(groups := table), Ready(PreparedFrom(outs[|outs| - 1].message)))
    decreases |visits|
  {
    hide Feed, QueuePreparation, Step, ReadPart;
    var a := ReadPart(decode, st.modem, visits[0]);
    var (table, out) := Feed(st.groups, a.part, a.slot, a.now);
    assert Parts(decode, st.modem, visits)[1..] == Parts(decode, st.modem, visits[1..]);
    assert Sweep(visits)[1..] == Sweep(visits[1..]) && Sweep(visits)[0] == ReadStored(visits[0].place, visits[0].now);
    ReadOne(decode, st, visits[0]);
    var outs := FeedAll(st.groups, Parts(decode, st.modem, visits)).1;
    var rest := FeedAll(table, Parts(decode, st.modem, visits[1..])).1;
    assert outs == [out] + rest;
    if |visits| > 1 {
      assert !outs[0].Complete?;
      forall j | 0 <= j < |rest| - 1 ensures !rest[j].Complete? { assert rest[j] == outs[j + 1]; }
      ReadsFeed(decode, st.(groups := table), visits[1..]);
    }
  }

  /** Where all parts belong to one message none pushes its group out. */
  lemma {:induction false} OwnUncrowded(groups: seq<Group>, feed: seq<Arrival>, key: Key)
    requires forall a :: a in feed ==> IsOf(a, key)
    ensures Uncrowded(groups, feed, key)
    decreases |feed|
  {
    hide Feed, IsOf, Spares;
    if feed != [] { OwnUncrowded(Feed(groups, feed[0].part, feed[0].slot, feed[0].now).0, feed[1..], key); }
  }

  /** The places hold the parts of one message, all of them, the last one read being new. */
  ghost predicate HoldsMessage(groups: seq<Group>, feed: seq<Arrival>, key: Key, texts: seq<string>) {
    && feed != [] && (forall a :: a in feed ==> IsOf(a, key)) && AllFaithful(feed, key, texts)
    && Timely(feed, feed[0].now) && CompletesAtEnd(feed, key, {}) && Coherent(Slots(feed, key))
    && Absent(groups, key)
  }

  /** What the last of those reads prepares. */
  lemma PartsPrepared(groups: seq<Group>, feed: seq<Arrival>, key: Key, texts: seq<string>)
    requires HoldsMessage(groups, feed, key, texts)
    ensures var (table, outs) := FeedAll(groups, feed);
      && |outs| == |feed| && (forall j :: 0 <= j < |outs| - 1 ==> !outs[j].Complete?) && Absent(table, key)
      && outs[|outs| - 1].Complete?
      && var p := PreparedFrom(outs[|outs| - 1].message);
      && p.sms == Sms(key.sender, Join(texts), feed[0].part.timestamp)
      && SlotSet(p.slots) == Slots(feed, key) && |p.slots| == |Slots(feed, key)|
  {
    hide FeedAll, Uncrowded, AllFaithful, Timely, CompletesAtEnd, Coherent, Absent, Join, SlotSet, Slots, IsOf;
    OwnUncrowded(groups, feed, key);
    assert IsOf(feed[0], key);
    AnyOrderDelivers(groups, key, texts, feed);
    forall j | 0 <= j < |feed| - 1 ensures IsOf(feed[j], key) { assert feed[j] in feed; }
  }

  lemma QueuedAlone(st: State, p: Prepared)
    requires st.ready == [] && st.forwarding && p.sms.sender !in st.blocked
    ensures QueuePreparation(st, Ready(p)) == st.(ready := [SmsItem(p)])
  {
    assert QueueSms([], p) == [SmsItem(p)];
  }

  /** Reading the places of a message, in any order, queues it with the slots of all its parts. */
  lemma PartsQueued(decode: nat -> Decoded, st: State, key: Key, texts: seq<string>, visits: seq<Visit>)
      returns (p: Prepared)
    requires st.ready == [] && st.forwarding && key.sender !in st.blocked && AllReadable(decode, st, visits)
    requires HoldsMessage(st.groups, Parts(decode, st.modem, visits), key, texts)
    ensures var feed := Parts(decode, st.modem, visits);
      && Run(decode, st, Sweep(visits)) == st.(groups := FeedAll(st.groups, feed).0, ready := [SmsItem(p)])
      && p.sms == Sms(key.sender, Join(texts), feed[0].part.timestamp)
      && SlotSet(p.slots) == Slots(feed, key) && |p.slots| == |Slots(feed, key)|
      && Absent(FeedAll(st.groups, feed).0, key)
  {
    hide FeedAll, Join, SlotSet, Slots, Run, Sweep, ReadPart, Readable, Absent, QueuePreparation, CompletesAtEnd;
    var feed := Parts(decode, st.modem, visits);
    PartsPrepared(st.groups, feed, key, texts);
    var (table, outs) := FeedAll(st.groups, feed);
    p := PreparedFrom(outs[|outs| - 1].message);
    ReadsFeed(decode, st, visits);
    QueuedAlone(st.(groups := table), p);
  }

  /** The slots of the parts are those at the places read. */
  lemma ClearsPlaces(decode: nat -> Decoded, st: State, visits: seq<Visit>, key: Key, slots: seq<StorageSlot>)
    requires AllReadable(decode, st, visits) && SlotSet(slots) == Slots(Parts(decode, st.modem, visits), key)
    requires forall a :: a in Parts(decode, st.modem, visits) ==> IsOf(a, key)
    ensures Cleared(st.modem, slots) == st.modem - Places(visits)
  {
    hide IsOf, Holding, Count;
    var feed := Parts(decode, st.modem, visits);
    forall p | p in st.modem ensures SlotAt(p, st.modem[p]) in slots <==> p in Places(visits) {
      var s := SlotAt(p, st.modem[p]);
      if p in Places(visits) {
        var i :| 0 <= i < |visits| && visits[i].place == p;
        assert feed[i] in feed && feed[i].slot == Some(s);
        assert s in SlotSet(slots);
      }
      if s in slots {
        assert s in SlotSet(slots);
        var a :| a in feed && a.slot == Some(s);
        var i :| 0 <= i < |feed| && feed[i] == a;
        assert visits[i] in visits && visits[i].place == p;
      }
    }
  }

  /** A message stored in parts, read in whatever order, is joined, sent, acknowledged and
      erased: it is delivered whole, and exactly the places of its parts are free again. */
  lemma PartsLife(decode: nat -> Decoded, st: State, key: Key, texts: seq<string>, visits: seq<Visit>, room: nat)
    requires Inv(decode, st) && Idle(st) && room > 0 && st.forwarding && key.sender !in st.blocked
    requires AllReadable(decode, st, visits)
    requires HoldsMessage(st.groups, Parts(decode, st.modem, visits), key, texts)
    ensures var feed := Parts(decode, st.modem, visits);
      var end := Run(decode, st, Sweep(visits) + (Delivers(room) + Erasures(|Slots(feed, key)|)));
      && end == st.(groups := end.groups, modem := st.modem - Places(visits),
                    delivered := st.delivered + {Sms(key.sender, Join(texts), feed[0].part.timestamp)})
      && Absent(end.groups, key)
  {
    hide Run, Inv, Delivers, Erasures, Sweep, Slots, SlotSet, Join, FeedAll, Cleared, Readable, Absent,
         CompletesAtEnd, ReadPart;
    var feed := Parts(decode, st.modem, visits);
    var p := PartsQueued(decode, st, key, texts, visits);
    var queued := st.(groups := FeedAll(st.groups, feed).0, ready := [SmsItem(p)]);
    RunInv(decode, st, Sweep(visits));
    RunSplit(decode, st, Sweep(visits), Delivers(room) + Erasures(|Slots(feed, key)|));
    QueuedLife(decode, queued, p, room);
    ClearsPlaces(decode, st, visits, key, p.slots);
  }

  // ---- Sweeping ----

  /** A complete listing of the ME bank gives up exactly the due slots of that bank it lacks. */
  lemma {:induction false} ListedExactly(deletions: seq<StorageSlot>, modem: map<Place, nat>)
    ensures forall s :: s in RetainListed(deletions, modem)
                        <==> s in deletions && (s.mem == "ME" ==> PlaceOf(s) in modem)
  {
    if deletions != [] {
      ListedExactly(deletions[1..], modem);
      assert forall s :: s in deletions <==> s == deletions[0] || s in deletions[1..];
    }
  }

  /** A complete listing and then as many working attempts as are left: nothing stays due but
      what was asked to leave a bank the listing does not show. */
  lemma SweepDrains(decode: nat -> Decoded, st: State)
    requires Inv(decode, st)
    ensures var listed := Step(decode, st, SweepListed);
      var end := Run(decode, listed, Erasures(|listed.deletions|));
      forall s :: s in end.deletions ==> s.mem != "ME"
  {
    hide Run, Sound, Cleared, Erasures, RetainListed, Keep, Holders;
    var listed := Step(decode, st, SweepListed);
    StepInv(decode, st, SweepListed);
    ListedExactly(st.deletions, st.modem);
    EraseAll(decode, listed);
    forall s | s in Keep(listed.deletions, GoneFrom(listed.modem)) ensures s.mem != "ME" {
      KeptIs(listed.deletions, GoneFrom(listed.modem), s);
    }
  }
}
