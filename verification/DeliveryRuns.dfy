/** Every event keeps the delivery invariant, so every run does; and a message leaves the
    modem only after it was delivered or dropped on purpose. */
module DeliveryRuns {
  import opened Common
  import opened Concat
  import opened Delivery
  import opened DeliverySafety

  // ---- The ready queue ----

  lemma ReadyRemove(decode: nat -> Decoded, modem: map<Place, nat>, ready: seq<Item>, i: nat)
    requires ReadyOk(decode, modem, ready) && Ranked(ready) && i < |ready|
    ensures ReadyOk(decode, modem, RemoveAt(ready, i)) && Ranked(RemoveAt(ready, i))
    ensures |RemoveAt(ready, i)| == |ready| - 1
  {
    hide ItemOk;
  }

  lemma ReserveOk(decode: nat -> Decoded, modem: map<Place, nat>, ready: seq<Item>)
    requires ReadyOk(decode, modem, ready) && Ranked(ready) && |ready| <= MAX_READY
    ensures ReadyOk(decode, modem, ReserveCritical(ready)) && Ranked(ReserveCritical(ready))
    ensures |ReserveCritical(ready)| <= |ready|
    ensures ReadyOk(decode, modem, ReserveEphemeral(ready)) && Ranked(ReserveEphemeral(ready))
    ensures |ReserveEphemeral(ready)| <= |ready|
  {
    hide ReadyOk, Ranked, RemoveAt;
    var i := LastPosition(ready, IsPlain);
    if i < |ready| { ReadyRemove(decode, modem, ready, i); }
    var r := ReserveCritical(ready);
    var k := LastPosition(r, HoldsSlots);
    if k < |r| { ReadyRemove(decode, modem, r, k); }
  }

  lemma ReserveHolds(ready: seq<Item>, q: Place)
    ensures Holding(ReserveCritical(ready), ItemSlots, q) <= Holding(ready, ItemSlots, q)
    ensures Holding(ReserveEphemeral(ready), ItemSlots, q) <= Holding(ready, ItemSlots, q)
  {
    hide Holding, RemoveAt;
    var i := LastPosition(ready, IsPlain);
    if i < |ready| { HoldingRemove(ready, i, ItemSlots, q); }
    var r := ReserveCritical(ready);
    var k := LastPosition(r, HoldsSlots);
    if k < |r| { HoldingRemove(r, k, ItemSlots, q); }
  }

  /** A message goes behind the calls and messages and in front of everything plain. */
  lemma QueueSmsOk(decode: nat -> Decoded, modem: map<Place, nat>, ready: seq<Item>, p: Prepared)
    requires ReadyOk(decode, modem, ready) && Ranked(ready) && ItemOk(decode, modem, SmsItem(p))
    ensures ReadyOk(decode, modem, QueueSms(ready, p)) && Ranked(QueueSms(ready, p))
    ensures |QueueSms(ready, p)| == |ready| + 1
  {
    hide ItemOk;
    var k := Position(ready, IsPlain);
    forall j | k <= j < |ready| ensures Rank(ready[j]) == 2 {
      assert Rank(ready[k]) == 2;
    }
  }

  lemma QueuePlainOk(decode: nat -> Decoded, modem: map<Place, nat>, ready: seq<Item>, text: string)
    requires ReadyOk(decode, modem, ready) && Ranked(ready) && |ready| <= MAX_READY
    ensures ReadyOk(decode, modem, QueuePlain(ready, text)) && Ranked(QueuePlain(ready, text))
    ensures |QueuePlain(ready, text)| <= MAX_READY
  {}

  lemma QueuePlainHolds(ready: seq<Item>, text: string, q: Place)
    ensures Holding(QueuePlain(ready, text), ItemSlots, q) == Holding(ready, ItemSlots, q)
  {
    HoldingConcat(ready, [PlainItem(text)], ItemSlots, q);
    HoldingOne(PlainItem(text), ItemSlots, q);
    CountElsewhere([], q);
  }

  lemma CallFirstOk(decode: nat -> Decoded, modem: map<Place, nat>, ready: seq<Item>, text: string)
    requires ReadyOk(decode, modem, ready) && Ranked(ready)
    ensures ReadyOk(decode, modem, [CallItem(text)] + ready) && Ranked([CallItem(text)] + ready)
  {}

  lemma CallFirstHolds(ready: seq<Item>, text: string, q: Place)
    ensures Holding([CallItem(text)] + ready, ItemSlots, q) == Holding(ready, ItemSlots, q)
  {
    HoldingConcat([CallItem(text)], ready, ItemSlots, q);
    HoldingOne(CallItem(text), ItemSlots, q);
    CountElsewhere([], q);
  }

  // ---- Deletions ----

  /** A settled message settles all its slots. */
  lemma DeletionsGrow(decode: nat -> Decoded, modem: map<Place, nat>, done: set<Sms>, more: set<Sms>,
                      deletions: seq<StorageSlot>, item: Item)
    requires DeletionsOk(decode, done, deletions) && ItemOk(decode, modem, item) && done <= more
    requires item.SmsItem? ==> item.prepared.sms in more
    ensures DeletionsOk(decode, more, deletions + ItemSlots(item))
  {
    hide Covers;
    forall s | s in deletions + ItemSlots(item) ensures Settled(decode, more, s.fingerprint) {
      if s in deletions { assert Settled(decode, done, s.fingerprint); }
    }
  }

  lemma QueuePreparationOk(decode: nat -> Decoded, st: State, p: Preparation)
    requires Sound(decode, st) && PreparationOk(decode, st.modem, p) && |st.ready| < MAX_READY
    ensures Sound(decode, QueuePreparation(st, p))
  {
    hide GroupsOk, UniqueKeys, PendingOk, ReadyOk, Ranked, DeletionsOk, ItemOk, QueueSms;
    match p {
      case Retained =>
      case Consumed(slots) => assert st.deletions + slots == st.deletions;
      case Ready(prepared) =>
        QueueSmsOk(decode, st.modem, st.ready, prepared);
        var done := st.delivered + st.dropped;
        DeletionsGrow(decode, st.modem, done, done + {prepared.sms}, st.deletions, SmsItem(prepared));
        assert done + {prepared.sms} == st.delivered + (st.dropped + {prepared.sms});
    }
  }

  lemma QueuePreparationHolds(st: State, p: Preparation, q: Place)
    ensures Holders(QueuePreparation(st, p), q) == Holders(st, q) + Count(PreparedSlots(p), q)
  {
    hide Holding, InsertAt;
    match p {
      case Retained => CountElsewhere([], q);
      case Consumed(slots) => CountConcat(st.deletions, slots, q);
      case Ready(prepared) =>
        CountConcat(st.deletions, prepared.slots, q);
        HoldingInsert(st.ready, Position(st.ready, IsPlain), SmsItem(prepared), ItemSlots, q);
    }
  }

  /** Preparing and queuing keeps everything sound. */
  lemma PrepareAndQueueOk(decode: nat -> Decoded, st: State, content: nat, slot: Option<StorageSlot>, now: nat)
    requires Sound(decode, st) && |st.ready| < MAX_READY
    requires slot.Some? ==> InModem(st.modem, slot.value) && slot.value.fingerprint == content
    requires slot.Some? ==> Holding(st.groups, GroupSlots, PlaceOf(slot.value)) <= 1
    ensures Sound(decode, PrepareAndQueue(decode, st, content, slot, now))
  {
    hide GroupsOk, UniqueKeys, PendingOk, ReadyOk, Ranked, DeletionsOk, PreparationOk, Holding, Prepare,
         QueuePreparation;
    PrepareOk(decode, st.modem, st.groups, content, slot, now);
    var (groups, p) := Prepare(decode, st.groups, content, slot, now);
    QueuePreparationOk(decode, st.(groups := groups), p);
  }

  lemma PrepareAndQueueHolds(decode: nat -> Decoded, st: State, content: nat, slot: Option<StorageSlot>, now: nat)
    requires Sound(decode, st) && HeldOnce(st)
    requires slot.Some? ==> InModem(st.modem, slot.value) && slot.value.fingerprint == content
    requires slot.Some? ==> var q := PlaceOf(slot.value);
      Holding(st.ready, ItemSlots, q) == 0 && Holding(st.pending, PendingSlots, q) == 0 && Count(st.deletions, q) == 0
    ensures HeldOnce(PrepareAndQueue(decode, st, content, slot, now))
  {
    hide GroupsOk, UniqueKeys, PendingOk, ReadyOk, Ranked, DeletionsOk, Holding, Prepare, QueuePreparation, Count;
    var (groups, p) := Prepare(decode, st.groups, content, slot, now);
    if slot.Some? { assert Holders(st, PlaceOf(slot.value)) <= 1; }
    forall q ensures Holders(PrepareAndQueue(decode, st, content, slot, now), q) <= 1 {
      assert Holders(st, q) <= 1;
      PrepareHolds(decode, st.modem, st.groups, content, slot, now, q);
      QueuePreparationHolds(st.(groups := groups), p, q);
    }
  }

  // ---- Receipts ----

  lemma TakeReceiptOk(decode: nat -> Decoded, st: State, i: nat)
    requires Sound(decode, st) && i < |st.pending|
    ensures Sound(decode, TakeReceipt(st, i))
  {
    hide GroupsOk, UniqueKeys, ReadyOk, Ranked, DeletionsOk, ItemOk;
    var done := st.delivered + st.dropped;
    if st.pending[i].reply.Sent? {
      DeletionsGrow(decode, st.modem, done, done, st.deletions, st.pending[i].item);
    }
  }

  lemma TakeReceiptHolds(st: State, i: nat, q: Place)
    requires i < |st.pending|
    ensures Holders(TakeReceipt(st, i), q) <= Holders(st, q)
  {
    hide SwapRemove, Holding, Count;
    HoldingSwapRemove(st.pending, i, PendingSlots, q);
    CountConcat(st.deletions, PendingSlots(st.pending[i]), q);
  }

  lemma {:induction false} TakeReceiptsOk(decode: nat -> Decoded, st: State, i: nat)
    requires Inv(decode, st)
    ensures Inv(decode, TakeReceipts(st, i))
    ensures var after := TakeReceipts(st, i); after == st.(pending := after.pending, deletions := after.deletions)
    decreases |st.pending| - i
  {
    hide Sound, Holders, TakeReceipt;
    if i < |st.pending| {
      if st.pending[i].reply.Waiting? {
        TakeReceiptsOk(decode, st, i + 1);
      } else {
        TakeReceiptOk(decode, st, i);
        forall q ensures Holders(TakeReceipt(st, i), q) <= 1 { TakeReceiptHolds(st, i, q); }
        TakeReceiptShrinks(st, i);
        TakeReceiptsOk(decode, TakeReceipt(st, i), i);
      }
    }
  }

  lemma TakeReceiptShrinks(st: State, i: nat)
    requires i < |st.pending|
    ensures var after := TakeReceipt(st, i);
      |after.pending| == |st.pending| - 1 && after == st.(pending := after.pending, deletions := after.deletions)
  {}

  // ---- The modem changes at one place ----

  /** Both storages agree everywhere but at `place`, which nothing may hold unless it was free. */
  ghost predicate SameOff(a: map<Place, nat>, b: map<Place, nat>, place: Place) {
    forall p :: p in a && p != place ==> p in b && b[p] == a[p]
  }

  lemma InModemOff(a: map<Place, nat>, b: map<Place, nat>, place: Place, s: StorageSlot)
    requires SameOff(a, b, place) && InModem(a, s) && PlaceOf(s) != place
    ensures InModem(b, s)
  {}

  lemma GroupsOff(decode: nat -> Decoded, a: map<Place, nat>, b: map<Place, nat>, place: Place, groups: seq<Group>)
    requires GroupsOk(decode, a, groups) && SameOff(a, b, place)
    requires place !in a || Holding(groups, GroupSlots, place) == 0
    ensures GroupsOk(decode, b, groups)
  {
    hide Holding;
    forall i, s | 0 <= i < |groups| && s in groups[i].slots ensures InModem(b, s) {
      assert GroupOk(decode, a, groups[i]);
      HoldingMember(groups, i, GroupSlots, s);
      InModemOff(a, b, place, s);
    }
    forall i | 0 <= i < |groups| ensures GroupOk(decode, b, groups[i]) {
      assert GroupOk(decode, a, groups[i]);
    }
  }

  lemma ItemOff(decode: nat -> Decoded, a: map<Place, nat>, b: map<Place, nat>, place: Place, item: Item)
    requires ItemOk(decode, a, item) && SameOff(a, b, place)
    requires place !in a || Count(ItemSlots(item), place) == 0
    ensures ItemOk(decode, b, item)
  {
    hide Covers, Count;
    if item.SmsItem? {
      forall s | s in item.prepared.slots ensures InModem(b, s) {
        CountMember(item.prepared.slots, s);
        InModemOff(a, b, place, s);
      }
    }
  }

  lemma ModemChange(decode: nat -> Decoded, st: State, b: map<Place, nat>, place: Place)
    requires Sound(decode, st) && SameOff(st.modem, b, place)
    requires place !in st.modem ||
      (Holding(st.groups, GroupSlots, place) == 0 && Holding(st.ready, ItemSlots, place) == 0
       && Holding(st.pending, PendingSlots, place) == 0)
    ensures Sound(decode, st.(modem := b))
  {
    hide GroupsOk, UniqueKeys, DeletionsOk, ItemOk, Holding, SameOff, Ranked;
    GroupsOff(decode, st.modem, b, place, st.groups);
    forall i | 0 <= i < |st.ready| ensures ItemOk(decode, b, st.ready[i]) {
      HoldingSplit(st.ready, i, ItemSlots, place);
      ItemOff(decode, st.modem, b, place, st.ready[i]);
    }
    forall i | 0 <= i < |st.pending| ensures ItemOk(decode, b, st.pending[i].item) {
      HoldingSplit(st.pending, i, PendingSlots, place);
      ItemOff(decode, st.modem, b, place, st.pending[i].item);
    }
  }

  // ---- Deleting ----

  /** The deletion queue loses its front, keeps it, or moves it to the back. */
  lemma DeletionsRotate(decode: nat -> Decoded, done: set<Sms>, deletions: seq<StorageSlot>, q: Place)
    requires deletions != [] && DeletionsOk(decode, done, deletions)
    ensures DeletionsOk(decode, done, deletions[1..]) && DeletionsOk(decode, done, deletions[1..] + [deletions[0]])
    ensures Count(deletions[1..], q) <= Count(deletions, q)
    ensures Count(deletions[1..] + [deletions[0]], q) == Count(deletions, q)
  {
    hide Settled;
    CountConcat(deletions[1..], [deletions[0]], q);
    CountOne(deletions[0], q);
  }

  lemma TryDeleteOk(decode: nat -> Decoded, st: State, how: DeleteTry)
    requires Inv(decode, st)
    ensures Inv(decode, TryDelete(st, how))
    ensures var after := TryDelete(st, how).modem;
      forall p :: p in st.modem && (p !in after || after[p] != st.modem[p]) ==>
      Settled(decode, st.delivered + st.dropped, st.modem[p])
  {
    hide GroupsOk, UniqueKeys, ReadyOk, PendingOk, DeletionsOk, Ranked, Holding, Settled, Count;
    if st.deletions != [] {
      var d := st.deletions[0];
      var after := TryDelete(st, how);
      var done := st.delivered + st.dropped;
      assert Settled(decode, done, d.fingerprint) by { FrontSettled(decode, done, st.deletions); }
      forall q ensures Holders(after, q) <= 1 {
        assert Holders(st, q) <= 1;
        DeletionsRotate(decode, done, st.deletions, q);
      }
      DeletionsRotate(decode, done, st.deletions, PlaceOf(d));
      CountMember(st.deletions, d);
      assert Holders(st, PlaceOf(d)) <= 1;
      assert SameOff(st.modem, st.modem - {PlaceOf(d)}, PlaceOf(d));
      ModemChange(decode, st, st.modem - {PlaceOf(d)}, PlaceOf(d));
    }
  }

  lemma FrontSettled(decode: nat -> Decoded, done: set<Sms>, deletions: seq<StorageSlot>)
    requires deletions != [] && DeletionsOk(decode, done, deletions)
    ensures Settled(decode, done, deletions[0].fingerprint)
  {}

  lemma {:induction false} RetainListedOk(decode: nat -> Decoded, done: set<Sms>, deletions: seq<StorageSlot>,
                                          modem: map<Place, nat>)
    requires DeletionsOk(decode, done, deletions)
    ensures DeletionsOk(decode, done, RetainListed(deletions, modem))
  {
    hide Settled;
    if deletions != [] { RetainListedOk(decode, done, deletions[1..], modem); }
  }

  lemma {:induction false} RetainListedHolds(deletions: seq<StorageSlot>, modem: map<Place, nat>, q: Place)
    ensures Count(RetainListed(deletions, modem), q) <= Count(deletions, q)
  {
    if deletions != [] {
      RetainListedHolds(deletions[1..], modem, q);
      assert [] + RetainListed(deletions[1..], modem) == RetainListed(deletions[1..], modem);
      CountConcat([deletions[0]], RetainListed(deletions[1..], modem), q);
      CountOne(deletions[0], q);
    }
  }

  // ---- Dispatching ----

  function Moved(st: State, i: nat): State
    requires i < |st.ready|
  {
    st.(ready := RemoveAt(st.ready, i), pending := st.pending + [PendingItem(st.ready[i], Waiting)])
  }

  lemma MovedOk(decode: nat -> Decoded, st: State, i: nat)
    requires Sound(decode, st) && i < |st.ready| && |st.pending| < MAX_PENDING
    ensures Sound(decode, Moved(st, i))
  {
    assert ItemOk(decode, st.modem, st.ready[i]);
    hide GroupsOk, UniqueKeys, DeletionsOk, ItemOk, RemoveAt, ReadyOk, Ranked;
    ReadyRemove(decode, st.modem, st.ready, i);
  }

  lemma MovedHolds(st: State, i: nat, q: Place)
    requires i < |st.ready|
    ensures Holders(Moved(st, i), q) == Holders(st, q)
  {
    hide Holding, RemoveAt, Count;
    var x := PendingItem(st.ready[i], Waiting);
    HoldingRemove(st.ready, i, ItemSlots, q);
    HoldingConcat(st.pending, [x], PendingSlots, q);
    HoldingOne(x, PendingSlots, q);
  }

  lemma {:induction false} DispatchOk(decode: nat -> Decoded, st: State, room: nat)
    requires Inv(decode, st)
    ensures Inv(decode, DispatchReady(st, room))
    ensures var after := DispatchReady(st, room); after == st.(ready := after.ready, pending := after.pending)
    decreases room
  {
    hide Sound, Holders;
    if room > 0 && |st.pending| < MAX_PENDING {
      var i := if |st.deletions| >= MAX_PENDING_DELETIONS then Position(st.ready, NotSms) else 0;
      if i < |st.ready| {
        MovedOk(decode, st, i);
        forall q ensures Holders(Moved(st, i), q) <= 1 { MovedHolds(st, i, q); }
        DispatchOk(decode, Moved(st, i), room - 1);
      }
    }
  }

  // ---- Each event ----

  lemma ArriveOk(decode: nat -> Decoded, st: State, place: Place, content: nat)
    requires Inv(decode, st) && place !in st.modem
    ensures Inv(decode, st.(modem := st.modem[place := content]))
  {
    hide Sound, Holding, Count;
    var after := st.(modem := st.modem[place := content]);
    ModemChange(decode, st, st.modem[place := content], place);
    forall q ensures Holders(after, q) <= 1 { assert Holders(st, q) <= 1; }
  }

  lemma ReplyOk(decode: nat -> Decoded, st: State, i: nat, ok: bool)
    requires Inv(decode, st)
    ensures Inv(decode, Step(decode, st, TelegramReplies(i, ok)))
  {
    hide GroupsOk, UniqueKeys, ReadyOk, Ranked, Settled, ItemOk, Holding, Count;
    var after := Step(decode, st, TelegramReplies(i, ok));
    if i < |st.pending| && st.pending[i].reply.Waiting? {
      assert st.delivered <= after.delivered;
      DeletionsMonotone(decode, st.delivered + st.dropped, after.delivered + after.dropped, st.deletions);
      var x := st.pending[i];
      forall q ensures Holders(after, q) <= 1 {
        assert Holders(st, q) <= 1;
        HoldingUpdate(st.pending, i, x.(reply := if ok then Sent else Failed), PendingSlots, q);
      }
    }
  }

  lemma DeletionsMonotone(decode: nat -> Decoded, done: set<Sms>, more: set<Sms>, deletions: seq<StorageSlot>)
    requires DeletionsOk(decode, done, deletions) && done <= more
    ensures DeletionsOk(decode, more, deletions)
  {
    hide Covers;
    forall s | s in deletions ensures Settled(decode, more, s.fingerprint) {
      assert Settled(decode, done, s.fingerprint);
    }
  }

  lemma ReadySet(decode: nat -> Decoded, st: State, ready: seq<Item>)
    requires Inv(decode, st) && ReadyOk(decode, st.modem, ready) && Ranked(ready) && |ready| <= MAX_READY
    requires forall q :: Holding(ready, ItemSlots, q) <= Holding(st.ready, ItemSlots, q)
    ensures Inv(decode, st.(ready := ready))
  {
    hide GroupsOk, UniqueKeys, ReadyOk, Ranked, PendingOk, DeletionsOk, Holding, Count;
    forall q ensures Holders(st.(ready := ready), q) <= 1 { assert Holders(st, q) <= 1; }
  }

  lemma NotifyOk(decode: nat -> Decoded, st: State, text: string)
    requires Inv(decode, st)
    ensures Inv(decode, Step(decode, st, Notify(text)))
  {
    hide GroupsOk, UniqueKeys, ReadyOk, Ranked, PendingOk, DeletionsOk, HeldOnce, Holding, QueuePlain;
    QueuePlainOk(decode, st.modem, st.ready, text);
    forall q ensures Holding(QueuePlain(st.ready, text), ItemSlots, q) <= Holding(st.ready, ItemSlots, q) {
      QueuePlainHolds(st.ready, text, q);
    }
    ReadySet(decode, st, QueuePlain(st.ready, text));
  }

  lemma CallOk(decode: nat -> Decoded, st: State, text: string)
    requires Inv(decode, st)
    ensures Inv(decode, Step(decode, st, IncomingCall(text)))
  {
    hide GroupsOk, UniqueKeys, ReadyOk, Ranked, PendingOk, DeletionsOk, HeldOnce, Holding, ReserveEphemeral;
    ReserveOk(decode, st.modem, st.ready);
    var r := ReserveEphemeral(st.ready);
    var ready := if |r| < MAX_READY then [CallItem(text)] + r else r;
    CallFirstOk(decode, st.modem, r, text);
    forall q ensures Holding(ready, ItemSlots, q) <= Holding(st.ready, ItemSlots, q) {
      ReserveHolds(st.ready, q);
      CallFirstHolds(r, text, q);
    }
    ReadySet(decode, st, ready);
  }

  lemma DirectOk(decode: nat -> Decoded, st: State, content: nat, now: nat)
    requires Inv(decode, st)
    ensures Inv(decode, Step(decode, st, DirectSms(content, now)))
  {
    hide GroupsOk, UniqueKeys, ReadyOk, Ranked, PendingOk, DeletionsOk, HeldOnce, Holding, ReserveEphemeral,
         PrepareAndQueue;
    ReserveOk(decode, st.modem, st.ready);
    var r := ReserveEphemeral(st.ready);
    forall q ensures Holding(r, ItemSlots, q) <= Holding(st.ready, ItemSlots, q) { ReserveHolds(st.ready, q); }
    ReadySet(decode, st, r);
    if |r| < MAX_READY {
      PrepareAndQueueOk(decode, st.(ready := r), content, None, now);
      PrepareAndQueueHolds(decode, st.(ready := r), content, None, now);
    }
  }

  lemma StoredOk(decode: nat -> Decoded, st: State, place: Place, now: nat)
    requires Inv(decode, st)
    ensures Inv(decode, Stored(st, place, now, decode))
  {
    hide GroupsOk, UniqueKeys, ReadyOk, Ranked, PendingOk, DeletionsOk, HeldOnce, Holding, Count, ReserveCritical,
         PrepareAndQueue;
    ReserveOk(decode, st.modem, st.ready);
    var r := ReserveCritical(st.ready);
    forall q ensures Holding(r, ItemSlots, q) <= Holding(st.ready, ItemSlots, q) { ReserveHolds(st.ready, q); }
    ReadySet(decode, st, r);
    if place in st.modem && |r| < MAX_READY && Holding(st.ready, ItemSlots, place) == 0
       && Holding(st.pending, PendingSlots, place) == 0 && Count(st.deletions, place) == 0 {
      var slot := SlotAt(place, st.modem[place]);
      GroupHoldsOnce(st, place);
      PrepareAndQueueOk(decode, st.(ready := r), st.modem[place], Some(slot), now);
      PrepareAndQueueHolds(decode, st.(ready := r), st.modem[place], Some(slot), now);
    }
  }

  lemma GroupHoldsOnce(st: State, place: Place)
    requires HeldOnce(st)
    ensures Holding(st.groups, GroupSlots, place) <= 1
  {
    assert Holders(st, place) <= 1;
  }

  lemma ListedOk(decode: nat -> Decoded, st: State)
    requires Inv(decode, st)
    ensures Inv(decode, Step(decode, st, SweepListed))
  {
    hide GroupsOk, UniqueKeys, ReadyOk, Ranked, PendingOk, DeletionsOk, Holding, Count, RetainListed;
    RetainListedOk(decode, st.delivered + st.dropped, st.deletions, st.modem);
    forall q ensures Holders(Step(decode, st, SweepListed), q) <= 1 {
      assert Holders(st, q) <= 1;
      RetainListedHolds(st.deletions, st.modem, q);
    }
  }

  lemma BootedOk(decode: nat -> Decoded, modem: map<Place, nat>, forwarding: bool, blocked: set<string>,
                 delivered: set<Sms>, dropped: set<Sms>)
    ensures Inv(decode, Booted(modem, forwarding, blocked, delivered, dropped))
  {}

  /** Every event keeps the invariant. */
  lemma StepInv(decode: nat -> Decoded, st: State, e: Event)
    requires Inv(decode, st)
    ensures Inv(decode, Step(decode, st, e))
  {
    hide Stored, TakeReceipts, DispatchReady, TryDelete, Booted, Sound, Holders;
    match e {
      case Arrive(place, content) => if place !in st.modem { ArriveOk(decode, st, place, content); }
      case TelegramReplies(i, ok) => ReplyOk(decode, st, i, ok);
      case SetForwarding(on) => SettingsOk(decode, st, on, st.blocked);
      case SetBlocked(senders) => SettingsOk(decode, st, st.forwarding, senders);
      case Receipts => TakeReceiptsOk(decode, st, 0);
      case DeleteFront(how) => TryDeleteOk(decode, st, how);
      case Notify(text) => NotifyOk(decode, st, text);
      case IncomingCall(text) => CallOk(decode, st, text);
      case DirectSms(content, now) => DirectOk(decode, st, content, now);
      case ReadStored(place, now) => StoredOk(decode, st, place, now);
      case SweepListed => ListedOk(decode, st);
      case Dispatch(room) => DispatchOk(decode, st, room);
      case Reboot(forwarding) => BootedOk(decode, st.modem, forwarding, st.blocked, st.delivered, st.dropped);
    }
  }

  lemma SettingsOk(decode: nat -> Decoded, st: State, forwarding: bool, blocked: set<string>)
    requires Inv(decode, st)
    ensures Inv(decode, st.(forwarding := forwarding)) && Inv(decode, st.(blocked := blocked))
  {
    hide GroupsOk, UniqueKeys, ReadyOk, Ranked, PendingOk, DeletionsOk, Holding, Count;
    forall q ensures Holders(st.(forwarding := forwarding), q) <= 1 && Holders(st.(blocked := blocked), q) <= 1 {
      assert Holders(st, q) <= 1;
    }
  }

  lemma {:induction false} RunInv(decode: nat -> Decoded, st: State, es: seq<Event>)
    requires Inv(decode, st)
    ensures Inv(decode, Run(decode, st, es))
    decreases |es|
  {
    hide Inv, Step;
    if es != [] {
      StepInv(decode, st, es[0]);
      RunInv(decode, Step(decode, st, es[0]), es[1..]);
    }
  }

  // ---- What leaves the modem ----

  ghost predicate Remains(a: map<Place, nat>, b: map<Place, nat>, p: Place) {
    p in a ==> p in b && b[p] == a[p]
  }

  lemma PreparedFrame(decode: nat -> Decoded, st: State, content: nat, slot: Option<StorageSlot>, now: nat)
    ensures var after := PrepareAndQueue(decode, st, content, slot, now);
      && after.modem == st.modem && after.delivered == st.delivered
      && forall m :: m in after.dropped && m !in st.dropped ==> !st.forwarding || m.sender in st.blocked
    ensures PrepareAndQueue(decode, st, content, slot, now).dropped >= st.dropped
  {
    hide Prepare, QueueSms;
  }

  /** A message is recorded as delivered only when Telegram acknowledges the notification that
      contains it, and as dropped only while forwarding is off or its sender blocked. */
  lemma HistoryIsHonest(decode: nat -> Decoded, st: State, e: Event)
    requires Inv(decode, st)
    ensures var after := Step(decode, st, e);
      && st.delivered <= after.delivered && st.dropped <= after.dropped
      && (forall m :: m in after.delivered && m !in st.delivered ==>
           e.TelegramReplies? && e.ok && e.i < |st.pending| && st.pending[e.i].reply.Waiting?
           && st.pending[e.i].item.SmsItem? && st.pending[e.i].item.prepared.sms == m)
      && (forall m :: m in after.dropped && m !in st.dropped ==> !st.forwarding || m.sender in st.blocked)
  {
    hide PrepareAndQueue, TakeReceipts, DispatchReady, Inv, ReserveCritical, ReserveEphemeral, Holding, Count;
    match e {
      case Receipts => TakeReceiptsOk(decode, st, 0);
      case Dispatch(room) => DispatchOk(decode, st, room);
      case DirectSms(content, now) =>
        PreparedFrame(decode, st.(ready := ReserveEphemeral(st.ready)), content, None, now);
      case ReadStored(place, now) =>
        if place in st.modem {
          PreparedFrame(decode, st.(ready := ReserveCritical(st.ready)), st.modem[place],
                        Some(SlotAt(place, st.modem[place])), now);
        }
      case _ =>
    }
  }

  lemma StepRemoves(decode: nat -> Decoded, st: State, e: Event, p: Place)
    requires Inv(decode, st) && p in st.modem
    ensures Remains(st.modem, Step(decode, st, e).modem, p) || Settled(decode, st.delivered + st.dropped, st.modem[p])
  {
    hide PrepareAndQueue, TakeReceipts, DispatchReady, TryDelete, Inv, ReserveCritical, ReserveEphemeral, Holding,
         Count, Settled;
    match e {
      case Receipts => TakeReceiptsOk(decode, st, 0);
      case Dispatch(room) => DispatchOk(decode, st, room);
      case DeleteFront(how) => TryDeleteOk(decode, st, how);
      case DirectSms(content, now) =>
        PreparedFrame(decode, st.(ready := ReserveEphemeral(st.ready)), content, None, now);
      case ReadStored(place, now) =>
        if place in st.modem {
          PreparedFrame(decode, st.(ready := ReserveCritical(st.ready)), st.modem[place],
                        Some(SlotAt(place, st.modem[place])), now);
        }
      case _ =>
    }
  }

  lemma SettledMonotone(decode: nat -> Decoded, a: set<Sms>, b: set<Sms>, content: nat)
    requires Settled(decode, a, content) && a <= b
    ensures Settled(decode, b, content)
  {}

  lemma {:induction false} RunHistory(decode: nat -> Decoded, st: State, es: seq<Event>)
    requires Inv(decode, st)
    ensures st.delivered <= Run(decode, st, es).delivered && st.dropped <= Run(decode, st, es).dropped
    decreases |es|
  {
    hide Inv, Step;
    if es != [] {
      StepInv(decode, st, es[0]);
      HistoryIsHonest(decode, st, es[0]);
      RunHistory(decode, Step(decode, st, es[0]), es[1..]);
    }
  }

  lemma {:induction false} RunRemoves(decode: nat -> Decoded, st: State, es: seq<Event>, p: Place)
    requires Inv(decode, st) && p in st.modem
    ensures var after := Run(decode, st, es);
      Remains(st.modem, after.modem, p) || Settled(decode, after.delivered + after.dropped, st.modem[p])
    decreases |es|
  {
    hide Inv, Step, Settled;
    if es != [] {
      var next := Step(decode, st, es[0]);
      StepInv(decode, st, es[0]);
      StepRemoves(decode, st, es[0], p);
      if Remains(st.modem, next.modem, p) {
        RunRemoves(decode, next, es[1..], p);
      } else {
        HistoryIsHonest(decode, st, es[0]);
        RunHistory(decode, next, es[1..]);
        var after := Run(decode, st, es);
        SettledMonotone(decode, st.delivered + st.dropped, after.delivered + after.dropped, st.modem[p]);
      }
    }
  }

  lemma {:induction false} RunSplit(decode: nat -> Decoded, st: State, a: seq<Event>, b: seq<Event>)
    ensures Run(decode, st, a + b) == Run(decode, Run(decode, st, a), b)
    decreases |a|
  {
    hide Step;
    if a == [] {
      assert a + b == b;
    } else {
      assert (a + b)[1..] == a[1..] + b;
      RunSplit(decode, Step(decode, st, a[0]), a[1..], b);
    }
  }

  /** Whatever happens, in whatever order and with any number of reboots: content that was in
      the modem at some moment is still there, or it was delivered to Telegram, or it was
      dropped on purpose. */
  lemma NothingIsLost(decode: nat -> Decoded, modem: map<Place, nat>, forwarding: bool, blocked: set<string>,
                      es: seq<Event>, k: nat, p: Place)
    requires k <= |es|
    requires p in Run(decode, Booted(modem, forwarding, blocked, {}, {}), es[..k]).modem
    ensures var start := Booted(modem, forwarding, blocked, {}, {});
      var mid, end := Run(decode, start, es[..k]), Run(decode, start, es);
      Remains(mid.modem, end.modem, p) || Settled(decode, end.delivered + end.dropped, mid.modem[p])
  {
    hide Inv, Run, Booted, Settled, Remains;
    var start := Booted(modem, forwarding, blocked, {}, {});
    BootedOk(decode, modem, forwarding, blocked, {}, {});
    RunInv(decode, start, es[..k]);
    assert es == es[..k] + es[k..];
    RunSplit(decode, start, es[..k], es[k..]);
    RunRemoves(decode, Run(decode, start, es[..k]), es[k..], p);
  }

  /** In every reachable state the ready queue is calls, then messages, then plain
      notifications, both queues keep their bounds, and no storage place is held twice. */
  lemma QueuesKeepShape(decode: nat -> Decoded, modem: map<Place, nat>, forwarding: bool, blocked: set<string>,
                        es: seq<Event>)
    ensures var end := Run(decode, Booted(modem, forwarding, blocked, {}, {}), es);
      && Ranked(end.ready) && |end.ready| <= 8 && |end.pending| <= 4 && |end.groups| <= MAX_GROUPS
      && forall p :: Holders(end, p) <= 1
  {
    hide Run, Booted, GroupsOk, UniqueKeys, ReadyOk, Ranked, PendingOk, DeletionsOk, Holders;
    BootedOk(decode, modem, forwarding, blocked, {}, {});
    RunInv(decode, Booted(modem, forwarding, blocked, {}, {}), es);
  }

  // ---- What may wait, and what may not be pushed out ----

  /** Calls and direct messages exist nowhere else. */
  predicate Unrepeatable(item: Item) {
    item.CallItem? || (item.SmsItem? && item.prepared.slots == [])
  }

  lemma RemovedCount(ready: seq<Item>, i: nat, x: Item)
    requires i < |ready|
    ensures multiset(RemoveAt(ready, i))[x] == multiset(ready)[x] - if ready[i] == x then 1 else 0
  {
    assert ready == ready[..i] + [ready[i]] + ready[i + 1..];
  }

  lemma InsertedCount(ready: seq<Item>, i: nat, item: Item, x: Item)
    requires i <= |ready|
    ensures multiset(InsertAt(ready, i, item))[x] >= multiset(ready)[x]
  {
    assert ready == ready[..i] + ready[i..];
  }

  /** Making room never pushes out a call or a message that is not in the modem. */
  lemma ReserveSpares(ready: seq<Item>, x: Item)
    requires Unrepeatable(x)
    ensures multiset(ReserveCritical(ready))[x] == multiset(ready)[x]
    ensures multiset(ReserveEphemeral(ready))[x] == multiset(ready)[x]
  {
    hide RemoveAt;
    var i := LastPosition(ready, IsPlain);
    if i < |ready| { RemovedCount(ready, i, x); }
    var r := ReserveCritical(ready);
    var k := LastPosition(r, HoldsSlots);
    if k < |r| { RemovedCount(r, k, x); }
  }

  lemma PreparedSpares(decode: nat -> Decoded, st: State, content: nat, slot: Option<StorageSlot>, now: nat, x: Item)
    ensures multiset(PrepareAndQueue(decode, st, content, slot, now).ready)[x] >= multiset(st.ready)[x]
  {
    hide Prepare, InsertAt;
    InsertedCount(st.ready, Position(st.ready, IsPlain), x, x);
    var p := Prepare(decode, st.groups, content, slot, now).1;
    if p.Ready? { InsertedCount(st.ready, Position(st.ready, IsPlain), SmsItem(p.prepared), x); }
  }

  /** A waiting call or direct message leaves the ready queue only towards Telegram. */
  lemma UnrepeatableStays(decode: nat -> Decoded, st: State, e: Event, x: Item)
    requires Inv(decode, st) && Unrepeatable(x) && !e.Dispatch? && !e.Reboot?
    ensures multiset(Step(decode, st, e).ready)[x] >= multiset(st.ready)[x]
  {
    hide PrepareAndQueue, TakeReceipts, TryDelete, Inv, ReserveCritical, ReserveEphemeral, Holding, Count;
    ReserveSpares(st.ready, x);
    match e {
      case Receipts => TakeReceiptsOk(decode, st, 0);
      case DeleteFront(how) => assert TryDelete(st, how).ready == st.ready by { DeleteFrame(st, how); }
      case DirectSms(content, now) =>
        PreparedSpares(decode, st.(ready := ReserveEphemeral(st.ready)), content, None, now, x);
      case ReadStored(place, now) =>
        if place in st.modem {
          PreparedSpares(decode, st.(ready := ReserveCritical(st.ready)), st.modem[place],
                         Some(SlotAt(place, st.modem[place])), now, x);
        }
      case _ =>
    }
  }

  lemma DeleteFrame(st: State, how: DeleteTry)
    ensures TryDelete(st, how).ready == st.ready
  {}

  function AllWaiting(items: seq<Item>): (pending: seq<PendingItem>)
    ensures |pending| == |items|
  {
    seq(|items|, i requires 0 <= i < |items| => PendingItem(items[i], Waiting))
  }

  /** Dispatching sends from the front, in order, as many as fit. */
  lemma {:induction false} DispatchTakesFront(st: State, room: nat)
    requires |st.deletions| < MAX_PENDING_DELETIONS && |st.pending| <= MAX_PENDING
    ensures var k: nat := Min(Min(room, MAX_PENDING - |st.pending|), |st.ready|);
      DispatchReady(st, room) == st.(ready := st.ready[k..], pending := st.pending + AllWaiting(st.ready[..k]))
    decreases room
  {
    hide RemoveAt, AllWaiting, NotSms;
    if room == 0 || |st.pending| >= MAX_PENDING || st.ready == [] {
      NoneTaken(st);
    } else {
      var k: nat := Min(Min(room, MAX_PENDING - |st.pending|), |st.ready|);
      RemoveFirst(st.ready);
      DispatchTakesFront(Moved(st, 0), room - 1);
      FrontSplit(st.ready, st.pending, k);
    }
  }

  lemma NoneTaken(st: State)
    ensures st.ready[0..] == st.ready && st.pending + AllWaiting(st.ready[..0]) == st.pending
  {}

  lemma RemoveFirst(ready: seq<Item>)
    requires ready != []
    ensures RemoveAt(ready, 0) == ready[1..]
  {}

  lemma FrontSplit(ready: seq<Item>, pending: seq<PendingItem>, k: nat)
    requires 1 <= k <= |ready|
    ensures ready[1..][k - 1..] == ready[k..]
    ensures pending + [PendingItem(ready[0], Waiting)] + AllWaiting(ready[1..][..k - 1])
         == pending + AllWaiting(ready[..k])
  {}

  function IsSms(item: Item): bool { item.SmsItem? }

  /** With 32 deletions due no message is sent, whatever else is. */
  lemma {:induction false} DispatchHoldsMessages(st: State, room: nat)
    requires |st.deletions| >= MAX_PENDING_DELETIONS
    ensures Keep(DispatchReady(st, room).ready, IsSms) == Keep(st.ready, IsSms)
    decreases room
  {
    hide RemoveAt, Keep;
    if room > 0 && |st.pending| < MAX_PENDING {
      var i := Position(st.ready, NotSms);
      if i < |st.ready| {
        KeepRemove(st.ready, i, IsSms);
        DispatchHoldsMessages(Moved(st, i), room - 1);
      }
    }
  }
}
