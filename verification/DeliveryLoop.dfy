/** The main loop's own queues and the sections that work on them, each proved to do what the
    corresponding event of `Delivery` says. */
module DeliveryLoop {
  import opened Common
  import opened Concat
  import opened Delivery
  import opened DeliverySafety

  /** Whether some slot in the list is at `p`. */
  method MentionsPlace(slots: seq<StorageSlot>, p: Place) returns (found: bool)
    ensures found == (Count(slots, p) > 0)
  {
    var k := 0;
    while k < |slots| && PlaceOf(slots[k]) != p
      invariant k <= |slots| && Count(slots[k..], p) == Count(slots, p)
    {
      k := k + 1;
    }
    return k < |slots|;
  }

  method ItemsMention(items: seq<Item>, p: Place) returns (found: bool)
    ensures found == (Holding(items, ItemSlots, p) > 0)
  {
    hide Count;
    for k := 0 to |items|
      invariant Holding(items[k..], ItemSlots, p) == Holding(items, ItemSlots, p)
    {
      assert items[k..][1..] == items[k + 1..];
      if items[k].SmsItem? {
        var here := MentionsPlace(items[k].prepared.slots, p);
        if here {
          return true;
        }
      } else {
        CountElsewhere([], p);
      }
    }
    return false;
  }

  lemma {:induction false} HoldingItems(pending: seq<PendingItem>, items: seq<Item>, p: Place)
    requires |items| == |pending| && forall i :: 0 <= i < |items| ==> items[i] == pending[i].item
    ensures Holding(items, ItemSlots, p) == Holding(pending, PendingSlots, p)
  {
    if items != [] { HoldingItems(pending[1..], items[1..], p); }
  }

  lemma ListedStep(deletions: seq<StorageSlot>, i: nat, modem: map<Place, nat>, kept: seq<StorageSlot>)
    requires i < |deletions|
    ensures kept + RetainListed(deletions[i..], modem)
         == (if deletions[i].mem != "ME" || PlaceOf(deletions[i]) in modem then kept + [deletions[i]] else kept)
            + RetainListed(deletions[i + 1..], modem)
  {
    hide PlaceOf;
    assert deletions[i..][1..] == deletions[i + 1..];
    if deletions[i].mem != "ME" || PlaceOf(deletions[i]) in modem {
      Associate(kept, [deletions[i]], RetainListed(deletions[i + 1..], modem));
    } else {
      assert [] + RetainListed(deletions[i + 1..], modem) == RetainListed(deletions[i + 1..], modem);
    }
  }

  class MainLoop {
    const decode: nat -> Decoded
    const concat: ConcatReassembler
    var ready: seq<Item>
    var pending: seq<PendingItem>
    var deletions: seq<StorageSlot>
    /** What the modem stores, and the persisted settings. */
    var modem: map<Place, nat>
    var forwarding: bool
    var blocked: set<string>
    ghost var delivered: set<Sms>
    ghost var dropped: set<Sms>

    ghost function View(): State
      reads this, concat
    {
      State(concat.groups, ready, pending, deletions, modem, forwarding, blocked, delivered, dropped)
    }

    constructor (decode: nat -> Decoded, modem: map<Place, nat>, forwarding: bool, blocked: set<string>,
                 ghost delivered: set<Sms>, ghost dropped: set<Sms>)
      ensures fresh(concat) && this.decode == decode
      ensures View() == Booted(modem, forwarding, blocked, delivered, dropped)
    {
      this.decode := decode;
      concat := new ConcatReassembler();
      ready, pending, deletions := [], [], [];
      this.modem, this.forwarding, this.blocked := modem, forwarding, blocked;
      this.delivered, this.dropped := delivered, dropped;
    }

    method ReserveCriticalSlot() returns (free: bool)
      modifies this`ready
      ensures ready == ReserveCritical(old(ready)) && free == (|ready| < MAX_READY)
    {
      if |ready| >= MAX_READY {
        var i := LastIndexOf(IsPlain);
        if i < |ready| {
          ready := RemoveAt(ready, i);
        }
      }
      return |ready| < MAX_READY;
    }

    /** Index of the last item with this property, or the length. */
    method LastIndexOf(wanted: Item -> bool) returns (i: nat)
      ensures i == LastPosition(ready, wanted)
    {
      i := |ready|;
      while i > 0
        invariant i <= |ready|
        invariant forall j :: i <= j < |ready| ==> !wanted(ready[j])
      {
        if wanted(ready[i - 1]) {
          return i - 1;
        }
        i := i - 1;
      }
      return |ready|;
    }

    method FirstIndexOf(wanted: Item -> bool) returns (i: nat)
      ensures i == Position(ready, wanted)
    {
      i := 0;
      while i < |ready| && !wanted(ready[i])
        invariant i <= |ready|
        invariant forall j :: 0 <= j < i ==> !wanted(ready[j])
      {
        i := i + 1;
      }
    }

    method ReserveEphemeralSlot() returns (free: bool)
      modifies this`ready
      ensures ready == ReserveEphemeral(old(ready)) && free == (|ready| < MAX_READY)
    {
      free := ReserveCriticalSlot();
      if free {
        return;
      }
      var i := LastIndexOf(HoldsSlots);
      if i < |ready| {
        ready := RemoveAt(ready, i);
      }
      return |ready| < MAX_READY;
    }

    method SlotInFlight(p: Place) returns (inFlight: bool)
      ensures inFlight == (Holding(ready, ItemSlots, p) > 0 || Holding(pending, PendingSlots, p) > 0)
    {
      hide Holding;
      inFlight := ItemsMention(ready, p);
      if !inFlight {
        var items := seq(|pending|, i requires 0 <= i < |pending| reads this => pending[i].item);
        inFlight := ItemsMention(items, p);
        HoldingItems(pending, items, p);
      }
    }

    method DeletionPending(p: Place) returns (due: bool)
      ensures due == (Count(deletions, p) > 0)
    {
      due := MentionsPlace(deletions, p);
    }

    method QueuePlainNotification(text: string)
      modifies this`ready
      ensures View() == old(View()).(ready := QueuePlain(old(ready), text))
    {
      if |ready| < MAX_READY {
        ready := ready + [PlainItem(text)];
      }
    }

    method PrepareSms(content: nat, slot: Option<StorageSlot>, now: nat) returns (p: Preparation)
      modifies concat
      ensures (concat.groups, p) == Prepare(decode, old(concat.groups), content, slot, now)
    {
      hide Feed;
      match decode(content) {
        case Malformed => return Retained;
        case Whole(sms) => return Ready(Prepared(sms, if slot.Some? then [slot.value] else []));
        case Piece(part) =>
          var out := concat.FeedWithSlot(part, slot, now);
          match out {
            case Complete(m) => return Ready(Prepared(Sms(m.sender, m.content, m.timestamp), m.slots));
            case Incomplete => return if slot.Some? then Retained else Consumed([]);
            case Invalid => return Retained;
          }
      }
    }

    method QueueSmsPreparation(p: Preparation)
      modifies this
      ensures View() == QueuePreparation(old(View()), p)
    {
      match p {
        case Retained =>
        case Consumed(slots) => deletions := deletions + slots;
        case Ready(prepared) =>
          if !forwarding || prepared.sms.sender in blocked {
            dropped := dropped + {prepared.sms};
            deletions := deletions + prepared.slots;
          } else {
            var priorityEnd := FirstIndexOf(IsPlain);
            ready := InsertAt(ready, priorityEnd, SmsItem(prepared));
          }
      }
    }

    method ReceiveDirectSms(content: nat, now: nat)
      modifies this, concat
      ensures View() == Step(decode, old(View()), DirectSms(content, now))
    {
      hide ReserveEphemeral, Prepare, QueuePreparation;
      var free := ReserveEphemeralSlot();
      if free {
        var p := PrepareSms(content, None, now);
        QueueSmsPreparation(p);
      }
    }

    method ReceiveCall(text: string)
      modifies this
      ensures View() == Step(decode, old(View()), IncomingCall(text))
    {
      hide ReserveEphemeral;
      var free := ReserveEphemeralSlot();
      if free {
        ready := [CallItem(text)] + ready;
      }
    }

    /** Reads one stored message, unless it is already on its way. */
    method ReadStoredSms(p: Place, now: nat)
      modifies this, concat
      ensures View() == Step(decode, old(View()), ReadStored(p, now))
    {
      hide ReserveCritical, Prepare, QueuePreparation, Holding, Count;
      if p !in modem {
        return;
      }
      var content := modem[p];
      var inFlight := SlotInFlight(p);
      if inFlight {
        return;
      }
      var due := DeletionPending(p);
      if due {
        return;
      }
      var free := ReserveCriticalSlot();
      if free {
        var preparation := PrepareSms(content, Some(SlotAt(p, content)), now);
        QueueSmsPreparation(preparation);
      }
    }

    /** Takes every reply that has arrived. */
    method ProcessReceipts()
      modifies this`pending, this`deletions
      ensures View() == Step(decode, old(View()), Receipts)
    {
      hide TakeReceipt;
      var index := 0;
      while index < |pending|
        invariant TakeReceipts(View(), index) == TakeReceipts(old(View()), 0)
        decreases |pending| - index
      {
        if pending[index].reply.Waiting? {
          index := index + 1;
        } else {
          ghost var before := View();
          FinishReceipt(index);
          ReceiptShrinks(before, index);
        }
      }
    }

    lemma ReceiptShrinks(st: State, i: nat)
      requires i < |st.pending|
      ensures |TakeReceipt(st, i).pending| == |st.pending| - 1
    {}

    method FinishReceipt(i: nat)
      requires i < |pending|
      modifies this`pending, this`deletions
      ensures View() == TakeReceipt(old(View()), i)
    {
      var completed := pending[i];
      var last := |pending| - 1;
      pending := if i == last then pending[..last] else pending[..last][i := pending[last]];
      if completed.reply.Sent? && completed.item.SmsItem? {
        deletions := deletions + completed.item.prepared.slots;
      } else {
        assert deletions + [] == deletions;
      }
    }

    /** One attempt on the oldest due deletion, verified against what the slot holds now. */
    method TryFrontDeletion(how: DeleteTry)
      modifies this`deletions, this`modem
      ensures View() == Step(decode, old(View()), DeleteFront(how))
    {
      if deletions == [] {
        return;
      }
      var d := deletions[0];
      deletions := deletions[1..];
      var consumed := false;
      if !how.NotDue? {
        consumed := DeleteVerified(d, how);
      }
      if !consumed {
        deletions := deletions + [d];
      }
    }

    /** Erases the slot if it still holds the expected content; false asks for a retry. */
    method DeleteVerified(expected: StorageSlot, how: DeleteTry) returns (consumed: bool)
      requires !how.NotDue?
      modifies this`modem
      ensures var p, was := PlaceOf(expected), old(modem);
        var same := !how.ReadFailed? && p in was && was[p] == expected.fingerprint;
        && consumed == (!how.ReadFailed? && p in was && (was[p] != expected.fingerprint || how.Erased?))
        && modem == if same && (how.Erased? || how.gone) then was - {p} else was
    {
      var p := PlaceOf(expected);
      if how.ReadFailed? || p !in modem {
        return false;
      }
      if modem[p] != expected.fingerprint {
        return true;
      }
      if how.Erased? || how.gone {
        modem := modem - {p};
      }
      return how.Erased?;
    }

    /** Hands notifications to the Telegram worker while it has room. */
    method DispatchReadyNotifications(room: nat)
      modifies this`ready, this`pending
      ensures View() == Step(decode, old(View()), Dispatch(room))
    {
      hide RemoveAt, Position;
      var left := room;
      while left > 0 && |pending| < MAX_PENDING
        invariant DispatchReady(View(), left) == DispatchReady(old(View()), room)
        invariant deletions == old(deletions)
      {
        var i := 0;
        if |deletions| >= MAX_PENDING_DELETIONS {
          i := FirstIndexOf(NotSms);
        }
        if i >= |ready| {
          break;
        }
        pending := pending + [PendingItem(ready[i], Waiting)];
        ready := RemoveAt(ready, i);
        left := left - 1;
      }
    }

    /** After a complete listing of ME, gives up deletions of slots that are gone. */
    method ForgetVanished()
      modifies this`deletions
      ensures View() == Step(decode, old(View()), SweepListed)
    {
      var kept := [];
      for i := 0 to |deletions|
        invariant deletions == old(deletions)
        invariant kept + RetainListed(deletions[i..], modem) == RetainListed(old(deletions), modem)
      {
        ListedStep(deletions, i, modem, kept);
        if deletions[i].mem != "ME" || PlaceOf(deletions[i]) in modem {
          kept := kept + [deletions[i]];
        }
      }
      deletions := kept;
    }
  }
}
