/** Delivery of received messages: from modem storage through reassembly, the ready queue,
    Telegram and the deletion queue, back to the modem slot that is finally erased.  Each
    event is one section of the main loop or one thing its surroundings do. */
module Delivery {
  import opened Common
  import opened Concat

  const MAX_READY: nat := 8
  const MAX_PENDING: nat := 4
  const MAX_PENDING_DELETIONS: nat := 32

  datatype Place = Place(mem: string, index: nat)

  datatype Sms = Sms(sender: string, body: string, timestamp: string)

  /** What the content behind a fingerprint decodes to. */
  datatype Decoded = Whole(sms: Sms) | Piece(part: Part) | Malformed

  datatype Prepared = Prepared(sms: Sms, slots: seq<StorageSlot>)

  datatype Preparation = Retained | Consumed(slots: seq<StorageSlot>) | Ready(prepared: Prepared)

  datatype Item = SmsItem(prepared: Prepared) | CallItem(text: string) | PlainItem(text: string)

  datatype Reply = Waiting | Sent | Failed

  datatype PendingItem = PendingItem(item: Item, reply: Reply)

  /** `delivered` and `dropped` are history: what Telegram gave a message id for, and what was
      dropped because forwarding was paused or the sender blocked. */
  datatype State = State(groups: seq<Group>, ready: seq<Item>, pending: seq<PendingItem>, deletions: seq<StorageSlot>,
                         modem: map<Place, nat>, forwarding: bool, blocked: set<string>,
                         delivered: set<Sms>, dropped: set<Sms>)

  /** What becomes of one attempt on the front of the deletion queue. */
  datatype DeleteTry = NotDue | ReadFailed | Erased | EraseFailed(gone: bool)

  datatype Event =
    | Arrive(place: Place, content: nat)
    | TelegramReplies(i: nat, ok: bool)
    | SetForwarding(on: bool)
    | SetBlocked(senders: set<string>)
    | Receipts
    | DeleteFront(how: DeleteTry)
    | Notify(text: string)
    | IncomingCall(text: string)
    | DirectSms(content: nat, now: nat)
    | ReadStored(place: Place, now: nat)
    | SweepListed
    | Dispatch(room: nat)
    | Reboot(forwarding: bool)

  function PlaceOf(s: StorageSlot): Place {
    Place(s.mem, s.index)
  }

  function SlotAt(p: Place, content: nat): StorageSlot {
    StorageSlot(p.mem, p.index, content)
  }

  // ---- Who holds a place ----

  function Count(slots: seq<StorageSlot>, p: Place): nat {
    if slots == [] then 0 else (if PlaceOf(slots[0]) == p then 1 else 0) + Count(slots[1..], p)
  }

  function Holding<T>(xs: seq<T>, slotsOf: T -> seq<StorageSlot>, p: Place): nat {
    if xs == [] then 0 else Count(slotsOf(xs[0]), p) + Holding(xs[1..], slotsOf, p)
  }

  function GroupSlots(g: Group): seq<StorageSlot> {
    g.slots
  }

  function ItemSlots(item: Item): seq<StorageSlot> {
    if item.SmsItem? then item.prepared.slots else []
  }

  function PendingSlots(x: PendingItem): seq<StorageSlot> {
    ItemSlots(x.item)
  }

  /** How many times place `p` is held: in groups, ready, pending and deletions. */
  function Holders(st: State, p: Place): nat {
    Holding(st.groups, GroupSlots, p) + Holding(st.ready, ItemSlots, p)
    + Holding(st.pending, PendingSlots, p) + Count(st.deletions, p)
  }

  // ---- The ready queue ----

  function LastPosition<T>(xs: seq<T>, f: T -> bool): (i: nat)
    ensures i <= |xs|
    ensures i < |xs| ==> f(xs[i])
    ensures i == |xs| ==> forall j :: 0 <= j < |xs| ==> !f(xs[j])
    ensures forall j :: i < j < |xs| ==> !f(xs[j])
  {
    if xs == [] then 0
    else
      var n := |xs| - 1;
      if f(xs[n]) then n
      else
        var i := LastPosition(xs[..n], f);
        if i == n then |xs| else i
  }

  function IsPlain(item: Item): bool { item.PlainItem? }

  function NotSms(item: Item): bool { !item.SmsItem? }

  function HoldsSlots(item: Item): bool { ItemSlots(item) != [] }

  function RemoveLast<T>(xs: seq<T>, f: T -> bool): seq<T> {
    var i := LastPosition(xs, f);
    if i < |xs| then RemoveAt(xs, i) else xs
  }

  /** Makes room by dropping the newest plain notification. */
  function ReserveCritical(ready: seq<Item>): seq<Item> {
    if |ready| >= MAX_READY then RemoveLast(ready, IsPlain) else ready
  }

  /** ... or else the newest message that is still in the modem. */
  function ReserveEphemeral(ready: seq<Item>): seq<Item> {
    var r := ReserveCritical(ready);
    if |r| < MAX_READY then r else RemoveLast(r, HoldsSlots)
  }

  function InsertAt<T>(xs: seq<T>, i: nat, x: T): seq<T>
    requires i <= |xs|
  {
    xs[..i] + [x] + xs[i..]
  }

  function QueueSms(ready: seq<Item>, p: Prepared): seq<Item> {
    InsertAt(ready, Position(ready, IsPlain), SmsItem(p))
  }

  function QueuePlain(ready: seq<Item>, text: string): seq<Item> {
    if |ready| >= MAX_READY then ready else ready + [PlainItem(text)]
  }

  // ---- Preparing a message ----

  function Prepare(decode: nat -> Decoded, groups: seq<Group>, content: nat, slot: Option<StorageSlot>, now: nat)
    : (seq<Group>, Preparation)
  {
    match decode(content)
    case Malformed => (groups, Retained)
    case Whole(sms) => (groups, Ready(Prepared(sms, if slot.Some? then [slot.value] else [])))
    case Piece(part) =>
      var (table, out) := Feed(groups, part, slot, now);
      (table, match out
              case Complete(m) => Ready(Prepared(Sms(m.sender, m.content, m.timestamp), m.slots))
              case Incomplete => if slot.Some? then Retained else Consumed([])
              case Invalid => Retained)
  }

  function QueuePreparation(st: State, p: Preparation): State {
    match p
    case Retained => st
    case Consumed(slots) => st.(deletions := st.deletions + slots)
    case Ready(prepared) =>
      if !st.forwarding || prepared.sms.sender in st.blocked then
        st.(deletions := st.deletions + prepared.slots, dropped := st.dropped + {prepared.sms})
      else st.(ready := QueueSms(st.ready, prepared))
  }

  function PrepareAndQueue(decode: nat -> Decoded, st: State, content: nat, slot: Option<StorageSlot>,
                           now: nat): State {
    var (groups, p) := Prepare(decode, st.groups, content, slot, now);
    QueuePreparation(st.(groups := groups), p)
  }

  // ---- The sections of the main loop ----

  /** A reply is taken: the last pending item moves into its position. */
  function SwapRemove<T>(xs: seq<T>, i: nat): seq<T>
    requires i < |xs|
  {
    if i == |xs| - 1 then xs[..i] else xs[..|xs| - 1][i := xs[|xs| - 1]]
  }

  function TakeReceipt(st: State, i: nat): State
    requires i < |st.pending|
  {
    var x := st.pending[i];
    st.(pending := SwapRemove(st.pending, i),
        deletions := if x.reply.Sent? then st.deletions + PendingSlots(x) else st.deletions)
  }

  function TakeReceipts(st: State, i: nat): State
    decreases |st.pending| - i
  {
    if i >= |st.pending| then st
    else if st.pending[i].reply.Waiting? then TakeReceipts(st, i + 1)
    else TakeReceipts(TakeReceipt(st, i), i)
  }

  function TryDelete(st: State, how: DeleteTry): State {
    if st.deletions == [] then st
    else
      var d := st.deletions[0];
      var requeued := st.(deletions := st.deletions[1..] + [d]);
      var done := st.(deletions := st.deletions[1..]);
      if how.NotDue? || how.ReadFailed? || PlaceOf(d) !in st.modem then requeued
      else if st.modem[PlaceOf(d)] != d.fingerprint then done
      else if how.Erased? then done.(modem := st.modem - {PlaceOf(d)})
      else if how.gone then requeued.(modem := st.modem - {PlaceOf(d)})
      else requeued
  }

  function Stored(st: State, place: Place, now: nat, decode: nat -> Decoded): State {
    if place !in st.modem || Holding(st.ready, ItemSlots, place) > 0 || Holding(st.pending, PendingSlots, place) > 0
       || Count(st.deletions, place) > 0 then st
    else
      var reserved := st.(ready := ReserveCritical(st.ready));
      if |reserved.ready| >= MAX_READY then reserved
      else PrepareAndQueue(decode, reserved, st.modem[place], Some(SlotAt(place, st.modem[place])), now)
  }

  /** Deletions of ME slots that a complete listing no longer shows are given up. */
  function RetainListed(deletions: seq<StorageSlot>, modem: map<Place, nat>): seq<StorageSlot> {
    if deletions == [] then []
    else (if deletions[0].mem != "ME" || PlaceOf(deletions[0]) in modem then [deletions[0]] else [])
         + RetainListed(deletions[1..], modem)
  }

  /** Sends while the worker accepts; new messages wait while too many deletions are due. */
  function DispatchReady(st: State, room: nat): State
    decreases room
  {
    if room == 0 || |st.pending| >= MAX_PENDING then st
    else
      var i := if |st.deletions| >= MAX_PENDING_DELETIONS then Position(st.ready, NotSms) else 0;
      if i >= |st.ready| then st
      else
        DispatchReady(st.(ready := RemoveAt(st.ready, i),
                          pending := st.pending + [PendingItem(st.ready[i], Waiting)]), room - 1)
  }

  function Booted(modem: map<Place, nat>, forwarding: bool, blocked: set<string>, delivered: set<Sms>,
                  dropped: set<Sms>): State {
    State([], [], [], [], modem, forwarding, blocked, delivered, dropped)
  }

  function Step(decode: nat -> Decoded, st: State, e: Event): State {
    match e
    case Arrive(place, content) =>
      if place in st.modem then st else st.(modem := st.modem[place := content])
    case TelegramReplies(i, ok) =>
      if i < |st.pending| && st.pending[i].reply.Waiting? then
        var x := st.pending[i];
        st.(pending := st.pending[i := x.(reply := if ok then Sent else Failed)],
            delivered := if ok && x.item.SmsItem? then st.delivered + {x.item.prepared.sms} else st.delivered)
      else st
    case SetForwarding(on) => st.(forwarding := on)
    case SetBlocked(senders) => st.(blocked := senders)
    case Receipts => TakeReceipts(st, 0)
    case DeleteFront(how) => TryDelete(st, how)
    case Notify(text) => st.(ready := QueuePlain(st.ready, text))
    case IncomingCall(text) =>
      var r := ReserveEphemeral(st.ready);
      st.(ready := if |r| < MAX_READY then [CallItem(text)] + r else r)
    case DirectSms(content, now) =>
      var r := ReserveEphemeral(st.ready);
      if |r| < MAX_READY then PrepareAndQueue(decode, st.(ready := r), content, None, now) else st.(ready := r)
    case ReadStored(place, now) => Stored(st, place, now, decode)
    case SweepListed => st.(deletions := RetainListed(st.deletions, st.modem))
    case Dispatch(room) => DispatchReady(st, room)
    case Reboot(forwarding) => Booted(st.modem, forwarding, st.blocked, st.delivered, st.dropped)
  }

  function Run(decode: nat -> Decoded, st: State, es: seq<Event>): State
    decreases |es|
  {
    if es == [] then st else Run(decode, Step(decode, st, es[0]), es[1..])
  }
}
