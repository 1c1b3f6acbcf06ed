/** What the delivery pipeline gets done: every message that can be queued is queued, every
    reply is taken, and what was delivered leaves the modem. */
module DeliveryProgress {
  import opened Common
  import opened Concat
  import opened Delivery
  import opened DeliverySafety
  import opened DeliveryRuns

  // ---- Receipts ----

  function IsWaiting(x: PendingItem): bool { x.reply.Waiting? }

  function IsSent(x: PendingItem): bool { x.reply.Sent? }

  function IsFailed(x: PendingItem): bool { x.reply.Failed? }

  /** The slots of the items Telegram acknowledged. */
  function Acknowledged(pending: seq<PendingItem>): seq<StorageSlot> {
    if pending == [] then []
    else (if IsSent(pending[0]) then PendingSlots(pending[0]) else []) + Acknowledged(pending[1..])
  }

  lemma {:induction false} AcknowledgedConcat(a: seq<PendingItem>, b: seq<PendingItem>)
    ensures multiset(Acknowledged(a + b)) == multiset(Acknowledged(a)) + multiset(Acknowledged(b))
  {
    if a == [] {
      assert a + b == b;
    } else {
      assert (a + b)[1..] == a[1..] + b;
      AcknowledgedConcat(a[1..], b);
    }
  }

  function SlotsIfSent(x: PendingItem): seq<StorageSlot> {
    if IsSent(x) then PendingSlots(x) else []
  }

  lemma AcknowledgedOne(x: PendingItem)
    ensures Acknowledged([x]) == SlotsIfSent(x)
  {
    assert [x][1..] == [];
  }

  lemma AcknowledgedSplit(xs: seq<PendingItem>, i: nat)
    requires i < |xs|
    ensures multiset(Acknowledged(xs)) == multiset(Acknowledged(xs[..i])) + multiset(SlotsIfSent(xs[i]))
                                          + multiset(Acknowledged(xs[i + 1..]))
  {
    hide Acknowledged;
    SplitAt(xs, i);
    AcknowledgedConcat(xs[..i], [xs[i]] + xs[i + 1..]);
    AcknowledgedConcat([xs[i]], xs[i + 1..]);
    AcknowledgedOne(xs[i]);
  }

  lemma AcknowledgedUpdate(xs: seq<PendingItem>, i: nat, x: PendingItem)
    requires i < |xs|
    ensures multiset(Acknowledged(xs[i := x])) + multiset(SlotsIfSent(xs[i]))
         == multiset(Acknowledged(xs)) + multiset(SlotsIfSent(x))
  {
    hide Acknowledged;
    AcknowledgedSplit(xs, i);
    AcknowledgedSplit(xs[i := x], i);
    assert xs[i := x][..i] == xs[..i] && xs[i := x][i + 1..] == xs[i + 1..];
  }

  lemma {:induction false} NoneAcknowledged(pending: seq<PendingItem>)
    requires forall j :: 0 <= j < |pending| ==> IsWaiting(pending[j])
    ensures Acknowledged(pending) == []
  {
    if pending != [] { NoneAcknowledged(pending[1..]); }
  }

  lemma AcknowledgedSwap(xs: seq<PendingItem>, i: nat)
    requires i < |xs|
    ensures multiset(Acknowledged(SwapRemove(xs, i))) + multiset(SlotsIfSent(xs[i])) == multiset(Acknowledged(xs))
  {
    hide Acknowledged;
    var n := |xs| - 1;
    AcknowledgedSplit(xs, n);
    NoneAcknowledged(xs[n + 1..]);
    if i < n { AcknowledgedUpdate(xs[..n], i, xs[n]); }
  }

  lemma SwapBag<T>(xs: seq<T>, i: nat)
    requires i < |xs|
    ensures multiset(SwapRemove(xs, i)) + multiset{xs[i]} == multiset(xs)
  {
    var n := |xs| - 1;
    assert xs == xs[..n] + [xs[n]];
    if i < n { assert xs[..n] == xs[..i] + ([xs[i]] + xs[i + 1..n]); }
  }

  /** Everything before `i` is still waiting. */
  ghost predicate WaitingBelow(pending: seq<PendingItem>, i: nat) {
    i <= |pending| && forall j :: 0 <= j < i ==> IsWaiting(pending[j])
  }

  lemma {:induction false} ReceiptsFrom(st: State, i: nat)
    requires WaitingBelow(st.pending, i)
    ensures var after := TakeReceipts(st, i);
      && after == st.(pending := after.pending, deletions := after.deletions)
      && (forall x :: x in after.pending ==> IsWaiting(x))
      && (forall x :: IsWaiting(x) ==> multiset(after.pending)[x] == multiset(st.pending)[x])
      && st.deletions <= after.deletions
      && multiset(after.deletions) == multiset(st.deletions) + multiset(Acknowledged(st.pending))
    decreases |st.pending| - i
  {
    hide SwapRemove, Acknowledged;
    if i < |st.pending| {
      if IsWaiting(st.pending[i]) {
        ReceiptsFrom(st, i + 1);
      } else {
        var next := TakeReceipt(st, i);
        SwapBag(st.pending, i);
        SwapKeepsBelow(st.pending, i);
        AcknowledgedSwap(st.pending, i);
        ReceiptsFrom(next, i);
      }
    } else {
      NoneAcknowledged(st.pending);
    }
  }

  lemma SwapKeepsBelow(pending: seq<PendingItem>, i: nat)
    requires i < |pending| && WaitingBelow(pending, i)
    ensures |SwapRemove(pending, i)| == |pending| - 1 && WaitingBelow(SwapRemove(pending, i), i)
  {}

  /** Taking the receipts leaves exactly the items without a reply, and exactly the slots of
      the acknowledged ones become due for deletion, behind those that already are. */
  lemma ReceiptsTaken(st: State)
    ensures var after := TakeReceipts(st, 0);
      && multiset(after.pending) == multiset(Keep(st.pending, IsWaiting))
      && st.deletions <= after.deletions
      && multiset(after.deletions) == multiset(st.deletions) + multiset(Acknowledged(st.pending))
      && after == st.(pending := after.pending, deletions := after.deletions)
  {
    hide TakeReceipts, Keep, Acknowledged;
    ReceiptsFrom(st, 0);
    var after := TakeReceipts(st, 0);
    forall x: PendingItem ensures multiset(after.pending)[x] == multiset(Keep(st.pending, IsWaiting))[x] {
      KeepBag(st.pending, IsWaiting, x);
      if !IsWaiting(x) { assert x !in after.pending; }
    }
  }

  // ---- Deletions ----

  /** No reboot, and every attempt on a due deletion gets to the modem and clears the slot. */
  predicate Works(e: Event) {
    !e.Reboot? && (e.DeleteFront? ==> e.how == Erased || e.how == EraseFailed(true))
  }

  function Attempts(es: seq<Event>): nat {
    if es == [] then 0 else (if es[0].DeleteFront? then 1 else 0) + Attempts(es[1..])
  }

  lemma {:induction false} DispatchFrame(st: State, room: nat)
    ensures var after := DispatchReady(st, room); after == st.(ready := after.ready, pending := after.pending)
    decreases room
  {
    hide NotSms, RemoveAt;
    if room > 0 && |st.pending| < MAX_PENDING {
      var i := if |st.deletions| >= MAX_PENDING_DELETIONS then Position(st.ready, NotSms) else 0;
      if i < |st.ready| { DispatchFrame(Moved(st, i), room - 1); }
    }
  }

  /** Apart from deleting, sweeping and rebooting, due deletions only gain company behind them. */
  lemma DueKept(decode: nat -> Decoded, st: State, e: Event)
    requires !e.DeleteFront? && !e.SweepListed? && !e.Reboot?
    ensures st.deletions <= Step(decode, st, e).deletions
  {
    hide TakeReceipts, DispatchReady, Prepare, Holding, Count, ReserveCritical, ReserveEphemeral, QueueSms,
         TryDelete, RetainListed, Acknowledged, Keep;
    match e {
      case Receipts => ReceiptsTaken(st);
      case Dispatch(room) => DispatchFrame(st, room);
      case _ =>
    }
  }

  /** A place is filled only by what arrives there. */
  lemma ModemGains(decode: nat -> Decoded, st: State, e: Event, s: StorageSlot)
    requires !InModem(st.modem, s) && e != Arrive(PlaceOf(s), s.fingerprint)
    ensures !InModem(Step(decode, st, e).modem, s)
  {
    hide TakeReceipts, DispatchReady, Prepare, Holding, Count, ReserveCritical, ReserveEphemeral, QueueSms,
         RetainListed, Acknowledged, Keep;
    match e {
      case Receipts => ReceiptsTaken(st);
      case Dispatch(room) => DispatchFrame(st, room);
      case _ =>
    }
  }

  /** A complete listing gives up no slot that still shows. */
  lemma {:induction false} ListedKept(deletions: seq<StorageSlot>, modem: map<Place, nat>, i: nat) returns (j: nat)
    requires i < |deletions| && PlaceOf(deletions[i]) in modem
    ensures j <= i && j < |RetainListed(deletions, modem)| && RetainListed(deletions, modem)[j] == deletions[i]
  {
    if i == 0 {
      j := 0;
    } else {
      j := ListedKept(deletions[1..], modem, i - 1);
      if deletions[0].mem != "ME" || PlaceOf(deletions[0]) in modem { j := j + 1; }
    }
  }

  /** Each event leaves a due slot in the queue, no further back, or out of the modem; and each
      attempt brings it one place closer. */
  lemma DueAdvances(decode: nat -> Decoded, st: State, e: Event, i: nat) returns (j: nat)
    requires i < |st.deletions| && Works(e)
    ensures var after, s := Step(decode, st, e), st.deletions[i];
      !InModem(after.modem, s)
      || (j < |after.deletions| && after.deletions[j] == s && j <= if e.DeleteFront? then i - 1 else i)
  {
    hide Stored, TakeReceipts, DispatchReady, PrepareAndQueue, RetainListed;
    j := i;
    if !InModem(st.modem, st.deletions[i]) {
      if e != Arrive(PlaceOf(st.deletions[i]), st.deletions[i].fingerprint) {
        ModemGains(decode, st, e, st.deletions[i]);
      }
    } else if e.DeleteFront? {
      if i > 0 { j := i - 1; }
    } else if e.SweepListed? {
      j := ListedKept(st.deletions, st.modem, i);
    } else {
      DueKept(decode, st, e);
    }
  }

  /** A slot due for deletion, at position `i`, is erased within `i + 1` working attempts,
      whatever else happens between them; and it stays out unless its content is stored anew. */
  lemma {:induction false} DueIsErased(decode: nat -> Decoded, st: State, es: seq<Event>, i: nat)
    requires i < |st.deletions| && Attempts(es) > i && (forall e :: e in es ==> Works(e))
    requires Arrive(PlaceOf(st.deletions[i]), st.deletions[i].fingerprint) !in es
    ensures !InModem(Run(decode, st, es).modem, st.deletions[i])
    decreases |es|
  {
    hide Step, InModem, Works;
    var s, next := st.deletions[i], Step(decode, st, es[0]);
    assert Works(es[0]) && es[0] != Arrive(PlaceOf(s), s.fingerprint);
    var j := DueAdvances(decode, st, es[0], i);
    if InModem(next.modem, s) {
      DueIsErased(decode, next, es[1..], j);
    } else {
      StaysErased(decode, next, es[1..], s);
    }
  }

  lemma {:induction false} StaysErased(decode: nat -> Decoded, st: State, es: seq<Event>, s: StorageSlot)
    requires !InModem(st.modem, s) && Arrive(PlaceOf(s), s.fingerprint) !in es
    ensures !InModem(Run(decode, st, es).modem, s)
    decreases |es|
  {
    hide Step, InModem;
    if es != [] {
      ModemGains(decode, st, es[0], s);
      StaysErased(decode, Step(decode, st, es[0]), es[1..], s);
    }
  }

  /** A slot that is due and still in the modem is given up by nothing short of a reboot. */
  lemma DueStays(decode: nat -> Decoded, st: State, e: Event, s: StorageSlot)
    requires s in st.deletions && InModem(st.modem, s) && !e.Reboot?
    ensures var after := Step(decode, st, e); s in after.deletions || !InModem(after.modem, s)
  {
    hide Stored, TakeReceipts, DispatchReady, PrepareAndQueue, RetainListed;
    var i :| 0 <= i < |st.deletions| && st.deletions[i] == s;
    if e.SweepListed? {
      var j := ListedKept(st.deletions, st.modem, i);
    } else if !e.DeleteFront? {
      DueKept(decode, st, e);
    }
  }

  /** The modem answered the attempt, and there is nothing left to erase: it just erased the
      content, or it holds other content there. */
  predicate Settles(st: State, d: StorageSlot, how: DeleteTry) {
    PlaceOf(d) in st.modem
    && if InModem(st.modem, d) then how.Erased? else how.Erased? || how.EraseFailed?
  }

  /** An attempt ends a due deletion exactly then; else it is tried again behind the others. */
  lemma GivenUpExactly(st: State, how: DeleteTry)
    requires st.deletions != []
    ensures var d, after := st.deletions[0], TryDelete(st, how);
      after.deletions == st.deletions[1..] + if Settles(st, d, how) then [] else [d]
  {}

  /** The modem without the content these slots name. */
  function Cleared(modem: map<Place, nat>, slots: seq<StorageSlot>): map<Place, nat> {
    map p | p in modem && SlotAt(p, modem[p]) !in slots :: modem[p]
  }

  /** Slots the modem no longer shows. */
  function GoneFrom(modem: map<Place, nat>): StorageSlot -> bool {
    s => PlaceOf(s) !in modem
  }

  function Erasures(n: nat): seq<Event> {
    seq(n, _ => DeleteFront(Erased))
  }

  /** The queue behind its front does not name the front's place. */
  lemma FrontIsAlone(slots: seq<StorageSlot>, i: nat)
    requires 0 < i < |slots| && Count(slots, PlaceOf(slots[0])) <= 1
    ensures PlaceOf(slots[i]) != PlaceOf(slots[0])
  {
    if PlaceOf(slots[i]) == PlaceOf(slots[0]) { CountMember(slots[1..], slots[i]); }
  }

  /** One attempt that works: the front is cleared; it goes to the back if its place is empty,
      and is done with otherwise. */
  lemma EraseOne(st: State)
    requires st.deletions != []
    ensures TryDelete(st, Erased) == st.(
        modem := Cleared(st.modem, st.deletions[..1]),
        deletions := st.deletions[1..] + Keep(st.deletions[..1], GoneFrom(st.modem)))
  {
    var d := st.deletions[0];
    assert st.deletions[..1] == [d] && [d][1..] == [];
    if !InModem(st.modem, d) {
      assert Cleared(st.modem, [d]) == st.modem;
    } else {
      assert Cleared(st.modem, [d]) == st.modem - {PlaceOf(d)};
    }
    assert st.deletions[1..] + [] == st.deletions[1..];
  }

  lemma ClearedTwice(modem: map<Place, nat>, slots: seq<StorageSlot>)
    requires slots != []
    ensures Cleared(Cleared(modem, slots[..1]), slots[1..]) == Cleared(modem, slots)
  {
    assert slots == slots[..1] + slots[1..];
  }

  lemma CountTail(slots: seq<StorageSlot>, p: Place)
    requires slots != []
    ensures Count(slots[1..], p) <= Count(slots, p)
  {}

  /** Clearing the front's place changes nothing for the slots behind it. */
  lemma GoneAlike(modem: map<Place, nat>, slots: seq<StorageSlot>)
    requires slots != [] && Count(slots, PlaceOf(slots[0])) <= 1
    ensures Keep(slots[1..], GoneFrom(Cleared(modem, slots[..1]))) == Keep(slots[1..], GoneFrom(modem))
  {
    hide Keep, Count;
    var now := Cleared(modem, slots[..1]);
    forall i | 0 <= i < |slots[1..]| ensures GoneFrom(now)(slots[1..][i]) == GoneFrom(modem)(slots[1..][i]) {
      FrontIsAlone(slots, i + 1);
    }
    KeepSame(slots[1..], GoneFrom(now), GoneFrom(modem));
  }

  /** `n` attempts that work, on a queue that names no place twice among the first `n`. */
  lemma {:induction false} EraseSome(decode: nat -> Decoded, st: State, n: nat)
    requires n <= |st.deletions| && forall p :: Count(st.deletions[..n], p) <= 1
    ensures Run(decode, st, Erasures(n)) == st.(
        modem := Cleared(st.modem, st.deletions[..n]),
        deletions := st.deletions[n..] + Keep(st.deletions[..n], GoneFrom(st.modem)))
    decreases n
  {
    hide TryDelete, Keep, Count;
    var slots := st.deletions[..n];
    if n == 0 {
      assert Cleared(st.modem, []) == st.modem;
      NothingKept(st);
    } else {
      var next, front := TryDelete(st, Erased), Keep(slots[..1], GoneFrom(st.modem));
      assert slots[..1] == st.deletions[..1];
      EraseOne(st);
      assert next.deletions[..n - 1] == slots[1..] && next.deletions[n - 1..] == st.deletions[n..] + front;
      forall p ensures Count(slots[1..], p) <= 1 {
        assert Count(slots, p) <= 1;
        CountTail(slots, p);
      }
      assert Erasures(n)[1..] == Erasures(n - 1) && Erasures(n)[0] == DeleteFront(Erased);
      EraseSome(decode, next, n - 1);
      ClearedTwice(st.modem, slots);
      assert Count(slots, PlaceOf(slots[0])) <= 1;
      GoneAlike(st.modem, slots);
      KeepFirst(slots, GoneFrom(st.modem));
      Associate(st.deletions[n..], front, Keep(slots[1..], GoneFrom(st.modem)));
    }
  }

  lemma NothingKept(st: State)
    ensures st.deletions[0..] + Keep(st.deletions[..0], GoneFrom(st.modem)) == st.deletions
  {}

  /** As many attempts as are due clear every slot whose content is still the same, and leave
      due exactly those whose place is empty. */
  lemma EraseAll(decode: nat -> Decoded, st: State)
    requires HeldOnce(st)
    ensures Run(decode, st, Erasures(|st.deletions|)) == st.(
        modem := Cleared(st.modem, st.deletions), deletions := Keep(st.deletions, GoneFrom(st.modem)))
  {
    hide Keep, Run, Cleared;
    var n := |st.deletions|;
    assert st.deletions[..n] == st.deletions;
    forall p ensures Count(st.deletions[..n], p) <= 1 { assert Holders(st, p) <= 1; }
    EraseSome(decode, st, n);
    assert st.deletions[n..] + Keep(st.deletions, GoneFrom(st.modem)) == Keep(st.deletions, GoneFrom(st.modem));
  }

  // ---- Replies ----

  lemma SentIsAcknowledged(pending: seq<PendingItem>, i: nat, s: StorageSlot)
    requires i < |pending| && IsSent(pending[i]) && s in PendingSlots(pending[i])
    ensures s in Acknowledged(pending)
  {
    hide Acknowledged;
    AcknowledgedSplit(pending, i);
    assert s in multiset(SlotsIfSent(pending[i]));
    InBag(Acknowledged(pending), s);
  }

  lemma InBag<T>(xs: seq<T>, x: T)
    requires multiset(xs)[x] > 0
    ensures x in xs
  {
    assert x in multiset(xs);
  }

  lemma RunTwo(decode: nat -> Decoded, st: State, a: Event, b: Event)
    ensures Run(decode, st, [a, b]) == Step(decode, Step(decode, st, a), b)
  {
    hide Step;
    var es := [a, b];
    assert es[1..] == [b] && [b][1..] == [];
    assert Run(decode, st, es) == Run(decode, Step(decode, st, a), [b]);
    assert Run(decode, Step(decode, st, a), [b]) == Step(decode, Step(decode, st, a), b);
  }

  lemma Replied(decode: nat -> Decoded, st: State, i: nat)
    requires i < |st.pending| && st.pending[i].reply.Waiting?
    ensures Step(decode, st, TelegramReplies(i, true)).pending == st.pending[i := st.pending[i].(reply := Sent)]
  {}

  lemma ReceiptsStep(decode: nat -> Decoded, st: State)
    ensures Step(decode, st, Receipts) == TakeReceipts(st, 0)
  {
    hide TakeReceipts;
  }

  /** Once receipts are taken, a message that Telegram acknowledged has all its slots due. */
  lemma ReplyMakesDue(decode: nat -> Decoded, st: State, i: nat, s: StorageSlot)
    requires i < |st.pending| && st.pending[i].reply.Waiting? && s in PendingSlots(st.pending[i])
    ensures s in Run(decode, st, [TelegramReplies(i, true), Receipts]).deletions
  {
    hide TakeReceipts, Acknowledged, Keep, Step;
    var replied := Step(decode, st, TelegramReplies(i, true));
    RunTwo(decode, st, TelegramReplies(i, true), Receipts);
    Replied(decode, st, i);
    ReceiptsTaken(replied);
    ReceiptsStep(decode, replied);
    SentIsAcknowledged(replied.pending, i, s);
    assert s in multiset(Acknowledged(replied.pending));
    InBag(Step(decode, replied, Receipts).deletions, s);
  }

  /** A message that Telegram acknowledges leaves the modem: once its receipt is taken, and as
      many working attempts are made as deletions are due then, none of its slots is left,
      whatever else happens in between. */
  lemma AcknowledgedIsErased(decode: nat -> Decoded, st: State, i: nat, es: seq<Event>, s: StorageSlot)
    requires i < |st.pending| && st.pending[i].reply.Waiting? && s in PendingSlots(st.pending[i])
    requires forall e :: e in es ==> Works(e)
    requires Attempts(es) >= |Run(decode, st, [TelegramReplies(i, true), Receipts]).deletions|
    requires Arrive(PlaceOf(s), s.fingerprint) !in es
    ensures !InModem(Run(decode, st, [TelegramReplies(i, true), Receipts] + es).modem, s)
  {
    hide Run, Step, InModem, Works, Attempts;
    var taken := Run(decode, st, [TelegramReplies(i, true), Receipts]);
    ReplyMakesDue(decode, st, i, s);
    var k :| 0 <= k < |taken.deletions| && taken.deletions[k] == s;
    DueIsErased(decode, taken, es, k);
    RunSplit(decode, st, [TelegramReplies(i, true), Receipts], es);
  }

  /** Two holders of one place among the pending items, or one there and one due, are too many. */
  lemma HeldByOne(pending: seq<PendingItem>, i: nat, j: nat, p: Place)
    requires i < |pending| && j < |pending| && i != j
    requires Count(PendingSlots(pending[i]), p) > 0 && Count(PendingSlots(pending[j]), p) > 0
    ensures Holding(pending, PendingSlots, p) > 1
  {
    hide Holding, Count;
    HoldingRemove(pending, i, PendingSlots, p);
    var rest, k := RemoveAt(pending, i), if j < i then j else j - 1;
    HoldingSplit(rest, k, PendingSlots, p);
  }

  lemma {:induction false} AcknowledgedBy(pending: seq<PendingItem>, s: StorageSlot) returns (j: nat)
    requires s in Acknowledged(pending)
    ensures j < |pending| && IsSent(pending[j]) && s in PendingSlots(pending[j])
  {
    if IsSent(pending[0]) && s in PendingSlots(pending[0]) {
      j := 0;
    } else {
      j := AcknowledgedBy(pending[1..], s);
      j := j + 1;
    }
  }

  /** A message Telegram refused is let go: taking its receipt leaves its slots in the modem,
      held by nothing, so that the next sweep reads them again. */
  lemma RefusedIsReleased(decode: nat -> Decoded, st: State, i: nat, s: StorageSlot)
    requires Inv(decode, st) && i < |st.pending| && s in PendingSlots(st.pending[i]) && IsFailed(st.pending[i])
    ensures var after := TakeReceipts(st, 0); InModem(after.modem, s) && Holders(after, PlaceOf(s)) == 0
  {
    hide TakeReceipts, Acknowledged, Keep, Holding, Count, GroupsOk, UniqueKeys, ReadyOk, Ranked, DeletionsOk, Covers;
    var after, p := TakeReceipts(st, 0), PlaceOf(s);
    ReceiptsFrom(st, 0);
    assert Holders(st, p) <= 1;
    CountMember(PendingSlots(st.pending[i]), s);
    HoldingSplit(st.pending, i, PendingSlots, p);
    forall k | 0 <= k < |after.pending| ensures Count(PendingSlots(after.pending[k]), p) == 0 {
      assert after.pending[k] in after.pending && IsWaiting(after.pending[k]);
      assert after.pending[k] in multiset(st.pending);
      var j :| 0 <= j < |st.pending| && st.pending[j] == after.pending[k];
      if Count(PendingSlots(st.pending[j]), p) > 0 { HeldByOne(st.pending, i, j, p); }
    }
    HoldingNone(after.pending, PendingSlots, p);
    forall k | 0 <= k < |after.deletions| ensures PlaceOf(after.deletions[k]) != p {
      NotDueYet(st, after.deletions, i, k, p);
    }
    CountElsewhere(after.deletions, p);
  }

  lemma NotDueYet(st: State, deletions: seq<StorageSlot>, i: nat, k: nat, p: Place)
    requires i < |st.pending| && Count(PendingSlots(st.pending[i]), p) > 0 && IsFailed(st.pending[i])
    requires Holders(st, p) <= 1 && k < |deletions|
    requires multiset(deletions) == multiset(st.deletions) + multiset(Acknowledged(st.pending))
    ensures PlaceOf(deletions[k]) != p
  {
    hide Holding, Count, Acknowledged;
    var d := deletions[k];
    HoldingSplit(st.pending, i, PendingSlots, p);
    if PlaceOf(d) == p {
      assert d in multiset(deletions);
      if d in st.deletions {
        CountMember(st.deletions, d);
      } else {
        var j := AcknowledgedBy(st.pending, d);
        CountMember(PendingSlots(st.pending[j]), d);
        HeldByOne(st.pending, i, j, p);
      }
    }
  }

  // ---- Queuing ----

  function NotPlain(item: Item): bool { !item.PlainItem? }

  lemma Halves(a: seq<Item>, b: seq<Item>)
    requires (forall i :: 0 <= i < |a| ==> NotPlain(a[i])) && (forall i :: 0 <= i < |b| ==> IsPlain(b[i]))
    ensures Keep(a + b, NotPlain) == a && Keep(a + b, IsPlain) == b
  {
    hide Keep;
    KeepConcat(a, b, NotPlain);
    KeepConcat(a, b, IsPlain);
    KeepAll(a, NotPlain);
    KeepNone(a, IsPlain);
    KeepNone(b, NotPlain);
    KeepAll(b, IsPlain);
  }

  lemma PlainTail(ready: seq<Item>)
    requires Ranked(ready)
    ensures forall j :: Position(ready, IsPlain) <= j < |ready| ==> IsPlain(ready[j])
  {
    var k := Position(ready, IsPlain);
    forall j | k <= j < |ready| ensures IsPlain(ready[j]) {
      assert Rank(ready[k]) <= Rank(ready[j]);
    }
  }

  /** A ranked queue is what is not plain, followed by what is. */
  lemma RankedSplit(ready: seq<Item>)
    requires Ranked(ready)
    ensures var k := Position(ready, IsPlain); Keep(ready, NotPlain) == ready[..k] && Keep(ready, IsPlain) == ready[k..]
  {
    hide Keep, Ranked;
    PlainTail(ready);
    var k := Position(ready, IsPlain);
    assert ready == ready[..k] + ready[k..];
    Halves(ready[..k], ready[k..]);
  }

  /** A message goes behind every call and message that waits, before everything plain. */
  lemma QueuedLast(ready: seq<Item>, p: Prepared)
    requires Ranked(ready)
    ensures Keep(QueueSms(ready, p), NotPlain) == Keep(ready, NotPlain) + [SmsItem(p)]
    ensures Keep(QueueSms(ready, p), IsPlain) == Keep(ready, IsPlain)
  {
    hide Keep, Ranked;
    RankedSplit(ready);
    PlainTail(ready);
    var k := Position(ready, IsPlain);
    Halves(ready[..k] + [SmsItem(p)], ready[k..]);
  }

  /** Fewer than eight wait, or something plain can make room. */
  predicate HasRoom(ready: seq<Item>) {
    |ready| < MAX_READY || exists x :: x in ready && IsPlain(x)
  }

  /** Plain notifications left when one item is to be added. */
  function PlainLeft(ready: seq<Item>): seq<Item> {
    var plain := Keep(ready, IsPlain);
    if |ready| < MAX_READY || plain == [] then plain else plain[..|plain| - 1]
  }

  /** In a ranked queue the newest plain notification is the last item. */
  lemma NewestPlainIsLast(ready: seq<Item>)
    requires Ranked(ready) && Position(ready, IsPlain) < |ready|
    ensures LastPosition(ready, IsPlain) == |ready| - 1 && RemoveLast(ready, IsPlain) == ready[..|ready| - 1]
  {
    hide Ranked;
    PlainTail(ready);
  }

  lemma LessLast(ready: seq<Item>)
    requires Ranked(ready) && Position(ready, IsPlain) < |ready|
    ensures var r, plain := ready[..|ready| - 1], Keep(ready, IsPlain);
      Keep(r, NotPlain) == Keep(ready, NotPlain) && plain != [] && Keep(r, IsPlain) == plain[..|plain| - 1]
  {
    hide Keep, Ranked;
    var k, n := Position(ready, IsPlain), |ready| - 1;
    RankedSplit(ready);
    PlainTail(ready);
    assert ready[..n] == ready[..k] + ready[k..n] && ready[k..][..n - k] == ready[k..n];
    Halves(ready[..k], ready[k..n]);
  }

  /** Making room costs at most the newest plain notification, and fails only when no
      notification is plain. */
  lemma RoomMade(ready: seq<Item>)
    requires Ranked(ready) && |ready| <= MAX_READY
    ensures var r := ReserveCritical(ready);
      && Keep(r, NotPlain) == Keep(ready, NotPlain) && Keep(r, IsPlain) == PlainLeft(ready)
      && (|r| < MAX_READY <==> HasRoom(ready)) && |r| <= |ready| && Ranked(r)
  {
    hide Keep, RemoveLast;
    if |ready| >= MAX_READY {
      var k := Position(ready, IsPlain);
      if k < |ready| {
        assert IsPlain(ready[k]) && ready[k] in ready;
        NewestPlainIsLast(ready);
        LessLast(ready);
      } else {
        NothingPlain(ready);
      }
    }
  }

  lemma NothingPlain(ready: seq<Item>)
    requires Position(ready, IsPlain) == |ready|
    ensures RemoveLast(ready, IsPlain) == ready && Keep(ready, IsPlain) == [] && forall x :: x in ready ==> !IsPlain(x)
  {
    KeepNone(ready, IsPlain);
  }

  /** A whole message that is stored, not yet held by anything, is read and queued when there is
      room, behind everything but plain notifications. */
  lemma StoredIsQueued(decode: nat -> Decoded, st: State, place: Place, now: nat)
    requires Inv(decode, st) && place in st.modem && Holders(st, place) == 0 && HasRoom(st.ready)
    requires decode(st.modem[place]).Whole? && st.forwarding && decode(st.modem[place]).sms.sender !in st.blocked
    ensures var after := Step(decode, st, ReadStored(place, now));
      var slot := SlotAt(place, st.modem[place]);
      && Keep(after.ready, NotPlain) == Keep(st.ready, NotPlain)
                                        + [SmsItem(Prepared(decode(st.modem[place]).sms, [slot]))]
      && Keep(after.ready, IsPlain) == PlainLeft(st.ready) && after == st.(ready := after.ready)
  {
    hide Keep, Holding, Count, PlainLeft, ReserveCritical, QueueSms, GroupsOk, UniqueKeys, ReadyOk, PendingOk,
         DeletionsOk, HasRoom, Ranked, HeldOnce;
    RoomMade(st.ready);
    QueuedLast(ReserveCritical(st.ready), Prepared(decode(st.modem[place]).sms, [SlotAt(place, st.modem[place])]));
  }

  /** ... or is dropped, its slot due at once, while forwarding is off or the sender blocked. */
  lemma StoredIsDropped(decode: nat -> Decoded, st: State, place: Place, now: nat)
    requires Inv(decode, st) && place in st.modem && Holders(st, place) == 0 && HasRoom(st.ready)
    requires decode(st.modem[place]).Whole? && (!st.forwarding || decode(st.modem[place]).sms.sender in st.blocked)
    ensures var after := Step(decode, st, ReadStored(place, now));
      && after.deletions == st.deletions + [SlotAt(place, st.modem[place])]
      && after.dropped == st.dropped + {decode(st.modem[place]).sms}
      && Keep(after.ready, NotPlain) == Keep(st.ready, NotPlain) && Keep(after.ready, IsPlain) == PlainLeft(st.ready)
      && after == st.(ready := after.ready, deletions := after.deletions, dropped := after.dropped)
  {
    hide Keep, Holding, Count, PlainLeft, ReserveCritical, QueueSms, GroupsOk, UniqueKeys, ReadyOk, PendingOk,
         DeletionsOk, HasRoom, Ranked, HeldOnce;
    RoomMade(st.ready);
  }

  /** What is held, or finds no room, is left for a later sweep: reading it again is harmless. */
  lemma StoredWaits(decode: nat -> Decoded, st: State, place: Place, now: nat)
    requires Inv(decode, st)
    requires Holding(st.ready, ItemSlots, place) > 0 || Holding(st.pending, PendingSlots, place) > 0
             || Count(st.deletions, place) > 0 || place !in st.modem || !HasRoom(st.ready)
    ensures Step(decode, st, ReadStored(place, now)) == st
  {
    hide Keep, Holding, Count, GroupsOk, UniqueKeys, ReadyOk, PendingOk, DeletionsOk, Ranked, HeldOnce;
    if !HasRoom(st.ready) { NothingGoes(st.ready); }
  }

  lemma NothingGoes(ready: seq<Item>)
    requires !HasRoom(ready)
    ensures ReserveCritical(ready) == ready
  {
    forall j | 0 <= j < |ready| ensures !IsPlain(ready[j]) {
      assert ready[j] in ready;
    }
  }

  /** The item that goes when a call or a direct message needs its place: the newest plain one,
      or else the newest message that is still in the modem. */
  ghost predicate GivesWay(ready: seq<Item>, i: nat)
    requires i < |ready|
  {
    if IsPlain(ready[i]) then forall j :: i < j < |ready| ==> !IsPlain(ready[j])
    else
      && HoldsSlots(ready[i]) && (forall j :: 0 <= j < |ready| ==> !IsPlain(ready[j]))
      && forall j :: i < j < |ready| ==> !HoldsSlots(ready[j])
  }

  /** Only a queue full of calls and direct messages has no place for another. */
  predicate OnlyUnrepeatable(ready: seq<Item>) {
    |ready| >= MAX_READY && forall x :: x in ready ==> Unrepeatable(x)
  }

  lemma PlaceMade(ready: seq<Item>)
    requires |ready| <= MAX_READY
    ensures var r := ReserveEphemeral(ready);
      if |ready| < MAX_READY then r == ready
      else if OnlyUnrepeatable(ready) then r == ready
      else |r| < MAX_READY && exists i :: 0 <= i < |ready| && GivesWay(ready, i) && r == RemoveAt(ready, i)
  {
    hide RemoveAt;
    var i, k := LastPosition(ready, IsPlain), LastPosition(ready, HoldsSlots);
    if |ready| >= MAX_READY {
      RemovedLength(ready);
      if i < |ready| {
        assert GivesWay(ready, i) && ready[i] in ready && !Unrepeatable(ready[i]);
      } else if k < |ready| {
        assert GivesWay(ready, k) && ready[k] in ready && !Unrepeatable(ready[k]);
      } else {
        assert forall x :: x in ready ==> !IsPlain(x) && !HoldsSlots(x);
      }
    }
  }

  lemma RemovedLength<T>(xs: seq<T>)
    ensures forall i :: 0 <= i < |xs| ==> |RemoveAt(xs, i)| == |xs| - 1
  {}

  /** A call is queued in front of everything, unless eight calls and direct messages wait. */
  lemma CallIsQueued(decode: nat -> Decoded, st: State, text: string)
    requires |st.ready| <= MAX_READY
    ensures var after := Step(decode, st, IncomingCall(text));
      if |st.ready| < MAX_READY then after == st.(ready := [CallItem(text)] + st.ready)
      else if OnlyUnrepeatable(st.ready) then after == st
      else exists i :: 0 <= i < |st.ready| && GivesWay(st.ready, i)
                     && after == st.(ready := [CallItem(text)] + RemoveAt(st.ready, i))
  {
    hide RemoveAt, GivesWay, ReserveEphemeral;
    PlaceMade(st.ready);
    var r := ReserveEphemeral(st.ready);
    if |st.ready| >= MAX_READY && !OnlyUnrepeatable(st.ready) {
      var i :| 0 <= i < |st.ready| && GivesWay(st.ready, i) && r == RemoveAt(st.ready, i);
      assert Step(decode, st, IncomingCall(text)) == st.(ready := [CallItem(text)] + RemoveAt(st.ready, i));
    }
  }

  lemma {:induction false} GivenWay(ready: seq<Item>, i: nat)
    requires i < |ready| && GivesWay(ready, i)
    ensures Keep(RemoveAt(ready, i), Unrepeatable) == Keep(ready, Unrepeatable)
  {
    KeepRemove(ready, i, Unrepeatable);
  }

  lemma DirectBehind(ready: seq<Item>, p: Prepared)
    requires Ranked(ready) && p.slots == []
    ensures Keep(QueueSms(ready, p), Unrepeatable) == Keep(ready, Unrepeatable) + [SmsItem(p)]
  {
    hide Keep, Ranked, Position;
    PlainTail(ready);
    var k := Position(ready, IsPlain);
    var a, b := ready[..k], ready[k..];
    assert ready == a + b;
    KeptWithoutTail(a, b, Unrepeatable);
    KeptWithoutTail(a + [SmsItem(p)], b, Unrepeatable);
    KeepConcat(a, [SmsItem(p)], Unrepeatable);
    KeepAll([SmsItem(p)], Unrepeatable);
  }

  lemma KeptWithoutTail<T>(a: seq<T>, b: seq<T>, f: T -> bool)
    requires forall i :: 0 <= i < |b| ==> !f(b[i])
    ensures Keep(a + b, f) == Keep(a, f)
  {
    hide Keep;
    KeepConcat(a, b, f);
    KeepNone(b, f);
    assert Keep(a, f) + [] == Keep(a, f);
  }

  /** A message delivered past the modem's storage is queued behind the calls and direct
      messages that wait, unless they are eight. */
  lemma DirectIsQueued(decode: nat -> Decoded, st: State, content: nat, now: nat)
    requires Inv(decode, st) && !OnlyUnrepeatable(st.ready)
    requires decode(content).Whole? && st.forwarding && decode(content).sms.sender !in st.blocked
    ensures var after := Step(decode, st, DirectSms(content, now));
      && Keep(after.ready, Unrepeatable)
         == Keep(st.ready, Unrepeatable) + [SmsItem(Prepared(decode(content).sms, []))]
      && after == st.(ready := after.ready)
  {
    hide Keep, Holding, Count, QueueSms, GroupsOk, UniqueKeys, PendingOk, DeletionsOk, GivesWay, ReserveEphemeral,
         RemoveAt, OnlyUnrepeatable, HeldOnce;
    PlaceMade(st.ready);
    var r := ReserveEphemeral(st.ready);
    ReserveOk(decode, st.modem, st.ready);
    if |st.ready| >= MAX_READY {
      var i :| 0 <= i < |st.ready| && GivesWay(st.ready, i) && r == RemoveAt(st.ready, i);
      GivenWay(st.ready, i);
    }
    DirectBehind(r, Prepared(decode(content).sms, []));
  }

  /** A plain notification goes last while fewer than eight wait. */
  lemma NoticeIsQueued(decode: nat -> Decoded, st: State, text: string)
    requires Ranked(st.ready) && |st.ready| < MAX_READY
    ensures var after := Step(decode, st, Notify(text));
      && Keep(after.ready, IsPlain) == Keep(st.ready, IsPlain) + [PlainItem(text)]
      && Keep(after.ready, NotPlain) == Keep(st.ready, NotPlain)
  {
    hide Keep;
    KeepConcat(st.ready, [PlainItem(text)], IsPlain);
    KeepConcat(st.ready, [PlainItem(text)], NotPlain);
    KeepAll([PlainItem(text)], IsPlain);
    KeepNone([PlainItem(text)], NotPlain);
  }

  // ---- Dispatching past due deletions ----

  /** With 32 deletions due, everything but messages is still sent, from the front, in order,
      as much as fits. */
  lemma {:induction false} DispatchTakesOthers(st: State, room: nat)
    requires |st.deletions| >= MAX_PENDING_DELETIONS && |st.pending| <= MAX_PENDING
    ensures var others, after := Keep(st.ready, NotSms), DispatchReady(st, room);
      var k: nat := Min(Min(room, MAX_PENDING - |st.pending|), |others|);
      Keep(after.ready, NotSms) == others[k..] && after.pending == st.pending + AllWaiting(others[..k])
    decreases room
  {
    hide RemoveAt, AllWaiting, Keep, DispatchReady;
    var others, i := Keep(st.ready, NotSms), Position(st.ready, NotSms);
    DispatchesOther(st, room);
    FirstKept(st.ready, NotSms);
    if room == 0 || |st.pending| >= MAX_PENDING || i >= |st.ready| {
      NoneSent(st, others);
    } else {
      var k: nat := Min(Min(room, MAX_PENDING - |st.pending|), |others|);
      DispatchTakesOthers(Moved(st, i), room - 1);
      OtherFront(st.ready, i, others, st.pending, k);
    }
  }

  /** One round of it. */
  lemma DispatchesOther(st: State, room: nat)
    requires |st.deletions| >= MAX_PENDING_DELETIONS
    ensures var i := Position(st.ready, NotSms);
      DispatchReady(st, room) ==
        if room == 0 || |st.pending| >= MAX_PENDING || i >= |st.ready| then st
        else DispatchReady(Moved(st, i), room - 1)
  {
    hide RemoveAt;
  }

  lemma OtherFront(ready: seq<Item>, i: nat, others: seq<Item>, pending: seq<PendingItem>, k: nat)
    requires i < |ready| && others == [ready[i]] + Keep(RemoveAt(ready, i), NotSms) && 1 <= k <= |others|
    ensures var rest := Keep(RemoveAt(ready, i), NotSms);
      && |rest| == |others| - 1 && rest[k - 1..] == others[k..]
      && pending + [PendingItem(ready[i], Waiting)] + AllWaiting(rest[..k - 1]) == pending + AllWaiting(others[..k])
  {
    hide Keep, RemoveAt, AllWaiting;
    assert others[1..] == Keep(RemoveAt(ready, i), NotSms);
    FrontSplit(others, pending, k);
  }

  lemma NoneSent(st: State, others: seq<Item>)
    ensures others[0..] == others && st.pending + AllWaiting(others[..0]) == st.pending
  {}

}
