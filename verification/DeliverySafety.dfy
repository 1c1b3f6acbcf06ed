/** What every run of the delivery pipeline keeps. */
module DeliverySafety {
  import opened Common
  import opened Concat
  import opened Delivery

  // ---- What it means that a message carries the content of a slot ----

  /** `texts` are the parts of `sms`, and `part` is one of them. */
  ghost predicate IsPartOf(part: Part, sms: Sms, texts: seq<string>) {
    && |texts| == part.total && 1 <= part.num <= part.total && texts[part.num - 1] == part.text
    && Join(texts) == sms.body && part.sender == sms.sender
  }

  /** The whole message, or a message that has this part in its place. */
  ghost predicate Covers(decode: nat -> Decoded, sms: Sms, content: nat) {
    match decode(content)
    case Whole(m) => m == sms
    case Piece(part) => exists texts :: IsPartOf(part, sms, texts)
    case Malformed => false
  }

  /** The content was delivered, or dropped on purpose. */
  ghost predicate Settled(decode: nat -> Decoded, done: set<Sms>, content: nat) {
    exists sms :: sms in done && Covers(decode, sms, content)
  }

  // ---- The invariant ----

  predicate InModem(modem: map<Place, nat>, s: StorageSlot) {
    PlaceOf(s) in modem && modem[PlaceOf(s)] == s.fingerprint
  }

  /** The group holds, in its place, the part stored under this content. */
  ghost predicate Contributes(decode: nat -> Decoded, g: Group, content: nat) {
    decode(content).Piece?
    && var p := decode(content).part;
    Matches(g, p) && 1 <= p.num <= |g.parts| && g.parts[p.num - 1] == Some(p.text)
  }

  ghost predicate GroupOk(decode: nat -> Decoded, modem: map<Place, nat>, g: Group) {
    && |g.parts| == g.total && g.received == CountSome(g.parts)
    && forall s :: s in g.slots ==> InModem(modem, s) && Contributes(decode, g, s.fingerprint)
  }

  ghost predicate GroupsOk(decode: nat -> Decoded, modem: map<Place, nat>, groups: seq<Group>) {
    forall i :: 0 <= i < |groups| ==> GroupOk(decode, modem, groups[i])
  }

  predicate SameKey(a: Group, b: Group) {
    a.sender == b.sender && a.refNum == b.refNum && a.total == b.total
  }

  ghost predicate UniqueKeys(groups: seq<Group>) {
    forall i, j :: 0 <= i < j < |groups| ==> !SameKey(groups[i], groups[j])
  }

  /** Every slot of the notification is still in the modem and carried by its message. */
  ghost predicate ItemOk(decode: nat -> Decoded, modem: map<Place, nat>, item: Item) {
    item.SmsItem? ==> forall s :: s in item.prepared.slots ==>
      InModem(modem, s) && Covers(decode, item.prepared.sms, s.fingerprint)
  }

  ghost predicate ReadyOk(decode: nat -> Decoded, modem: map<Place, nat>, ready: seq<Item>) {
    forall i :: 0 <= i < |ready| ==> ItemOk(decode, modem, ready[i])
  }

  ghost predicate PendingOk(decode: nat -> Decoded, modem: map<Place, nat>, pending: seq<PendingItem>,
                            delivered: set<Sms>) {
    && (forall i :: 0 <= i < |pending| ==> ItemOk(decode, modem, pending[i].item))
    && (forall i :: 0 <= i < |pending| && pending[i].reply.Sent? && pending[i].item.SmsItem? ==>
          pending[i].item.prepared.sms in delivered)
  }

  ghost predicate DeletionsOk(decode: nat -> Decoded, done: set<Sms>, deletions: seq<StorageSlot>) {
    forall s :: s in deletions ==> Settled(decode, done, s.fingerprint)
  }

  function Rank(item: Item): nat {
    match item
    case CallItem(_) => 0
    case SmsItem(_) => 1
    case PlainItem(_) => 2
  }

  /** Calls, then messages, then plain notifications. */
  ghost predicate Ranked(ready: seq<Item>) {
    forall i, j :: 0 <= i < j < |ready| ==> Rank(ready[i]) <= Rank(ready[j])
  }

  /** Everything held is what it should be. */
  ghost predicate Sound(decode: nat -> Decoded, st: State) {
    && GroupsOk(decode, st.modem, st.groups) && UniqueKeys(st.groups) && |st.groups| <= MAX_GROUPS
    && ReadyOk(decode, st.modem, st.ready) && Ranked(st.ready) && |st.ready| <= MAX_READY
    && PendingOk(decode, st.modem, st.pending, st.delivered) && |st.pending| <= MAX_PENDING
    && DeletionsOk(decode, st.delivered + st.dropped, st.deletions)
  }

  /** No place is held twice, in whatever parts of the pipeline. */
  ghost predicate HeldOnce(st: State) {
    forall p :: Holders(st, p) <= 1
  }

  ghost predicate Inv(decode: nat -> Decoded, st: State) {
    Sound(decode, st) && HeldOnce(st)
  }

  // ---- Counting holders ----

  lemma {:induction false} CountConcat(a: seq<StorageSlot>, b: seq<StorageSlot>, p: Place)
    ensures Count(a + b, p) == Count(a, p) + Count(b, p)
  {
    if a == [] {
      assert a + b == b;
    } else {
      assert (a + b)[1..] == a[1..] + b;
      CountConcat(a[1..], b, p);
    }
  }

  lemma CountOne(s: StorageSlot, p: Place)
    ensures Count([s], p) == if PlaceOf(s) == p then 1 else 0
  {
    assert [s][1..] == [];
  }

  lemma {:induction false} CountMember(slots: seq<StorageSlot>, s: StorageSlot)
    requires s in slots
    ensures Count(slots, PlaceOf(s)) > 0
  {
    if slots[0] != s { CountMember(slots[1..], s); }
  }

  lemma {:induction false} CountWitness(slots: seq<StorageSlot>, p: Place)
    requires Count(slots, p) > 0
    ensures exists s :: s in slots && PlaceOf(s) == p
  {
    if PlaceOf(slots[0]) == p {
      assert slots[0] in slots;
    } else {
      CountWitness(slots[1..], p);
    }
  }

  lemma {:induction false} CountElsewhere(slots: seq<StorageSlot>, p: Place)
    requires forall i :: 0 <= i < |slots| ==> PlaceOf(slots[i]) != p
    ensures Count(slots, p) == 0
  {
    if slots != [] { CountElsewhere(slots[1..], p); }
  }

  lemma {:induction false} HoldingConcat<T>(a: seq<T>, b: seq<T>, f: T -> seq<StorageSlot>, p: Place)
    ensures Holding(a + b, f, p) == Holding(a, f, p) + Holding(b, f, p)
  {
    if a == [] {
      assert a + b == b;
    } else {
      assert (a + b)[1..] == a[1..] + b;
      HoldingConcat(a[1..], b, f, p);
    }
  }

  lemma HoldingOne<T>(x: T, f: T -> seq<StorageSlot>, p: Place)
    ensures Holding([x], f, p) == Count(f(x), p)
  {
    assert [x][1..] == [];
  }

  lemma HoldingSplit<T>(xs: seq<T>, i: nat, f: T -> seq<StorageSlot>, p: Place)
    requires i < |xs|
    ensures Holding(xs, f, p) == Holding(xs[..i], f, p) + Count(f(xs[i]), p) + Holding(xs[i + 1..], f, p)
  {
    assert xs == xs[..i] + ([xs[i]] + xs[i + 1..]);
    HoldingConcat(xs[..i], [xs[i]] + xs[i + 1..], f, p);
    HoldingConcat([xs[i]], xs[i + 1..], f, p);
    HoldingOne(xs[i], f, p);
  }

  lemma HoldingRemove<T>(xs: seq<T>, i: nat, f: T -> seq<StorageSlot>, p: Place)
    requires i < |xs|
    ensures Holding(RemoveAt(xs, i), f, p) + Count(f(xs[i]), p) == Holding(xs, f, p)
  {
    HoldingSplit(xs, i, f, p);
    HoldingConcat(xs[..i], xs[i + 1..], f, p);
  }

  lemma HoldingInsert<T>(xs: seq<T>, i: nat, x: T, f: T -> seq<StorageSlot>, p: Place)
    requires i <= |xs|
    ensures Holding(InsertAt(xs, i, x), f, p) == Holding(xs, f, p) + Count(f(x), p)
  {
    assert xs == xs[..i] + xs[i..];
    HoldingConcat(xs[..i], xs[i..], f, p);
    HoldingConcat(xs[..i] + [x], xs[i..], f, p);
    HoldingConcat(xs[..i], [x], f, p);
    HoldingOne(x, f, p);
  }

  lemma HoldingUpdate<T>(xs: seq<T>, i: nat, x: T, f: T -> seq<StorageSlot>, p: Place)
    requires i < |xs|
    ensures Holding(xs[i := x], f, p) + Count(f(xs[i]), p) == Holding(xs, f, p) + Count(f(x), p)
  {
    HoldingSplit(xs, i, f, p);
    HoldingSplit(xs[i := x], i, f, p);
    assert xs[i := x][..i] == xs[..i] && xs[i := x][i + 1..] == xs[i + 1..];
  }

  lemma {:induction false} HoldingMember<T>(xs: seq<T>, i: nat, f: T -> seq<StorageSlot>, s: StorageSlot)
    requires i < |xs| && s in f(xs[i])
    ensures Holding(xs, f, PlaceOf(s)) > 0
  {
    HoldingSplit(xs, i, f, PlaceOf(s));
    CountMember(f(xs[i]), s);
  }

  lemma {:induction false} HoldingNone<T>(xs: seq<T>, f: T -> seq<StorageSlot>, p: Place)
    requires forall i :: 0 <= i < |xs| ==> Count(f(xs[i]), p) == 0
    ensures Holding(xs, f, p) == 0
  {
    if xs != [] { HoldingNone(xs[1..], f, p); }
  }

  lemma HoldingSwapRemove<T>(xs: seq<T>, i: nat, f: T -> seq<StorageSlot>, p: Place)
    requires i < |xs|
    ensures Holding(SwapRemove(xs, i), f, p) + Count(f(xs[i]), p) == Holding(xs, f, p)
  {
    var n := |xs| - 1;
    HoldingSplit(xs, n, f, p);
    assert xs[n + 1..] == [];
    if i < n { HoldingUpdate(xs[..n], i, xs[n], f, p); }
  }

  // ---- Groups ----

  lemma {:induction false} RetainKeeps(decode: nat -> Decoded, modem: map<Place, nat>, groups: seq<Group>, now: nat)
    requires GroupsOk(decode, modem, groups) && UniqueKeys(groups)
    ensures GroupsOk(decode, modem, Retain(groups, now)) && UniqueKeys(Retain(groups, now))
    ensures |Retain(groups, now)| <= |groups|
  {
    hide GroupOk;
    if groups != [] {
      var rest, kept := groups[1..], Retain(groups[1..], now);
      RetainKeeps(decode, modem, rest, now);
      forall j | 0 <= j < |kept| ensures !SameKey(groups[0], kept[j]) {
        RetainMember(rest, now, kept[j]);
      }
    }
  }

  lemma {:induction false} RetainHolds(groups: seq<Group>, now: nat, p: Place)
    ensures Holding(Retain(groups, now), GroupSlots, p) <= Holding(groups, GroupSlots, p)
  {
    if groups != [] {
      RetainHolds(groups[1..], now, p);
      assert Retain(groups, now) == if Expired(groups[0], now) then Retain(groups[1..], now) else
                              [groups[0]] + Retain(groups[1..], now);
      HoldingConcat([groups[0]], Retain(groups[1..], now), GroupSlots, p);
      HoldingOne(groups[0], GroupSlots, p);
    }
  }

  lemma NewGroupOk(decode: nat -> Decoded, modem: map<Place, nat>, p: Part, now: nat)
    ensures GroupOk(decode, modem, NewGroup(p, now))
  {
    Concat.CountNone(p.total);
  }

  /** The table in which a part is looked up is as good as the one before, ... */
  lemma LocatedOk(decode: nat -> Decoded, modem: map<Place, nat>, groups: seq<Group>, p: Part, now: nat)
    requires GroupsOk(decode, modem, groups) && UniqueKeys(groups) && |groups| <= MAX_GROUPS
    ensures var (table, i) := Located(groups, p, now);
      GroupsOk(decode, modem, table) && UniqueKeys(table) && |table| <= MAX_GROUPS
  {
    hide GroupOk, Retain, NewGroup, Oldest, RemoveAt;
    RetainKeeps(decode, modem, groups, now);
    var kept := Retain(groups, now);
    if Position(kept, (g: Group) => Matches(g, p)) == |kept| {
      NewGroupOk(decode, modem, p, now);
      var room := if |kept| >= MAX_GROUPS then RemoveAt(kept, Oldest(kept)) else kept;
      if |kept| >= MAX_GROUPS { RemoveGroupOk(decode, modem, kept, Oldest(kept)); }
      AppendGroupOk(decode, modem, room, kept, p, now);
    }
  }

  lemma RemoveGroupOk(decode: nat -> Decoded, modem: map<Place, nat>, groups: seq<Group>, i: nat)
    requires GroupsOk(decode, modem, groups) && UniqueKeys(groups) && i < |groups|
    ensures GroupsOk(decode, modem, RemoveAt(groups, i)) && UniqueKeys(RemoveAt(groups, i))
    ensures |RemoveAt(groups, i)| == |groups| - 1 && forall g :: g in RemoveAt(groups, i) ==> g in groups
  {
    hide GroupOk;
  }

  lemma AppendGroupOk(decode: nat -> Decoded, modem: map<Place, nat>, room: seq<Group>, kept: seq<Group>, p: Part,
                      now: nat)
    requires GroupsOk(decode, modem, room) && UniqueKeys(room) && GroupOk(decode, modem, NewGroup(p, now))
    requires forall g :: g in room ==> g in kept
    requires forall j :: 0 <= j < |kept| ==> !Matches(kept[j], p)
    ensures GroupsOk(decode, modem, room + [NewGroup(p, now)]) && UniqueKeys(room + [NewGroup(p, now)])
  {
    hide GroupOk;
    forall j | 0 <= j < |room| ensures !SameKey(room[j], NewGroup(p, now)) {
      assert room[j] in kept;
    }
  }

  /** ... and holds no more. */
  lemma LocatedHolds(groups: seq<Group>, p: Part, now: nat, q: Place)
    ensures Holding(Located(groups, p, now).0, GroupSlots, q) <= Holding(groups, GroupSlots, q)
  {
    hide Retain, Holding, Oldest;
    RetainHolds(groups, now, q);
    var kept := Retain(groups, now);
    if Position(kept, (g: Group) => Matches(g, p)) == |kept| {
      var room := if |kept| >= MAX_GROUPS then RemoveAt(kept, Oldest(kept)) else kept;
      if |kept| >= MAX_GROUPS { HoldingRemove(kept, Oldest(kept), GroupSlots, q); }
      HoldingConcat(room, [NewGroup(p, now)], GroupSlots, q);
      HoldingOne(NewGroup(p, now), GroupSlots, q);
    }
  }

  /** A place whose content is a part of the located message is held by no other group. */
  lemma HeldByOwnGroup(decode: nat -> Decoded, modem: map<Place, nat>, table: seq<Group>, i: nat, place: Place)
    requires GroupsOk(decode, modem, table) && UniqueKeys(table) && i < |table| && place in modem
    requires decode(modem[place]).Piece? && Matches(table[i], decode(modem[place]).part)
    ensures Holding(table, GroupSlots, place) == Count(table[i].slots, place)
  {
    forall j | 0 <= j < |table| && j != i ensures Count(GroupSlots(table[j]), place) == 0 {
      if Count(table[j].slots, place) > 0 {
        CountWitness(table[j].slots, place);
        var s :| s in table[j].slots && PlaceOf(s) == place;
        assert GroupOk(decode, modem, table[j]);
        assert SameKey(table[j], table[i]) && SameKey(table[i], table[j]);
      }
    }
    HoldingSplit(table, i, GroupSlots, place);
    HoldingNone(table[..i], GroupSlots, place);
    HoldingNone(table[i + 1..], GroupSlots, place);
  }

  /** A slot joins its group once, and only if nothing else is known there. */
  lemma TrackCounts(g: Group, slot: StorageSlot)
    requires TrackSlot(g, slot).1 && Count(g.slots, PlaceOf(slot)) <= 1
    ensures var h := TrackSlot(g, slot).0;
      && h == g.(slots := h.slots) && (forall s :: s in h.slots ==> s in g.slots || s == slot)
      && Count(h.slots, PlaceOf(slot)) == 1
      && forall q :: q != PlaceOf(slot) ==> Count(h.slots, q) == Count(g.slots, q)
  {
    var i := Position(g.slots, (s: StorageSlot) => SamePlace(s, slot));
    if i < |g.slots| {
      CountMember(g.slots, g.slots[i]);
    } else {
      CountElsewhere(g.slots, PlaceOf(slot));
      forall q ensures Count(g.slots + [slot], q) == Count(g.slots, q) + if PlaceOf(slot) == q then 1 else 0 {
        CountConcat(g.slots, [slot], q);
        CountOne(slot, q);
      }
    }
  }

  /** Filling in a part keeps what the group's slots stand for. */
  lemma FillOk(decode: nat -> Decoded, modem: map<Place, nat>, g: Group, p: Part)
    requires GroupOk(decode, modem, g) && Matches(g, p) && 1 <= p.num <= p.total
    requires g.parts[p.num - 1].Some? ==> g.parts[p.num - 1].value == p.text
    ensures var (h, complete) := InsertPart(g, p.num, p.text);
      && GroupOk(decode, modem, h) && SameKey(g, h) && h.slots == g.slots
      && h.parts[p.num - 1] == Some(p.text) && complete == (h.received == h.total)
  {
    if g.parts[p.num - 1].None? { CountFill(g.parts, p.num - 1, p.text); }
    var h := InsertPart(g, p.num, p.text).0;
    forall s | s in h.slots ensures Contributes(decode, h, s.fingerprint) {
      assert Contributes(decode, g, s.fingerprint);
    }
  }

  /** A completed group's message covers every slot it tracked. */
  lemma CompleteCovers(decode: nat -> Decoded, modem: map<Place, nat>, g: Group)
    requires GroupOk(decode, modem, g) && g.received == g.total
    ensures forall s :: s in g.slots ==> Covers(decode, Sms(g.sender, Assemble(g.parts), g.timestamp), s.fingerprint)
  {
    CountFull(g.parts);
    var texts := seq(|g.parts|, i requires 0 <= i < |g.parts| => g.parts[i].value);
    AssembleFull(g.parts, texts);
    forall s | s in g.slots ensures Covers(decode, Sms(g.sender, Assemble(g.parts), g.timestamp), s.fingerprint) {
      assert Contributes(decode, g, s.fingerprint);
      assert IsPartOf(decode(s.fingerprint).part, Sms(g.sender, Assemble(g.parts), g.timestamp), texts);
    }
  }

  /** The slot, if there is one, is in the modem and holds exactly this part. */
  ghost predicate SlotCarries(decode: nat -> Decoded, modem: map<Place, nat>, slot: Option<StorageSlot>, d: Decoded) {
    slot.Some? ==> InModem(modem, slot.value) && decode(slot.value.fingerprint) == d
  }

  /** What a completed message says of its slots. */
  ghost predicate OutcomeOk(decode: nat -> Decoded, modem: map<Place, nat>, out: Outcome) {
    out.Complete? ==> forall s :: s in out.message.slots ==>
      (InModem(modem, s) &&
       Covers(decode, Sms(out.message.sender, out.message.content, out.message.timestamp), s.fingerprint))
  }

  function OutcomeSlots(out: Outcome): seq<StorageSlot> {
    if out.Complete? then out.message.slots else []
  }

  lemma InsertIgnoresSlots(g: Group, slots: seq<StorageSlot>, num: nat, text: string)
    ensures InsertPart(g.(slots := slots), num, text) ==
            (InsertPart(g, num, text).0.(slots := slots), InsertPart(g, num, text).1)
  {}

  /** A group after its part went in and its slot was tracked. */
  lemma FedGroupOk(decode: nat -> Decoded, modem: map<Place, nat>, g: Group, p: Part, slots: seq<StorageSlot>,
                   slot: Option<StorageSlot>)
    requires GroupOk(decode, modem, g) && Matches(g, p) && 1 <= p.num <= p.total
    requires g.parts[p.num - 1].Some? ==> g.parts[p.num - 1].value == p.text
    requires SlotCarries(decode, modem, slot, Piece(p))
    requires forall s :: s in slots ==> s in g.slots || slot == Some(s)
    ensures var (h, complete) := InsertPart(g.(slots := slots), p.num, p.text);
      GroupOk(decode, modem, h) && SameKey(g, h) && h.slots == slots && complete == (h.received == h.total)
  {
    hide InsertPart;
    InsertIgnoresSlots(g, slots, p.num, p.text);
    FillOk(decode, modem, g, p);
  }

  lemma UpdateGroupOk(decode: nat -> Decoded, modem: map<Place, nat>, groups: seq<Group>, i: nat, h: Group)
    requires GroupsOk(decode, modem, groups) && UniqueKeys(groups) && i < |groups|
    requires GroupOk(decode, modem, h) && SameKey(groups[i], h)
    ensures GroupsOk(decode, modem, groups[i := h]) && UniqueKeys(groups[i := h])
  {
    hide GroupOk;
  }

  /** Slots of the located group once `slot` is tracked, when tracking succeeds. */
  function TrackedSlots(g: Group, slot: Option<StorageSlot>): seq<StorageSlot> {
    if slot.Some? then TrackSlot(g, slot.value).0.slots else g.slots
  }

  /** Feeding unfolded: refused, completed or collected. */
  lemma FeedCases(table: seq<Group>, i: nat, p: Part, slot: Option<StorageSlot>)
    requires i < |table| && 1 <= p.num <= p.total && |table[i].parts| == p.total
    ensures var (after, out) := FeedGroup(table, i, p, slot);
      var (h, complete) := InsertPart(table[i].(slots := TrackedSlots(table[i], slot)), p.num, p.text);
      || (out == Invalid && after == table)
      || ((slot.Some? ==> TrackSlot(table[i], slot.value).1)
          && (table[i].parts[p.num - 1].Some? ==> table[i].parts[p.num - 1].value == p.text)
          && if complete then
               after == RemoveAt(table, i) &&
               out == Complete(Completed(h.sender, Assemble(h.parts), h.timestamp, h.slots))
             else after == table[i := h] && out == Incomplete)
  {
    hide InsertPart, Assemble;
  }

  lemma GroupOkAt(decode: nat -> Decoded, modem: map<Place, nat>, table: seq<Group>, i: nat)
    requires GroupsOk(decode, modem, table) && i < |table|
    ensures GroupOk(decode, modem, table[i])
  {
    hide GroupOk;
  }

  lemma FeedGroupOk(decode: nat -> Decoded, modem: map<Place, nat>, table: seq<Group>, i: nat, p: Part,
                    slot: Option<StorageSlot>)
    requires GroupsOk(decode, modem, table) && UniqueKeys(table) && |table| <= MAX_GROUPS && i < |table|
    requires Matches(table[i], p) && WellNumbered(p)
    requires SlotCarries(decode, modem, slot, Piece(p))
    requires slot.Some? ==> Holding(table, GroupSlots, PlaceOf(slot.value)) <= 1
    ensures var (after, out) := FeedGroup(table, i, p, slot);
      && GroupsOk(decode, modem, after) && UniqueKeys(after) && |after| <= MAX_GROUPS
      && OutcomeOk(decode, modem, out)
  {
    hide FeedGroup, InsertPart, Assemble, GroupOk, GroupsOk, UniqueKeys, TrackSlot, TrackedSlots, RemoveAt, Covers,
         Holding,
         InModem, SlotCarries;
    GroupOkAt(decode, modem, table, i);
    var g, slots := table[i], TrackedSlots(table[i], slot);
    assert |g.parts| == p.total by { GroupSize(decode, modem, g); }
    FeedCases(table, i, p, slot);
    var (after, out) := FeedGroup(table, i, p, slot);
    if out != Invalid || after != table {
      TrackedFrom(table, i, slot);
      FedGroupOk(decode, modem, g, p, slots, slot);
      var (h, complete) := InsertPart(g.(slots := slots), p.num, p.text);
      if complete {
        RemoveGroupOk(decode, modem, table, i);
        CompleteCovers(decode, modem, h);
        SlotsInModem(decode, modem, h);
      } else {
        UpdateGroupOk(decode, modem, table, i, h);
      }
    }
  }

  lemma GroupSize(decode: nat -> Decoded, modem: map<Place, nat>, g: Group)
    requires GroupOk(decode, modem, g)
    ensures |g.parts| == g.total
  {}

  lemma SlotsInModem(decode: nat -> Decoded, modem: map<Place, nat>, g: Group)
    requires GroupOk(decode, modem, g)
    ensures forall s :: s in g.slots ==> InModem(modem, s)
  {}

  lemma TrackedFrom(table: seq<Group>, i: nat, slot: Option<StorageSlot>)
    requires i < |table| && (slot.Some? ==> TrackSlot(table[i], slot.value).1)
    requires slot.Some? ==> Holding(table, GroupSlots, PlaceOf(slot.value)) <= 1
    ensures forall s :: s in TrackedSlots(table[i], slot) ==> s in table[i].slots || slot == Some(s)
    ensures slot.Some? ==> Count(TrackedSlots(table[i], slot), PlaceOf(slot.value)) == 1
    ensures forall q :: (slot.Some? ==> q != PlaceOf(slot.value)) ==>
             Count(TrackedSlots(table[i], slot), q) == Count(table[i].slots, q)
  {
    if slot.Some? {
      HoldingSplit(table, i, GroupSlots, PlaceOf(slot.value));
      TrackCounts(table[i], slot.value);
    }
  }

  /** Feeding moves slots around and adds at most the slot being fed. */
  lemma FeedGroupHolds(decode: nat -> Decoded, modem: map<Place, nat>, table: seq<Group>, i: nat, p: Part,
                       slot: Option<StorageSlot>, q: Place)
    requires GroupsOk(decode, modem, table) && UniqueKeys(table) && i < |table|
    requires Matches(table[i], p) && WellNumbered(p)
    requires SlotCarries(decode, modem, slot, Piece(p))
    requires slot.Some? ==> Holding(table, GroupSlots, PlaceOf(slot.value)) <= 1
    ensures var (after, out) := FeedGroup(table, i, p, slot);
      Holding(after, GroupSlots, q) + Count(OutcomeSlots(out), q)
      <= if slot.Some? && q == PlaceOf(slot.value) then 1 else Holding(table, GroupSlots, q)
  {
    assert GroupOk(decode, modem, table[i]);
    if slot.Some? { HeldByOwnGroup(decode, modem, table, i, PlaceOf(slot.value)); }
    hide FeedGroup, InsertPart, Assemble, GroupOk, TrackSlot, RemoveAt, Covers, Holding, Count;
    var g, slots := table[i], TrackedSlots(table[i], slot);
    assert |g.parts| == p.total by { GroupSize(decode, modem, g); }
    FeedCases(table, i, p, slot);
    assert Count([], q) == 0 by { CountElsewhere([], q); }
    var (after, out) := FeedGroup(table, i, p, slot);
    if out != Invalid || after != table {
      TrackedFrom(table, i, slot);
      InsertIgnoresSlots(g, slots, p.num, p.text);
      var (h, complete) := InsertPart(g.(slots := slots), p.num, p.text);
      if complete {
        HoldingRemove(table, i, GroupSlots, q);
      } else {
        HoldingUpdate(table, i, h, GroupSlots, q);
      }
    }
  }

  // ---- Preparing ----

  ghost predicate GroupTableOk(decode: nat -> Decoded, modem: map<Place, nat>, groups: seq<Group>) {
    GroupsOk(decode, modem, groups) && UniqueKeys(groups) && |groups| <= MAX_GROUPS
  }

  lemma FeedOk(decode: nat -> Decoded, modem: map<Place, nat>, groups: seq<Group>, p: Part, slot: Option<StorageSlot>,
               now: nat)
    requires GroupTableOk(decode, modem, groups) && SlotCarries(decode, modem, slot, Piece(p))
    requires slot.Some? ==> Holding(groups, GroupSlots, PlaceOf(slot.value)) <= 1
    ensures var (after, out) := Feed(groups, p, slot, now);
      GroupTableOk(decode, modem, after) && OutcomeOk(decode, modem, out)
  {
    hide Located, FeedGroup, Holding, Covers, GroupsOk, UniqueKeys;
    if WellNumbered(p) {
      LocatedOk(decode, modem, groups, p, now);
      if slot.Some? { LocatedHolds(groups, p, now, PlaceOf(slot.value)); }
      var (table, i) := Located(groups, p, now);
      FeedGroupOk(decode, modem, table, i, p, slot);
    }
  }

  lemma FeedHolds(decode: nat -> Decoded, modem: map<Place, nat>, groups: seq<Group>, p: Part,
                  slot: Option<StorageSlot>, now: nat, q: Place)
    requires GroupTableOk(decode, modem, groups) && SlotCarries(decode, modem, slot, Piece(p))
    requires slot.Some? ==> Holding(groups, GroupSlots, PlaceOf(slot.value)) <= 1
    ensures var (after, out) := Feed(groups, p, slot, now);
      Holding(after, GroupSlots, q) + Count(OutcomeSlots(out), q)
      <= if slot.Some? && q == PlaceOf(slot.value) then 1 else Holding(groups, GroupSlots, q)
  {
    hide Located, FeedGroup, Holding, Covers, GroupsOk, UniqueKeys;
    if WellNumbered(p) {
      LocatedOk(decode, modem, groups, p, now);
      if slot.Some? { LocatedHolds(groups, p, now, PlaceOf(slot.value)); }
      LocatedHolds(groups, p, now, q);
      var (table, i) := Located(groups, p, now);
      FeedGroupHolds(decode, modem, table, i, p, slot, q);
    }
  }

  function PreparedSlots(p: Preparation): seq<StorageSlot> {
    match p
    case Retained => []
    case Consumed(slots) => slots
    case Ready(prepared) => prepared.slots
  }

  ghost predicate PreparationOk(decode: nat -> Decoded, modem: map<Place, nat>, p: Preparation) {
    match p
    case Retained => true
    case Consumed(slots) => slots == []
    case Ready(prepared) => ItemOk(decode, modem, SmsItem(prepared))
  }

  lemma PrepareOk(decode: nat -> Decoded, modem: map<Place, nat>, groups: seq<Group>, content: nat,
                  slot: Option<StorageSlot>, now: nat)
    requires GroupTableOk(decode, modem, groups)
    requires slot.Some? ==> InModem(modem, slot.value) && slot.value.fingerprint == content
    requires slot.Some? ==> Holding(groups, GroupSlots, PlaceOf(slot.value)) <= 1
    ensures var (after, p) := Prepare(decode, groups, content, slot, now);
      GroupTableOk(decode, modem, after) && PreparationOk(decode, modem, p)
  {
    hide Feed, Holding, GroupTableOk;
    match decode(content) {
      case Piece(part) => FeedOk(decode, modem, groups, part, slot, now);
      case _ =>
    }
  }

  lemma PrepareHolds(decode: nat -> Decoded, modem: map<Place, nat>, groups: seq<Group>, content: nat,
                     slot: Option<StorageSlot>, now: nat, q: Place)
    requires GroupTableOk(decode, modem, groups)
    requires slot.Some? ==> InModem(modem, slot.value) && slot.value.fingerprint == content
    requires slot.Some? ==> Holding(groups, GroupSlots, PlaceOf(slot.value)) <= 1
    ensures var (after, p) := Prepare(decode, groups, content, slot, now);
      Holding(after, GroupSlots, q) + Count(PreparedSlots(p), q)
      <= if slot.Some? && q == PlaceOf(slot.value) then 1 else Holding(groups, GroupSlots, q)
  {
    assert Count([], q) == 0;
    hide Feed, Holding, GroupTableOk, Count;
    match decode(content) {
      case Piece(part) => FeedHolds(decode, modem, groups, part, slot, now, q);
      case Whole(_) =>
        if slot.Some? {
          CountOne(slot.value, q);
          WholeIsFree(decode, modem, groups, slot.value);
        }
      case Malformed =>
    }
  }

  /** No group holds a place whose content is a whole message. */
  lemma WholeIsFree(decode: nat -> Decoded, modem: map<Place, nat>, groups: seq<Group>, slot: StorageSlot)
    requires GroupTableOk(decode, modem, groups) && InModem(modem, slot) && !decode(slot.fingerprint).Piece?
    ensures Holding(groups, GroupSlots, PlaceOf(slot)) == 0
  {
    forall i | 0 <= i < |groups| ensures Count(GroupSlots(groups[i]), PlaceOf(slot)) == 0 {
      assert GroupOk(decode, modem, groups[i]);
      forall k | 0 <= k < |groups[i].slots| ensures PlaceOf(groups[i].slots[k]) != PlaceOf(slot) {
        assert groups[i].slots[k] in groups[i].slots;
      }
      CountElsewhere(groups[i].slots, PlaceOf(slot));
    }
    HoldingNone(groups, GroupSlots, PlaceOf(slot));
  }
}
