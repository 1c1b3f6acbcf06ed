/** Parts that reassembly refuses, and messages it gives up. */
module ConcatRefusals {
  import opened Common
  import opened Concat

  // ---- What is refused ----

  /** The slot cannot join these: its place is known with other content, or there are 64. */
  ghost predicate SlotRefused(slots: seq<StorageSlot>, slot: StorageSlot) {
    if exists t :: t in slots && SamePlace(t, slot) then slot !in slots else |slots| >= MAX_SLOTS_PER_GROUP
  }

  /** The part contradicts what its message already holds. */
  ghost predicate Contradicts(texts: seq<string>, c: Progress, p: Part, slot: Option<StorageSlot>)
    requires 1 <= p.num <= |texts|
  {
    (p.num - 1 in c.seen && p.text != texts[p.num - 1]) || (slot.Some? && SlotRefused(c.slots, slot.value))
  }

  /** No place is among the slots with two fingerprints. */
  ghost predicate OneEach(slots: seq<StorageSlot>) {
    forall a, b :: a in slots && b in slots && SamePlace(a, b) ==> a == b
  }

  lemma TrackingRefused(g: Group, slot: StorageSlot)
    requires OneEach(g.slots)
    ensures TrackSlot(g, slot).1 <==> !SlotRefused(g.slots, slot)
  {
    var i := Position(g.slots, (s: StorageSlot) => SamePlace(s, slot));
    if i < |g.slots| {
      assert g.slots[i] in g.slots && SamePlace(g.slots[i], slot);
    } else {
      forall t | t in g.slots ensures !SamePlace(t, slot) {
        var j :| 0 <= j < |g.slots| && g.slots[j] == t;
      }
    }
  }

  lemma FedOrRefused(table: seq<Group>, i: nat, texts: seq<string>, c: Progress, p: Part, slot: Option<StorageSlot>)
    requires Collecting(table, i, PartKey(p), texts, c) && WellNumbered(p) && OneEach(c.slots)
    ensures FeedGroup(table, i, p, slot).1 == Invalid <==> Contradicts(texts, c, p, slot)
    ensures Contradicts(texts, c, p, slot) ==> FeedGroup(table, i, p, slot).0 == table
  {
    var g := table[i];
    if slot.Some? { TrackingRefused(g, slot.value); }
    assert g.parts[p.num - 1].Some? <==> p.num - 1 in c.seen;
    hide InsertPart, Assemble, TrackSlot, SlotRefused;
  }

  lemma KnownTotal(table: seq<Group>, i: nat, texts: seq<string>, c: Progress, p: Part)
    requires Collecting(table, i, PartKey(p), texts, c) && WellNumbered(p)
    ensures 1 <= p.num <= |texts|
  {}

  /** A part of a message that is being collected is refused exactly when it contradicts what is
      there, and then the message is collected on as if the part had not come. */
  lemma RefusedExactly(groups: seq<Group>, i: nat, texts: seq<string>, c: Progress, p: Part,
                       slot: Option<StorageSlot>, now: nat) returns (k: nat)
    requires Collecting(groups, i, PartKey(p), texts, c) && Elapsed(c.since, now) <= GROUP_TTL
    requires WellNumbered(p) && OneEach(c.slots)
    ensures 1 <= p.num <= |texts|
    ensures var (after, out) := Feed(groups, p, slot, now);
      && (out == Invalid <==> Contradicts(texts, c, p, slot))
      && (out == Invalid ==> Collecting(after, k, PartKey(p), texts, c))
  {
    hide Located, FeedGroup, Contradicts, Collecting, Elapsed, OneEach, SlotRefused;
    KnownTotal(groups, i, texts, c, p);
    LaterPart(groups, i, p, texts, c, now);
    var (table, at) := Located(groups, p, now);
    FedOrRefused(table, at, texts, c, p, slot);
    k := at;
  }

  /** A part that is numbered outside its message changes nothing. */
  lemma MisnumberedRefused(groups: seq<Group>, p: Part, slot: Option<StorageSlot>, now: nat)
    requires p.num == 0 || p.num > p.total
    ensures Feed(groups, p, slot, now) == (groups, Invalid)
  {}

  // ---- What is given up ----

  /** More than a day after its first part a message is gone from the table. */
  lemma ForgottenAfterDay(groups: seq<Group>, i: nat, key: Key, texts: seq<string>, c: Progress, now: nat)
    requires Collecting(groups, i, key, texts, c) && now > c.since + 86_400
    ensures Absent(Retain(groups, now), key)
  {
    var kept := Retain(groups, now);
    assert Expired(groups[i], now);
    forall j | 0 <= j < |kept| ensures GroupKey(kept[j]) != key {
      RetainMember(groups, now, kept[j]);
      var m :| 0 <= m < |groups| && groups[m] == kept[j];
    }
  }

  /** A part that comes then starts its message over: nothing of the old parts counts. */
  lemma StartsOver(groups: seq<Group>, i: nat, texts: seq<string>, c: Progress, p: Part, now: nat)
    requires Collecting(groups, i, PartKey(p), texts, c) && now > c.since + 86_400
    ensures var (table, k) := Located(groups, p, now);
      Collecting(table, k, PartKey(p), texts, Progress({}, [], now, p.timestamp))
  {
    hide Gathers, Retain, Matches, NewGroup, Oldest, RemoveAt;
    ForgottenAfterDay(groups, i, PartKey(p), texts, c, now);
    TotalOf(groups, i, texts, c, p);
    var kept := Retain(groups, now);
    MatchIsKey(kept, p);
    NewGathers(p, texts, now);
    var others := if |kept| >= MAX_GROUPS then RemoveAt(kept, Oldest(kept)) else kept;
    FewerAbsent(kept, PartKey(p));
    Between(others, NewGroup(p, now), [], PartKey(p), texts, Progress({}, [], now, p.timestamp));
    assert [NewGroup(p, now)] + [] == [NewGroup(p, now)];
  }

  lemma TotalOf(groups: seq<Group>, i: nat, texts: seq<string>, c: Progress, p: Part)
    requires Collecting(groups, i, PartKey(p), texts, c)
    ensures p.total == |texts|
  {}

  lemma FewerAbsent(groups: seq<Group>, key: Key)
    requires Absent(groups, key)
    ensures forall j :: 0 <= j < |groups| ==> Absent(RemoveAt(groups, j), key)
  {
    hide GroupKey;
  }
}
