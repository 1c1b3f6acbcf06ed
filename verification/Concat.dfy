/** Reassembly of concatenated SMS parts. */
module Concat {
  import opened Common

  const MAX_GROUPS: nat := 8
  const MAX_SLOTS_PER_GROUP: nat := 64
  /** Seconds an incomplete group is kept. */
  const GROUP_TTL: nat := 24 * 3600

  /** Modem storage location; the fingerprint identifies what was stored there. */
  datatype StorageSlot = StorageSlot(mem: string, index: nat, fingerprint: nat)

  /** The part of a parsed PDU that reassembly uses. */
  datatype Part = Part(sender: string, refNum: nat, total: nat, num: nat, text: string, timestamp: string)

  datatype Group = Group(sender: string, refNum: nat, total: nat, parts: seq<Option<string>>,
                         received: nat, firstSeen: nat, timestamp: string, slots: seq<StorageSlot>)

  datatype Completed = Completed(sender: string, content: string, timestamp: string, slots: seq<StorageSlot>)

  datatype Outcome = Incomplete | Complete(message: Completed) | Invalid

  predicate SamePlace(a: StorageSlot, b: StorageSlot) {
    a.mem == b.mem && a.index == b.index
  }

  // ---- One group ----

  function NewGroup(p: Part, now: nat): Group {
    Group(p.sender, p.refNum, p.total, seq(p.total, _ => None), 0, now, p.timestamp, [])
  }

  function TrackSlot(g: Group, slot: StorageSlot): (Group, bool) {
    var i := Position(g.slots, (s: StorageSlot) => SamePlace(s, slot));
    if i < |g.slots| then (g, g.slots[i].fingerprint == slot.fingerprint)
    else if |g.slots| >= MAX_SLOTS_PER_GROUP then (g, false)
    else (g.(slots := g.slots + [slot]), true)
  }

  function InsertPart(g: Group, num: nat, text: string): (Group, bool) {
    var i := if num == 0 then 0 else num - 1;
    if i >= |g.parts| then (g, false)
    else
      var h := if g.parts[i].None? then g.(parts := g.parts[i := Some(text)], received := g.received + 1) else g;
      (h, h.received == h.total)
  }

  /** The texts that are present, in part order. */
  function Assemble(parts: seq<Option<string>>): string {
    if parts == [] then ""
    else (match parts[0] case Some(t) => t case None => "") + Assemble(parts[1..])
  }

  function Elapsed(since: nat, now: nat): nat {
    if now >= since then now - since else 0
  }

  predicate Expired(g: Group, now: nat) {
    Elapsed(g.firstSeen, now) > GROUP_TTL
  }

  predicate Matches(g: Group, p: Part) {
    g.sender == p.sender && g.refNum == p.refNum && g.total == p.total
  }

  // ---- The group table ----

  function Retain(groups: seq<Group>, now: nat): seq<Group> {
    if groups == [] then []
    else (if Expired(groups[0], now) then [] else [groups[0]]) + Retain(groups[1..], now)
  }

  lemma RetainStep(groups: seq<Group>, i: nat, now: nat, kept: seq<Group>)
    requires i < |groups|
    ensures kept + Retain(groups[i..], now)
         == (if Expired(groups[i], now) then kept else kept + [groups[i]]) + Retain(groups[i + 1..], now)
  {
    hide Expired;
    assert groups[i..][1..] == groups[i + 1..];
    if Expired(groups[i], now) {
      assert [] + Retain(groups[i + 1..], now) == Retain(groups[i + 1..], now);
    } else {
      Associate(kept, [groups[i]], Retain(groups[i + 1..], now));
    }
  }

  /** Index of the group seen first, the earliest one on a tie. */
  function Oldest(groups: seq<Group>): (i: nat)
    requires groups != []
    ensures i < |groups|
    ensures forall j :: 0 <= j < |groups| ==> groups[i].firstSeen <= groups[j].firstSeen
    ensures forall j :: 0 <= j < i ==> groups[i].firstSeen < groups[j].firstSeen
  {
    var n := |groups| - 1;
    if n == 0 then 0
    else
      var i := Oldest(groups[..n]);
      if groups[n].firstSeen < groups[i].firstSeen then n else i
  }

  /** The table with a fresh group for `p` at the end, the oldest one evicted if it is full. */
  function WithNewGroup(groups: seq<Group>, p: Part, now: nat): seq<Group> {
    (if |groups| >= MAX_GROUPS then RemoveAt(groups, Oldest(groups)) else groups) + [NewGroup(p, now)]
  }

  predicate WellNumbered(p: Part) {
    1 <= p.num <= p.total
  }

  /** The table a part is looked up in, and the index of its group. */
  function Located(groups: seq<Group>, p: Part, now: nat): (r: (seq<Group>, nat))
    ensures r.1 < |r.0| && Matches(r.0[r.1], p)
  {
    var kept := Retain(groups, now);
    var i := Position(kept, (g: Group) => Matches(g, p));
    if i < |kept| then (kept, i)
    else
      var table := WithNewGroup(kept, p, now);
      (table, |table| - 1)
  }

  /** Feeding a part to its group. */
  function FeedGroup(groups: seq<Group>, i: nat, p: Part, slot: Option<StorageSlot>): (seq<Group>, Outcome)
    requires i < |groups| && p.num >= 1
  {
    var g := groups[i];
    if p.num - 1 < |g.parts| && g.parts[p.num - 1].Some? && g.parts[p.num - 1].value != p.text then (groups, Invalid)
    else
      var (tracked, ok) := if slot.Some? then TrackSlot(g, slot.value) else (g, true);
      if !ok then (groups, Invalid)
      else
        var (filled, complete) := InsertPart(tracked, p.num, p.text);
        if complete then
          (RemoveAt(groups, i),
           Complete(Completed(filled.sender, Assemble(filled.parts), filled.timestamp, filled.slots)))
        else (groups[i := filled], Incomplete)
  }

  function Feed(groups: seq<Group>, p: Part, slot: Option<StorageSlot>, now: nat): (seq<Group>, Outcome) {
    if !WellNumbered(p) then (groups, Invalid)
    else
      var (table, i) := Located(groups, p, now);
      FeedGroup(table, i, p, slot)
  }

  // ---- The reassembler ----

  class ConcatReassembler {
    var groups: seq<Group>

    constructor ()
      ensures groups == []
    {
      groups := [];
    }

    method FeedWithSlot(p: Part, slot: Option<StorageSlot>, now: nat) returns (r: Outcome)
      modifies this
      ensures (groups, r) == Feed(old(groups), p, slot, now)
    {
      hide Located, FeedGroup;
      if p.total == 0 || p.num == 0 || p.num > p.total {
        return Invalid;
      }
      var at := Locate(p, now);
      r := FeedAt(at, p, slot);
    }

    /** Drops expired groups, then finds the part's group or makes one, evicting the oldest. */
    method Locate(p: Part, now: nat) returns (at: nat)
      modifies this
      ensures (groups, at) == Located(old(groups), p, now)
    {
      hide Retain, Matches, Oldest, Position, NewGroup, RemoveAt;
      EvictExpired(now);
      at := FindGroup(p);
      if at == |groups| {
        if |groups| >= MAX_GROUPS {
          var oldest := FindOldest();
          groups := RemoveAt(groups, oldest);
        }
        groups := groups + [NewGroup(p, now)];
        at := |groups| - 1;
      }
    }

    method FeedAt(at: nat, p: Part, slot: Option<StorageSlot>) returns (r: Outcome)
      requires at < |groups| && p.num >= 1
      modifies this
      ensures (groups, r) == FeedGroup(old(groups), at, p, slot)
    {
      hide TrackSlot, InsertPart, Assemble, RemoveAt;
      var g := groups[at];
      if p.num - 1 < |g.parts| && g.parts[p.num - 1].Some? && g.parts[p.num - 1].value != p.text {
        return Invalid;
      }
      if slot.Some? {
        var ok;
        g, ok := Track(g, slot.value);
        if !ok {
          return Invalid;
        }
      }
      var complete;
      g, complete := Insert(g, p.num, p.text);
      if complete {
        groups := RemoveAt(groups, at);
        var content := AssembleParts(g.parts);
        return Complete(Completed(g.sender, content, g.timestamp, g.slots));
      }
      groups := groups[at := g];
      return Incomplete;
    }

    static method Track(g: Group, slot: StorageSlot) returns (h: Group, ok: bool)
      ensures (h, ok) == TrackSlot(g, slot)
    {
      for i := 0 to |g.slots|
        invariant forall j :: 0 <= j < i ==> !SamePlace(g.slots[j], slot)
      {
        if SamePlace(g.slots[i], slot) {
          assert Position(g.slots, (s: StorageSlot) => SamePlace(s, slot)) == i;
          return g, g.slots[i].fingerprint == slot.fingerprint;
        }
      }
      if |g.slots| >= MAX_SLOTS_PER_GROUP {
        return g, false;
      }
      return g.(slots := g.slots + [slot]), true;
    }

    static method Insert(g: Group, num: nat, text: string) returns (h: Group, complete: bool)
      ensures (h, complete) == InsertPart(g, num, text)
    {
      var i := if num >= 1 then num - 1 else 0;
      if i >= |g.parts| {
        return g, false;
      }
      h := g;
      if h.parts[i].None? {
        h := h.(parts := h.parts[i := Some(text)], received := h.received + 1);
      }
      complete := h.received == h.total;
    }

    static method AssembleParts(parts: seq<Option<string>>) returns (content: string)
      ensures content == Assemble(parts)
    {
      content := "";
      for i := 0 to |parts|
        invariant content + Assemble(parts[i..]) == Assemble(parts)
      {
        assert parts[i..][1..] == parts[i + 1..];
        if parts[i].Some? {
          Associate(content, parts[i].value, Assemble(parts[i + 1..]));
          content := content + parts[i].value;
        }
      }
    }

    method FindOldest() returns (i: nat)
      requires groups != []
      ensures i == Oldest(groups)
    {
      i := 0;
      for n := 1 to |groups|
        invariant i < n && (forall j :: 0 <= j < n ==> groups[i].firstSeen <= groups[j].firstSeen)
        invariant forall j :: 0 <= j < i ==> groups[i].firstSeen < groups[j].firstSeen
      {
        if groups[n].firstSeen < groups[i].firstSeen {
          i := n;
        }
      }
    }

    method EvictExpired(now: nat)
      modifies this
      ensures groups == Retain(old(groups), now)
    {
      hide Expired;
      var kept := [];
      for i := 0 to |groups|
        invariant groups == old(groups)
        invariant kept + Retain(groups[i..], now) == Retain(old(groups), now)
      {
        RetainStep(groups, i, now, kept);
        if !Expired(groups[i], now) {
          kept := kept + [groups[i]];
        }
      }
      groups := kept;
    }

    method FindGroup(p: Part) returns (at: nat)
      ensures at == Position(groups, (g: Group) => Matches(g, p))
    {
      at := 0;
      while at < |groups| && !Matches(groups[at], p)
        invariant at <= |groups|
        invariant forall j :: 0 <= j < at ==> !Matches(groups[j], p)
      {
        at := at + 1;
      }
    }
  }

  // ---- Any order, any repetition ----

  /** Number of parts present. */
  function CountSome(parts: seq<Option<string>>): (n: nat)
    ensures n <= |parts|
  {
    if parts == [] then 0 else (if parts[0].Some? then 1 else 0) + CountSome(parts[1..])
  }

  lemma {:induction false} CountFull(parts: seq<Option<string>>)
    ensures CountSome(parts) == |parts| <==> forall i :: 0 <= i < |parts| ==> parts[i].Some?
  {
    if parts != [] { CountFull(parts[1..]); }
  }

  lemma {:induction false} CountFill(parts: seq<Option<string>>, i: nat, text: string)
    requires i < |parts| && parts[i].None?
    ensures CountSome(parts[i := Some(text)]) == CountSome(parts) + 1
  {
    var filled := parts[i := Some(text)];
    if i == 0 {
      assert filled[1..] == parts[1..];
    } else {
      assert filled[1..] == parts[1..][i - 1 := Some(text)];
      CountFill(parts[1..], i - 1, text);
    }
  }

  lemma {:induction false} CountNone(n: nat)
    ensures CountSome(seq(n, _ => None)) == 0
  {
    if n > 0 {
      CountNone(n - 1);
      assert seq<Option<string>>(n, _ => None)[1..] == seq<Option<string>>(n - 1, _ => None);
    }
  }

  function Join(texts: seq<string>): string {
    if texts == [] then "" else texts[0] + Join(texts[1..])
  }

  lemma {:induction false} AssembleFull(parts: seq<Option<string>>, texts: seq<string>)
    requires |parts| == |texts| && forall i :: 0 <= i < |parts| ==> parts[i] == Some(texts[i])
    ensures Assemble(parts) == Join(texts)
  {
    if parts != [] { AssembleFull(parts[1..], texts[1..]); }
  }

  /** What the parts of one message have in common. */
  datatype Key = Key(sender: string, refNum: nat, total: nat)

  function PartKey(p: Part): Key {
    Key(p.sender, p.refNum, p.total)
  }

  function GroupKey(g: Group): Key {
    Key(g.sender, g.refNum, g.total)
  }

  /** What a group has gathered: the parts it holds, their slots, and what its first part set. */
  datatype Progress = Progress(seen: set<int>, slots: seq<StorageSlot>, since: nat, timestamp: string)

  /** The group holds, of a message cut into `texts`, exactly the parts in `c.seen`. */
  ghost predicate Gathers(g: Group, texts: seq<string>, c: Progress) {
    && g.total == |texts| == |g.parts| && g.received == CountSome(g.parts)
    && g.slots == c.slots && g.firstSeen == c.since && g.timestamp == c.timestamp
    && forall k :: 0 <= k < |texts| ==> g.parts[k] == if k in c.seen then Some(texts[k]) else None
  }

  /** The table holds the group of this message at index `i` and nowhere else. */
  ghost predicate Collecting(groups: seq<Group>, i: nat, key: Key, texts: seq<string>, c: Progress) {
    && i < |groups| && GroupKey(groups[i]) == key && Gathers(groups[i], texts, c)
    && forall j :: 0 <= j < |groups| && j != i ==> GroupKey(groups[j]) != key
  }

  ghost predicate Absent(groups: seq<Group>, key: Key) {
    forall j :: 0 <= j < |groups| ==> GroupKey(groups[j]) != key
  }

  ghost predicate CoversAll(seen: set<int>, n: nat) {
    forall k: nat :: k < n ==> k in seen
  }

  lemma {:induction false} RetainMember(groups: seq<Group>, now: nat, g: Group)
    requires g in Retain(groups, now)
    ensures g in groups && !Expired(g, now)
  {
    if g !in Retain(groups[1..], now) {
      assert groups[0] == g;
    } else {
      RetainMember(groups[1..], now, g);
    }
  }

  lemma RetainAbsent(groups: seq<Group>, now: nat, key: Key)
    requires Absent(groups, key)
    ensures Absent(Retain(groups, now), key)
  {
    var kept := Retain(groups, now);
    forall j | 0 <= j < |kept| ensures GroupKey(kept[j]) != key {
      RetainMember(groups, now, kept[j]);
    }
  }

  lemma {:induction false} RetainSplit(a: seq<Group>, b: seq<Group>, now: nat)
    ensures Retain(a + b, now) == Retain(a, now) + Retain(b, now)
  {
    hide Expired;
    if a == [] {
      assert a + b == b;
    } else {
      assert (a + b)[1..] == a[1..] + b;
      RetainSplit(a[1..], b, now);
      Associate(if Expired(a[0], now) then [] else [a[0]], Retain(a[1..], now), Retain(b, now));
    }
  }

  lemma RetainOne(g: Group, now: nat)
    requires !Expired(g, now)
    ensures Retain([g], now) == [g]
  {
    hide Expired;
    assert [g][1..] == [];
  }

  /** A live group stays in the table, alone with its key. */
  lemma RetainCollecting(groups: seq<Group>, i: nat, key: Key, texts: seq<string>, c: Progress, now: nat)
    returns (k: nat)
    requires Collecting(groups, i, key, texts, c) && Elapsed(c.since, now) <= GROUP_TTL
    ensures Collecting(Retain(groups, now), k, key, texts, c)
  {
    var a, g, b := groups[..i], groups[i], groups[i + 1..];
    RetainOne(g, now);
    RetainSplit(a, [g] + b, now);
    RetainSplit([g], b, now);
    RetainAbsent(a, now, key);
    RetainAbsent(b, now, key);
    hide Retain, Gathers, Expired, Elapsed;
    assert groups == a + ([g] + b);
    k := |Retain(a, now)|;
    Between(Retain(a, now), g, Retain(b, now), key, texts, c);
  }

  lemma Between(a: seq<Group>, g: Group, b: seq<Group>, key: Key, texts: seq<string>, c: Progress)
    requires Absent(a, key) && Absent(b, key) && GroupKey(g) == key && Gathers(g, texts, c)
    ensures Collecting(a + ([g] + b), |a|, key, texts, c)
  {
    hide Gathers, GroupKey;
  }

  /** Where a part is looked up. */
  lemma MatchIsKey(groups: seq<Group>, p: Part)
    ensures var i := Position(groups, (g: Group) => Matches(g, p));
      && (i < |groups| ==> GroupKey(groups[i]) == PartKey(p))
      && (i == |groups| ==> Absent(groups, PartKey(p)))
  {
    forall j | 0 <= j < |groups| ensures Matches(groups[j], p) == (GroupKey(groups[j]) == PartKey(p)) {}
  }

  lemma NewGathers(p: Part, texts: seq<string>, now: nat)
    requires p.total == |texts|
    ensures GroupKey(NewGroup(p, now)) == PartKey(p)
    ensures Gathers(NewGroup(p, now), texts, Progress({}, [], now, p.timestamp))
  {
    hide CountSome;
    CountNone(|texts|);
  }

  /** The first part opens a group of its own, whatever else the table holds. */
  lemma FirstPart(groups: seq<Group>, p: Part, texts: seq<string>, now: nat)
    requires p.total == |texts| && Absent(groups, PartKey(p))
    ensures var (table, i) := Located(groups, p, now);
      Collecting(table, i, PartKey(p), texts, Progress({}, [], now, p.timestamp))
  {
    hide Retain, Gathers, Oldest, Matches, CountSome, NewGroup;
    RetainAbsent(groups, now, PartKey(p));
    var kept := Retain(groups, now);
    MatchIsKey(kept, p);
    NewGathers(p, texts, now);
    var others := if |kept| >= MAX_GROUPS then RemoveAt(kept, Oldest(kept)) else kept;
    Between(others, NewGroup(p, now), [], PartKey(p), texts, Progress({}, [], now, p.timestamp));
    assert [NewGroup(p, now)] + [] == [NewGroup(p, now)];
  }

  lemma LaterPart(groups: seq<Group>, i: nat, p: Part, texts: seq<string>, c: Progress, now: nat)
    requires Collecting(groups, i, PartKey(p), texts, c) && Elapsed(c.since, now) <= GROUP_TTL
    ensures var (table, k) := Located(groups, p, now); Collecting(table, k, PartKey(p), texts, c)
  {
    var k := RetainCollecting(groups, i, PartKey(p), texts, c, now);
    MatchIsKey(Retain(groups, now), p);
    hide Retain, Gathers, Matches, WithNewGroup;
  }

  // ---- Slots ----

  /** Slots that one message can be stored in: one fingerprint for each place, at most 64. */
  ghost predicate Coherent(all: set<StorageSlot>) {
    |all| <= MAX_SLOTS_PER_GROUP && forall a, b :: a in all && b in all && SamePlace(a, b) ==> a == b
  }

  function SlotSet(slots: seq<StorageSlot>): set<StorageSlot> {
    set s | s in slots
  }

  ghost predicate Tracked(slots: seq<StorageSlot>, all: set<StorageSlot>) {
    SlotSet(slots) <= all && |SlotSet(slots)| == |slots|
  }

  lemma SlotJoins(slots: seq<StorageSlot>, slot: StorageSlot, all: set<StorageSlot>)
    requires Tracked(slots, all) && slot in all && slot !in slots
    ensures |slots| < |all| && Tracked(slots + [slot], all) && SlotSet(slots + [slot]) == SlotSet(slots) + {slot}
  {
    assert SlotSet(slots + [slot]) == SlotSet(slots) + {slot};
    Larger(SlotSet(slots) + {slot}, all);
  }

  lemma {:induction false} Larger<T>(a: set<T>, b: set<T>)
    requires a <= b
    ensures |a| <= |b|
    decreases |a|
  {
    if a != {} {
      var x :| x in a;
      Larger(a - {x}, b - {x});
    }
  }

  /** A slot of a coherent set is tracked, once. */
  lemma TrackJoins(g: Group, slot: StorageSlot, all: set<StorageSlot>)
    requires Coherent(all) && Tracked(g.slots, all) && slot in all
    ensures var (h, ok) := TrackSlot(g, slot);
      ok && h == g.(slots := h.slots) && Tracked(h.slots, all) && SlotSet(h.slots) == SlotSet(g.slots) + {slot}
  {
    hide Tracked;
    var i := Position(g.slots, (s: StorageSlot) => SamePlace(s, slot));
    InSet(g.slots, all);
    if i < |g.slots| {
      assert SamePlace(g.slots[i], slot) && g.slots[i] in all;
      assert SlotSet(g.slots) == SlotSet(g.slots) + {slot};
    } else {
      assert slot !in g.slots;
      SlotJoins(g.slots, slot, all);
    }
  }

  lemma InSet(slots: seq<StorageSlot>, all: set<StorageSlot>)
    requires Tracked(slots, all)
    ensures forall i :: 0 <= i < |slots| ==> slots[i] in all
  {
    forall i | 0 <= i < |slots| ensures slots[i] in all { assert slots[i] in SlotSet(slots); }
  }

  function One(slot: Option<StorageSlot>): set<StorageSlot> {
    if slot.Some? then {slot.value} else {}
  }

  // ---- One part ----

  /** Filling part `k` of a group that holds exactly the parts in `c.seen`. */
  lemma FillGroup(g: Group, texts: seq<string>, c: Progress, k: nat)
    requires Gathers(g, texts, c) && k < |texts|
    ensures var (filled, complete) := InsertPart(g, k + 1, texts[k]);
      && complete == CoversAll(c.seen + {k}, |texts|)
      && (complete ==> Assemble(filled.parts) == Join(texts))
      && Gathers(filled, texts, c.(seen := c.seen + {k})) && GroupKey(filled) == GroupKey(g)
  {
    hide CountSome, Assemble, Join;
    var (filled, complete) := InsertPart(g, k + 1, texts[k]);
    if g.parts[k].None? { CountFill(g.parts, k, texts[k]); }
    CountFull(filled.parts);
    forall j: nat | j < |texts| ensures filled.parts[j] == if j in c.seen + {k} then Some(texts[j]) else None {}
    if CoversAll(c.seen + {k}, |texts|) {
      forall j: nat | j < |texts| ensures filled.parts[j] == Some(texts[j]) { assert j in c.seen + {k}; }
      AssembleFull(filled.parts, texts);
    } else {
      var j: nat :| j < |texts| && j !in c.seen + {k};
      assert filled.parts[j].None?;
    }
  }

  lemma Replaced(table: seq<Group>, i: nat, g: Group, key: Key, texts: seq<string>, c: Progress, d: Progress)
    requires Collecting(table, i, key, texts, c) && GroupKey(g) == key && Gathers(g, texts, d)
    ensures Collecting(table[i := g], i, key, texts, d)
  {
    hide Gathers, GroupKey;
  }

  lemma Removed(table: seq<Group>, i: nat, key: Key, texts: seq<string>, c: Progress)
    requires Collecting(table, i, key, texts, c)
    ensures Absent(RemoveAt(table, i), key)
  {
    hide Gathers, GroupKey;
  }

  /** The parts of a message carry its texts; the others are other messages'. */
  predicate Faithful(p: Part, key: Key, texts: seq<string>) {
    PartKey(p) == key ==> 1 <= p.num <= |texts| == p.total && p.text == texts[p.num - 1]
  }

  /** One part into its group: the message when it was the last one missing, else progress. */
  lemma FeedCollecting(table: seq<Group>, i: nat, texts: seq<string>, c: Progress, p: Part, slot: Option<StorageSlot>,
                       all: set<StorageSlot>) returns (d: Progress)
    requires Collecting(table, i, PartKey(p), texts, c) && Faithful(p, PartKey(p), texts)
    requires Coherent(all) && Tracked(c.slots, all) && One(slot) <= all
    ensures d == c.(seen := c.seen + {p.num - 1}, slots := d.slots)
    ensures Tracked(d.slots, all) && SlotSet(d.slots) == SlotSet(c.slots) + One(slot)
    ensures var (after, out) := FeedGroup(table, i, p, slot);
      if CoversAll(d.seen, |texts|) then
        out == Complete(Completed(p.sender, Join(texts), c.timestamp, d.slots)) && Absent(after, PartKey(p))
      else
        out == Incomplete && Collecting(after, i, PartKey(p), texts, d)
  {
    hide Coherent, Tracked, SlotSet, CoversAll, Join, Assemble, CountSome, RemoveAt;
    var g := table[i];
    if slot.Some? { TrackJoins(g, slot.value, all); } else { assert SlotSet(c.slots) == SlotSet(c.slots) + {}; }
    var h := if slot.Some? then TrackSlot(g, slot.value).0 else g;
    d := c.(seen := c.seen + {p.num - 1}, slots := h.slots);
    TrackedGathers(g, h, texts, c);
    FillGroup(h, texts, c.(slots := h.slots), p.num - 1);
    var filled := InsertPart(h, p.num, p.text).0;
    Replaced(table, i, filled, PartKey(p), texts, c, d);
    Removed(table, i, PartKey(p), texts, c);
    hide TrackSlot, InsertPart, Collecting;
    NoConflict(g, texts, c, p);
  }

  lemma TrackedGathers(g: Group, h: Group, texts: seq<string>, c: Progress)
    requires Gathers(g, texts, c) && h == g.(slots := h.slots)
    ensures Gathers(h, texts, c.(slots := h.slots)) && GroupKey(h) == GroupKey(g)
  {}

  lemma NoConflict(g: Group, texts: seq<string>, c: Progress, p: Part)
    requires Gathers(g, texts, c) && 1 <= p.num <= |texts| && p.text == texts[p.num - 1]
    ensures p.num - 1 < |g.parts| && (g.parts[p.num - 1].Some? ==> g.parts[p.num - 1].value == p.text)
  {}

  // ---- Parts of other messages ----

  /** Feeding another group leaves this one as it is. */
  lemma FeedOther(table: seq<Group>, k: nat, at: nat, key: Key, texts: seq<string>, c: Progress, p: Part,
                  slot: Option<StorageSlot>) returns (m: nat)
    requires Collecting(table, k, key, texts, c) && at < |table| && at != k && p.num >= 1
    ensures Collecting(FeedGroup(table, at, p, slot).0, m, key, texts, c)
  {
    var g := table[at];
    var h := if slot.Some? then TrackSlot(g, slot.value).0 else g;
    var filled := InsertPart(h, p.num, p.text).0;
    assert GroupKey(filled) == GroupKey(g);
    hide TrackSlot, InsertPart, Gathers, GroupKey, Assemble;
    var after := FeedGroup(table, at, p, slot).0;
    assert after == table || after == table[at := filled] || after == RemoveAt(table, at);
    m := if |after| == |table| || k < at then k else k - 1;
  }

  /** The part finds its group, there is room to open one, or another group than this message's
      is the oldest and gives way. */
  predicate Spares(groups: seq<Group>, p: Part, key: Key, now: nat) {
    var kept := Retain(groups, now);
    || |kept| < MAX_GROUPS
    || (exists j :: 0 <= j < |kept| && Matches(kept[j], p))
    || GroupKey(kept[Oldest(kept)]) != key
  }

  lemma RemovedOther(table: seq<Group>, k: nat, at: nat, key: Key, texts: seq<string>, c: Progress)
    requires Collecting(table, k, key, texts, c) && at < |table| && at != k
    ensures Collecting(RemoveAt(table, at), if k < at then k else k - 1, key, texts, c)
  {
    hide Gathers, GroupKey;
  }

  lemma AppendedOther(table: seq<Group>, k: nat, g: Group, key: Key, texts: seq<string>, c: Progress)
    requires Collecting(table, k, key, texts, c) && GroupKey(g) != key
    ensures Collecting(table + [g], k, key, texts, c)
  {
    hide Gathers, GroupKey;
  }

  /** Looking up a part of another message. */
  lemma LocatedOther(groups: seq<Group>, i: nat, key: Key, texts: seq<string>, c: Progress, p: Part, now: nat)
    returns (k: nat)
    requires Collecting(groups, i, key, texts, c) && PartKey(p) != key
    requires Elapsed(c.since, now) <= GROUP_TTL && Spares(groups, p, key, now)
    ensures var (table, at) := Located(groups, p, now); at != k && Collecting(table, k, key, texts, c)
  {
    k := RetainCollecting(groups, i, key, texts, c, now);
    var kept := Retain(groups, now);
    MatchIsKey(kept, p);
    assert GroupKey(NewGroup(p, now)) == PartKey(p);
    NoMatch(kept, p);
    hide Retain, Matches, Gathers, GroupKey, NewGroup, Oldest, RemoveAt;
    if Position(kept, (g: Group) => Matches(g, p)) == |kept| {
      if |kept| < MAX_GROUPS {
        AppendedOther(kept, k, NewGroup(p, now), key, texts, c);
      } else {
        var o := Oldest(kept);
        RemovedOther(kept, k, o, key, texts, c);
        k := if k < o then k else k - 1;
        AppendedOther(RemoveAt(kept, o), k, NewGroup(p, now), key, texts, c);
      }
    }
  }

  lemma NoMatch(groups: seq<Group>, p: Part)
    ensures (exists j :: 0 <= j < |groups| && Matches(groups[j], p))
       <==> Position(groups, (g: Group) => Matches(g, p)) < |groups|
  {
    hide Matches;
    var i := Position(groups, (g: Group) => Matches(g, p));
    if i < |groups| { assert Matches(groups[i], p); }
  }

  /** Otherwise this message's group is the one that gives way. */
  lemma NotSparedIsEvicted(groups: seq<Group>, i: nat, key: Key, texts: seq<string>, c: Progress, p: Part,
                           slot: Option<StorageSlot>, now: nat)
    requires Collecting(groups, i, key, texts, c) && PartKey(p) != key && WellNumbered(p)
    requires Elapsed(c.since, now) <= GROUP_TTL && !Spares(groups, p, key, now)
    ensures Absent(Feed(groups, p, slot, now).0, key)
  {
    var k := RetainCollecting(groups, i, key, texts, c, now);
    var kept := Retain(groups, now);
    NoMatch(kept, p);
    assert GroupKey(NewGroup(p, now)) == PartKey(p);
    hide Retain, Matches, Gathers, GroupKey, NewGroup, Oldest, RemoveAt;
    assert Oldest(kept) == k;
    Removed(kept, k, key, texts, c);
    var others := RemoveAt(kept, k);
    var (table, at) := Located(groups, p, now);
    assert table == others + [NewGroup(p, now)] && at == |others|;
    AbsentFed(table, at, key, p, slot);
  }

  /** Feeding a group leaves the keys of the table as they are, or takes one away. */
  lemma AbsentFed(table: seq<Group>, at: nat, key: Key, p: Part, slot: Option<StorageSlot>)
    requires Absent(table, key) && at < |table| && p.num >= 1
    ensures Absent(FeedGroup(table, at, p, slot).0, key)
  {
    FedKey(table[at], p, slot);
    hide TrackSlot, InsertPart, GroupKey, Assemble;
  }

  lemma FedKey(g: Group, p: Part, slot: Option<StorageSlot>)
    ensures var h := if slot.Some? then TrackSlot(g, slot.value).0 else g;
      GroupKey(InsertPart(h, p.num, p.text).0) == GroupKey(g)
  {}

  lemma OtherPart(groups: seq<Group>, i: nat, key: Key, texts: seq<string>, c: Progress, p: Part,
                  slot: Option<StorageSlot>, now: nat) returns (m: nat)
    requires Collecting(groups, i, key, texts, c) && PartKey(p) != key
    requires Elapsed(c.since, now) <= GROUP_TTL && (WellNumbered(p) ==> Spares(groups, p, key, now))
    ensures Collecting(Feed(groups, p, slot, now).0, m, key, texts, c)
  {
    hide Collecting, Elapsed, Located, FeedGroup, Spares;
    m := i;
    if WellNumbered(p) {
      var k := LocatedOther(groups, i, key, texts, c, p, now);
      var (table, at) := Located(groups, p, now);
      m := FeedOther(table, k, at, key, texts, c, p, slot);
    }
  }

  // ---- A whole feed ----

  datatype Arrival = Arrival(part: Part, slot: Option<StorageSlot>, now: nat)

  function FeedAll(groups: seq<Group>, feed: seq<Arrival>): (seq<Group>, seq<Outcome>)
    decreases |feed|
  {
    if feed == [] then (groups, [])
    else
      var (g, out) := Feed(groups, feed[0].part, feed[0].slot, feed[0].now);
      var (rest, outs) := FeedAll(g, feed[1..]);
      (rest, [out] + outs)
  }

  predicate IsOf(a: Arrival, key: Key) {
    PartKey(a.part) == key
  }

  /** Parts of the message among the arrivals, by index, and the slots they were stored in. */
  function Seen(feed: seq<Arrival>, key: Key): set<int> {
    set a | a in feed && IsOf(a, key) :: a.part.num - 1
  }

  function Slots(feed: seq<Arrival>, key: Key): set<StorageSlot> {
    set a | a in feed && IsOf(a, key) && a.slot.Some? :: a.slot.value
  }

  lemma FirstArrival(feed: seq<Arrival>, key: Key)
    requires feed != []
    ensures Seen(feed, key) == (if IsOf(feed[0], key) then {feed[0].part.num - 1} else {}) + Seen(feed[1..], key)
    ensures Slots(feed, key) == (if IsOf(feed[0], key) then One(feed[0].slot) else {}) + Slots(feed[1..], key)
  {
    hide IsOf;
    assert forall a :: a in feed <==> a == feed[0] || a in feed[1..];
  }

  ghost predicate AllFaithful(feed: seq<Arrival>, key: Key, texts: seq<string>) {
    forall j :: 0 <= j < |feed| ==> Faithful(feed[j].part, key, texts)
  }

  ghost predicate Timely(feed: seq<Arrival>, since: nat) {
    forall j :: 0 <= j < |feed| ==> Elapsed(since, feed[j].now) <= GROUP_TTL
  }

  /** No part of another message pushes this message's group out. */
  ghost predicate Uncrowded(groups: seq<Group>, feed: seq<Arrival>, key: Key)
    decreases |feed|
  {
    feed == [] ||
    var a := feed[0];
    && (IsOf(a, key) || (WellNumbered(a.part) ==> Spares(groups, a.part, key, a.now)))
    && Uncrowded(Feed(groups, a.part, a.slot, a.now).0, feed[1..], key)
  }

  /** The feed brings every part still missing, its last arrival being the last of them. */
  ghost predicate CompletesAtEnd(feed: seq<Arrival>, key: Key, seen: set<int>) {
    && feed != []
    && CoversAll(seen + Seen(feed, key), key.total)
    && !CoversAll(seen + Seen(feed[..|feed| - 1], key), key.total)
  }

  /** The last outcome delivers the message with its slots, each once; no part before it does. */
  ghost predicate DeliversAtEnd(feed: seq<Arrival>, outs: seq<Outcome>, key: Key, content: string, timestamp: string,
                                slots: set<StorageSlot>) {
    && |outs| == |feed| > 0
    && (forall j :: 0 <= j < |outs| - 1 && IsOf(feed[j], key) ==> outs[j] == Incomplete)
    && var last := outs[|outs| - 1];
    && last.Complete? && last.message.sender == key.sender && last.message.content == content
    && last.message.timestamp == timestamp
    && SlotSet(last.message.slots) == slots && |slots| == |last.message.slots|
  }

  lemma DeliversLater(feed: seq<Arrival>, out: Outcome, outs: seq<Outcome>, key: Key, content: string,
                      timestamp: string,
                      slots: set<StorageSlot>)
    requires feed != [] && DeliversAtEnd(feed[1..], outs, key, content, timestamp, slots)
    requires IsOf(feed[0], key) ==> out == Incomplete
    ensures DeliversAtEnd(feed, [out] + outs, key, content, timestamp, slots)
  {
    hide IsOf, SlotSet;
  }

  lemma SeenGrows(seen: set<int>, more: set<int>, n: nat)
    requires !CoversAll(seen + more, n)
    ensures !CoversAll(seen, n)
  {
    var k: nat :| k < n && k !in seen + more;
  }

  lemma TailCompletes(feed: seq<Arrival>, key: Key, seen: set<int>)
    requires |feed| > 1 && CompletesAtEnd(feed, key, seen)
    ensures var now := if IsOf(feed[0], key) then seen + {feed[0].part.num - 1} else seen;
      CompletesAtEnd(feed[1..], key, now) && !CoversAll(now, key.total)
  {
    hide CoversAll, IsOf, Seen;
    var now := if IsOf(feed[0], key) then seen + {feed[0].part.num - 1} else seen;
    var tail, init := feed[1..], feed[..|feed| - 1];
    FirstArrival(feed, key);
    FirstArrival(init, key);
    assert init[1..] == tail[..|tail| - 1];
    assert seen + Seen(feed, key) == now + Seen(tail, key);
    assert seen + Seen(init, key) == now + Seen(init[1..], key);
    SeenGrows(now, Seen(init[1..], key), key.total);
  }

  /** The last arrival is the missing part. */
  lemma LastCompletes(feed: seq<Arrival>, key: Key, seen: set<int>)
    requires |feed| == 1 && CompletesAtEnd(feed, key, seen)
    ensures IsOf(feed[0], key) && CoversAll(seen + {feed[0].part.num - 1}, key.total)
  {
    FirstArrival(feed, key);
    assert feed[1..] == [] && feed[..0] == [];
    assert Seen([], key) == {};
    hide CoversAll, IsOf, Seen;
    assert seen + Seen(feed, key) == seen + (if IsOf(feed[0], key) then {feed[0].part.num - 1} else {});
  }

  lemma {:induction false} RunDelivers(groups: seq<Group>, i: nat, key: Key, texts: seq<string>, c: Progress,
                                       feed: seq<Arrival>, all: set<StorageSlot>)
    requires Collecting(groups, i, key, texts, c) && AllFaithful(feed, key, texts) && Timely(feed, c.since)
    requires feed != [] && Uncrowded(groups, feed, key) && CompletesAtEnd(feed, key, c.seen)
    requires Coherent(all) && Tracked(c.slots, all) && Slots(feed, key) <= all
    ensures var (after, outs) := FeedAll(groups, feed);
      && DeliversAtEnd(feed, outs, key, Join(texts), c.timestamp, SlotSet(c.slots) + Slots(feed, key))
      && Absent(after, key)
    decreases |feed|, 1
  {
    hide Collecting, Coherent, Tracked, CompletesAtEnd, Slots, SlotSet, DeliversAtEnd, Absent, Feed, Join,
         Spares, WellNumbered;
    var a := feed[0];
    if IsOf(a, key) {
      LaterPart(groups, i, a.part, texts, c, a.now);
      PartDelivers(groups, key, texts, c, feed, all);
    } else {
      if |feed| == 1 { LastCompletes(feed, key, c.seen); }
      TailCompletes(feed, key, c.seen);
      var m := OtherPart(groups, i, key, texts, c, a.part, a.slot, a.now);
      var (after, out) := Feed(groups, a.part, a.slot, a.now);
      FirstArrival(feed, key);
      assert {} + Slots(feed[1..], key) == Slots(feed[1..], key);
      RunDelivers(after, m, key, texts, c, feed[1..], all);
      DeliversLater(feed, out, FeedAll(after, feed[1..]).1, key, Join(texts), c.timestamp,
                    SlotSet(c.slots) + Slots(feed, key));
    }
  }

  /** A part of the message has found its group. */
  lemma {:induction false} PartDelivers(groups: seq<Group>, key: Key, texts: seq<string>, c: Progress,
                                       feed: seq<Arrival>,
                                        all: set<StorageSlot>)
    requires feed != [] && IsOf(feed[0], key) && AllFaithful(feed, key, texts) && Timely(feed, c.since)
    requires var (table, k) := Located(groups, feed[0].part, feed[0].now); Collecting(table, k, key, texts, c)
    requires Uncrowded(groups, feed, key) && CompletesAtEnd(feed, key, c.seen)
    requires Coherent(all) && Tracked(c.slots, all) && Slots(feed, key) <= all
    ensures var (after, outs) := FeedAll(groups, feed);
      && DeliversAtEnd(feed, outs, key, Join(texts), c.timestamp, SlotSet(c.slots) + Slots(feed, key))
      && Absent(after, key)
    decreases |feed|, 0
  {
    hide Collecting, Coherent, CoversAll, CompletesAtEnd, Slots, SlotSet, DeliversAtEnd, Absent, Join, Spares, Located,
         FeedGroup, Tracked;
    var a := feed[0];
    var (table, k) := Located(groups, a.part, a.now);
    FirstArrival(feed, key);
    var d := FeedCollecting(table, k, texts, c, a.part, a.slot, all);
    var (after, out) := Feed(groups, a.part, a.slot, a.now);
    SlotsAdd(SlotSet(c.slots), One(a.slot), Slots(feed[1..], key));
    if |feed| == 1 {
      LastCompletes(feed, key, c.seen);
      DeliveredLast(feed, out, key, Join(texts), c.timestamp, d.slots, all);
      assert FeedAll(after, feed[1..]) == (after, []) && [out] + [] == [out];
      assert SlotSet(c.slots) + Slots(feed, key) == SlotSet(d.slots) by { NoSlots(feed[1..], key); }
    } else {
      TailCompletes(feed, key, c.seen);
      RunDelivers(after, k, key, texts, d, feed[1..], all);
      DeliversLater(feed, out, FeedAll(after, feed[1..]).1, key, Join(texts), c.timestamp,
                    SlotSet(c.slots) + Slots(feed, key));
    }
  }

  lemma SlotsAdd<T>(a: set<T>, b: set<T>, c: set<T>)
    ensures a + (b + c) == a + b + c
  {}

  lemma NoSlots(feed: seq<Arrival>, key: Key)
    requires feed == []
    ensures Slots(feed, key) == {}
  {}

  lemma DeliveredLast(feed: seq<Arrival>, out: Outcome, key: Key, content: string, timestamp: string,
                      slots: seq<StorageSlot>, all: set<StorageSlot>)
    requires |feed| == 1 && out == Complete(Completed(key.sender, content, timestamp, slots)) && Tracked(slots, all)
    ensures DeliversAtEnd(feed, [out], key, content, timestamp, SlotSet(slots))
  {
    hide SlotSet;
  }

  /** Parts may arrive in any order and with repeats, between parts of other messages and
      whatever other groups exist: the message is delivered exactly when the last missing part
      arrives, whole and in part order, with the slots of all its parts. */
  lemma {:induction false} AnyOrderDelivers(groups: seq<Group>, key: Key, texts: seq<string>, feed: seq<Arrival>)
    requires feed != [] && IsOf(feed[0], key) && AllFaithful(feed, key, texts) && Timely(feed, feed[0].now)
    requires Absent(groups, key) && Uncrowded(groups, feed, key) && CompletesAtEnd(feed, key, {})
    requires Coherent(Slots(feed, key))
    ensures var (after, outs) := FeedAll(groups, feed);
      && DeliversAtEnd(feed, outs, key, Join(texts), feed[0].part.timestamp, Slots(feed, key))
      && Absent(after, key)
  {
    hide Collecting, Coherent, CoversAll, CompletesAtEnd, Slots, DeliversAtEnd, Absent, Join, Spares, Located,
         FeedGroup, Uncrowded, Timely, FeedAll;
    var a := feed[0];
    FirstPart(groups, a.part, texts, a.now);
    assert SlotSet([]) + Slots(feed, key) == Slots(feed, key);
    PartDelivers(groups, key, texts, Progress({}, [], a.now, a.part.timestamp), feed, Slots(feed, key));
  }
}
