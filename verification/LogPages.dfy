/** Bounded reads of the event log: the newest headers, pages, the newest entry of
    one kind, and the walk along "Older" buttons. */
module LogPages {
  import opened Common
  import opened LogPayload
  import opened RingCells
  import opened FlashRecord
  import opened FlashLog

  const PAGE_SIZE: nat := 16

  // ---- Sorted header lists ----

  ghost predicate StrictlySorted(hs: seq<Header>) {
    forall i, j :: 0 <= i < j < |hs| ==> hs[i].seqNo < hs[j].seqNo
  }

  ghost predicate Sorted(hs: seq<Header>) {
    forall i, j :: 0 <= i < j < |hs| ==> hs[i].seqNo <= hs[j].seqNo
  }

  /** Where a binary search for `key` ends: the number of smaller keys. */
  function Rank(hs: seq<Header>, key: nat): (p: nat)
    ensures p <= |hs|
  {
    if hs == [] then 0 else (if hs[0].seqNo < key then 1 else 0) + Rank(hs[1..], key)
  }

  function InsertAt<T>(xs: seq<T>, p: nat, x: T): seq<T>
    requires p <= |xs|
  {
    xs[..p] + [x] + xs[p..]
  }

  function Insert(hs: seq<Header>, h: Header): seq<Header> {
    InsertAt(hs, Rank(hs, h.seqNo), h)
  }

  /** One step of the bounded scan: at most `limit` elements, the first dropped first. */
  function InsertBounded<T>(xs: seq<T>, p: nat, x: T, limit: nat): seq<T>
    requires p <= |xs|
  {
    if |xs| < limit then InsertAt(xs, p, x)
    else if p > 0 then InsertAt(xs[1..], p - 1, x)
    else xs
  }

  function InsertNewest(hs: seq<Header>, h: Header, limit: nat): seq<Header> {
    InsertBounded(hs, Rank(hs, h.seqNo), h, limit)
  }

  function Last<T>(xs: seq<T>, k: nat): seq<T> {
    if |xs| <= k then xs else xs[|xs| - k..]
  }

  lemma {:induction false} RankIs(hs: seq<Header>, key: nat, p: nat)
    requires p <= |hs|
    requires forall i :: 0 <= i < p ==> hs[i].seqNo < key
    requires forall i :: p <= i < |hs| ==> hs[i].seqNo >= key
    ensures Rank(hs, key) == p
  {
    if hs != [] { RankIs(hs[1..], key, if p == 0 then 0 else p - 1); }
  }

  lemma {:induction false} RankSplits(hs: seq<Header>, key: nat)
    requires Sorted(hs)
    ensures var p := Rank(hs, key);
      && (forall i :: 0 <= i < p ==> hs[i].seqNo < key)
      && (forall i :: p <= i < |hs| ==> hs[i].seqNo >= key)
  {
    if hs != [] {
      RankSplits(hs[1..], key);
      var p := Rank(hs[1..], key);
      if p == 0 && |hs| > 1 && hs[0].seqNo < key {}
      if hs[0].seqNo >= key {
        assert forall i :: 0 <= i < |hs| ==> hs[i].seqNo >= key;
        RankIs(hs, key, 0);
      }
    }
  }

  /** Keeping the newest `limit` while inserting is inserting and then keeping the newest `limit`. */
  lemma NewestOfInsert(hs: seq<Header>, h: Header, limit: nat)
    requires Sorted(hs)
    ensures Last(Insert(hs, h), limit) == InsertNewest(Last(hs, limit), h, limit)
  {
    hide Rank, InsertBounded, InsertAt, Sorted;
    var d := Max(|hs| - limit, 0);
    RankOfTail(hs, h.seqNo, d);
    InsertKeepsLast(hs, Rank(hs, h.seqNo), h, limit);
    assert Last(hs, limit) == hs[d..];
  }

  lemma RankOfTail(hs: seq<Header>, key: nat, d: nat)
    requires Sorted(hs) && d <= |hs|
    ensures var p := Rank(hs, key); Rank(hs[d..], key) == if p <= d then 0 else p - d
  {
    hide Rank;
    RankSplits(hs, key);
    RankIs(hs[d..], key, if Rank(hs, key) <= d then 0 else Rank(hs, key) - d);
  }

  lemma InsertKeepsLast<T>(xs: seq<T>, p: nat, x: T, limit: nat)
    requires p <= |xs|
    ensures var d := Max(|xs| - limit, 0);
      Last(InsertAt(xs, p, x), limit) == InsertBounded(xs[d..], if p <= d then 0 else p - d, x, limit)
  {
    hide InsertAt;
    if |xs| < limit {
      InsertedTail(xs, p, x, 0);
      assert xs[0..] == xs;
    } else {
      var d := |xs| - limit;
      InsertedTail(xs, p, x, d);
      assert |xs[d..]| == limit;
      assert Last(InsertAt(xs, p, x), limit) == InsertAt(xs, p, x)[d + 1..];
    }
  }

  lemma InsertedTail<T>(xs: seq<T>, p: nat, x: T, d: nat)
    requires p <= |xs| && d <= |xs|
    ensures |InsertAt(xs, p, x)| == |xs| + 1
    ensures p <= d ==> InsertAt(xs, p, x)[d + 1..] == xs[d..]
    ensures p > d ==> InsertAt(xs, p, x)[d + 1..] == InsertAt(xs[d..][1..], p - d - 1, x)
  {
    if p > d {
      assert xs[d..][1..] == xs[d + 1..];
      assert xs[d + 1..][..p - d - 1] == xs[d + 1..p];
      assert xs[d + 1..][p - d - 1..] == xs[p..];
      assert InsertAt(xs, p, x) == xs[..d + 1] + (xs[d + 1..p] + [x] + xs[p..]);
    }
  }

  lemma InsertSorted(hs: seq<Header>, h: Header)
    requires Sorted(hs)
    ensures Sorted(Insert(hs, h))
    ensures StrictlySorted(hs) && (forall i :: 0 <= i < |hs| ==> hs[i].seqNo != h.seqNo) ==>
              StrictlySorted(Insert(hs, h))
    ensures forall x :: x in Insert(hs, h) <==> x in hs || x == h
  {
    hide Rank, InsertAt;
    var p := Rank(hs, h.seqNo);
    RankSplits(hs, h.seqNo);
    SortedInsertAt(hs, p, h);
    InsertedMembers(hs, p, h);
  }

  lemma InsertedAt<T>(xs: seq<T>, p: nat, x: T, i: nat)
    requires p <= |xs| && i <= |xs|
    ensures |InsertAt(xs, p, x)| == |xs| + 1
    ensures InsertAt(xs, p, x)[i] == if i < p then xs[i] else if i == p then x else xs[i - 1]
  {}

  lemma InsertedMembers<T>(xs: seq<T>, p: nat, x: T)
    requires p <= |xs|
    ensures forall y :: y in InsertAt(xs, p, x) <==> y in xs || y == x
  {
    assert xs == xs[..p] + xs[p..];
  }

  lemma SortedInsertAt(hs: seq<Header>, p: nat, h: Header)
    requires Sorted(hs) && p <= |hs|
    requires forall i :: 0 <= i < p ==> hs[i].seqNo < h.seqNo
    requires forall i :: p <= i < |hs| ==> h.seqNo <= hs[i].seqNo
    ensures Sorted(InsertAt(hs, p, h))
    ensures StrictlySorted(hs) && (forall i :: 0 <= i < |hs| ==> hs[i].seqNo != h.seqNo) ==>
              StrictlySorted(InsertAt(hs, p, h))
  {
    hide InsertAt;
    var r := InsertAt(hs, p, h);
    InsertedAt(hs, p, h, 0);
    forall i, j | 0 <= i < j < |r| ensures r[i].seqNo <= r[j].seqNo {
      InsertedAt(hs, p, h, i);
      InsertedAt(hs, p, h, j);
    }
    if StrictlySorted(hs) && (forall i :: 0 <= i < |hs| ==> hs[i].seqNo != h.seqNo) {
      forall i, j | 0 <= i < j < |r| ensures r[i].seqNo < r[j].seqNo {
        InsertedAt(hs, p, h, i);
        InsertedAt(hs, p, h, j);
      }
    }
  }

  // ---- Scanning the slots ----

  /** All headers, sorted by sequence number. */
  function SortedHeaders<P>(cells: seq<Cell<P>>): seq<Header> {
    if cells == [] then []
    else
      var n := |cells| - 1;
      var before := SortedHeaders(cells[..n]);
      if cells[n].Rec? then Insert(before, Header(cells[n].meta.seqNo, n)) else before
  }

  /** `newest_record_headers`: one pass that never holds more than `limit` headers. */
  function NewestHeaders<P>(cells: seq<Cell<P>>, limit: nat): seq<Header> {
    if cells == [] then []
    else
      var n := |cells| - 1;
      var before := NewestHeaders(cells[..n], limit);
      if cells[n].Rec? then InsertNewest(before, Header(cells[n].meta.seqNo, n), limit) else before
  }

  ghost predicate DistinctSeqs<P>(cells: seq<Cell<P>>) {
    forall i, j :: 0 <= i < j < |cells| && cells[i].Rec? && cells[j].Rec? ==> cells[i].meta.seqNo != cells[j].meta.seqNo
  }

  /** `h` names a readable slot by its own sequence number. */
  ghost predicate Names<P>(cells: seq<Cell<P>>, h: Header) {
    h.slot < |cells| && cells[h.slot].Rec? && cells[h.slot].meta.seqNo == h.seqNo
  }

  lemma {:induction false} SortedHeadersOk<P>(cells: seq<Cell<P>>)
    ensures Sorted(SortedHeaders(cells)) && (DistinctSeqs(cells) ==> StrictlySorted(SortedHeaders(cells)))
    ensures forall h :: h in SortedHeaders(cells) <==> Names(cells, h)
  {
    if cells != [] {
      var n := |cells| - 1;
      SortedHeadersOk(cells[..n]);
      var before := SortedHeaders(cells[..n]);
      forall h ensures Names(cells, h) <==>
        Names(cells[..n], h) || (cells[n].Rec? && h == Header(cells[n].meta.seqNo, n)) {}
      if cells[n].Rec? {
        var h := Header(cells[n].meta.seqNo, n);
        if DistinctSeqs(cells) {
          forall i | 0 <= i < |before| ensures before[i].seqNo != h.seqNo { assert Names(cells[..n], before[i]); }
        }
        InsertSorted(before, h);
      }
    }
  }

  lemma {:induction false} NewestHeadersAreLast<P>(cells: seq<Cell<P>>, limit: nat)
    ensures NewestHeaders(cells, limit) == Last(SortedHeaders(cells), limit)
  {
    hide Names, Insert, InsertNewest;
    if cells != [] {
      var n := |cells| - 1;
      NewestHeadersAreLast(cells[..n], limit);
      SortedHeadersOk(cells[..n]);
      if cells[n].Rec? { NewestOfInsert(SortedHeaders(cells[..n]), Header(cells[n].meta.seqNo, n), limit); }
    }
  }

  function MetasAt<P>(cells: seq<Cell<P>>, hs: seq<Header>): (m: seq<Meta<P>>)
    requires forall i :: 0 <= i < |hs| ==> hs[i].slot < |cells| && cells[hs[i].slot].Rec?
    ensures |m| == |hs|
  {
    seq(|hs|, i requires 0 <= i < |hs| => cells[hs[i].slot].meta)
  }

  // ---- Sorting by sequence number is ring order ----

  ghost predicate Increasing<P>(ms: seq<Meta<P>>) {
    forall i, j :: 0 <= i < j < |ms| ==> ms[i].seqNo < ms[j].seqNo
  }

  lemma LiveStep<P>(cells: seq<Cell<P>>)
    requires cells != []
    ensures LiveOf(cells) == (if cells[0].Rec? then [cells[0].meta] else []) + LiveOf(cells[1..])
  {}

  lemma {:induction false} LiveIncreasing<P>(cells: seq<Cell<P>>, i: nat, j: nat)
    requires Increasing(LiveOf(cells)) && i < j < |cells| && cells[i].Rec? && cells[j].Rec?
    ensures cells[i].meta.seqNo < cells[j].meta.seqNo
  {
    hide LiveOf;
    LiveStep(cells);
    var rest := LiveOf(cells[1..]);
    var live, d := LiveOf(cells), if cells[0].Rec? then 1 else 0;
    assert forall k :: 0 <= k < |rest| ==> live[k + d] == rest[k];
    if i == 0 {
      assert live[0] == cells[0].meta;
      LiveMember(cells[1..], j - 1);
      var k :| 0 <= k < |rest| && rest[k] == cells[j].meta;
      assert live[k + d] == rest[k];
    } else {
      forall x, y | 0 <= x < y < |rest| ensures rest[x].seqNo < rest[y].seqNo {
        assert live[x + d] == rest[x] && live[y + d] == rest[y];
      }
      LiveIncreasing(cells[1..], i - 1, j - 1);
    }
  }

  lemma {:induction false} LiveSource<P>(cells: seq<Cell<P>>, m: Meta<P>) returns (i: nat)
    requires m in LiveOf(cells)
    ensures i < |cells| && cells[i] == Rec(m)
  {
    if cells[0].Rec? && cells[0].meta == m {
      i := 0;
    } else {
      i := LiveSource(cells[1..], m);
      i := i + 1;
    }
  }

  lemma {:induction false} SameSorted<P>(a: seq<Meta<P>>, b: seq<Meta<P>>)
    requires Increasing(a) && Increasing(b)
    requires forall x :: x in a <==> x in b
    ensures a == b
  {
    assert |b| > 0 ==> b[0] in b;
    if a != [] {
      assert a[0] in a && a[0] in b;
      assert b[0] in b && b[0] in a;
      assert a[0] == b[0];
      forall x | x in a[1..] ensures x in b[1..] {
        var k :| 0 <= k < |a[1..]| && a[1..][k] == x;
        assert a[k + 1] == x && x in b;
        var l :| 0 <= l < |b| && b[l] == x;
        assert b[1..][l - 1] == x;
      }
      forall x | x in b[1..] ensures x in a[1..] {
        var k :| 0 <= k < |b[1..]| && b[1..][k] == x;
        assert b[k + 1] == x && x in a;
        var l :| 0 <= l < |a| && a[l] == x;
        assert a[1..][l - 1] == x;
      }
      SameSorted(a[1..], b[1..]);
    }
  }

  lemma RotatedDistinct<P>(cells: seq<Cell<P>>, e: nat)
    requires e <= |cells| && Increasing(LiveOf(Rotated(cells, e)))
    ensures DistinctSeqs(cells)
  {
    hide LiveOf;
    var n := |cells|;
    forall i: nat, j: nat | i < j < n && cells[i].Rec? && cells[j].Rec?
      ensures cells[i].meta.seqNo != cells[j].meta.seqNo
    {
      RotatedAt(cells, e, i);
      RotatedAt(cells, e, j);
      var x, y := RingIndex(i, e, n), RingIndex(j, e, n);
      if x < y { LiveIncreasing(Rotated(cells, e), x, y); } else { LiveIncreasing(Rotated(cells, e), y, x); }
    }
  }

  /** Reading the sorted headers' slots yields the log in ring order. */
  lemma SortedIsRingOrder<P>(cells: seq<Cell<P>>, e: nat)
    requires e <= |cells| && Increasing(LiveOf(Rotated(cells, e)))
    ensures DistinctSeqs(cells)
    ensures var hs := SortedHeaders(cells);
      && (forall i :: 0 <= i < |hs| ==> hs[i].slot < |cells| && cells[hs[i].slot].Rec?)
      && MetasAt(cells, hs) == LiveOf(Rotated(cells, e))
  {
    hide LiveOf, SortedHeaders;
    var live, hs := LiveOf(Rotated(cells, e)), SortedHeaders(cells);
    RotatedDistinct(cells, e);
    SortedHeadersOk(cells);
    forall i | 0 <= i < |hs| ensures Names(cells, hs[i]) { assert hs[i] in hs; }
    var ms := MetasAt(cells, hs);
    assert Increasing(ms);
    forall m | m in ms ensures m in live {
      var k :| 0 <= k < |ms| && ms[k] == m;
      RotatedAt(cells, e, hs[k].slot);
      LiveMember(Rotated(cells, e), RingIndex(hs[k].slot, e, |cells|));
    }
    forall m | m in live ensures m in ms {
      var q := LiveSource(Rotated(cells, e), m);
      var i := if q < |cells| - e then e + q else q - (|cells| - e);
      RotatedAt(cells, e, i);
      assert RingIndex(i, e, |cells|) == q;
      assert Names(cells, Header(m.seqNo, i));
      var k :| 0 <= k < |hs| && hs[k] == Header(m.seqNo, i);
      assert ms[k] == m;
    }
    SameSorted(ms, live);
  }

  // ---- Reading entries ----

  function Reverse<T>(xs: seq<T>): (r: seq<T>)
    ensures |r| == |xs|
  {
    seq(|xs|, i requires 0 <= i < |xs| => xs[|xs| - 1 - i])
  }

  function ReadEntry(s: Slot): Option<LogEntry> {
    match ReadMeta(s)
    case None => None
    case Some(m) => DecodePayload(m.payload)
  }

  /** The records at the given headers, skipping any that no longer reads or decodes. */
  function ReadAll(slots: seq<Slot>, hs: seq<Header>): seq<LogEntry> {
    if hs == [] then []
    else
      (if hs[0].slot < |slots| && ReadEntry(slots[hs[0].slot]).Some?
       then [ReadEntry(slots[hs[0].slot]).value] else []) + ReadAll(slots, hs[1..])
  }

  lemma ReadAllNone(slots: seq<Slot>)
    ensures ReadAll(slots, []) == []
  {}

  lemma {:induction false} ReadAllSnoc(slots: seq<Slot>, hs: seq<Header>, h: Header)
    requires h.slot < |slots|
    ensures ReadAll(slots, hs + [h]) == ReadAll(slots, hs)
      + (if ReadEntry(slots[h.slot]).Some? then [ReadEntry(slots[h.slot]).value] else [])
  {
    hide ReadEntry;
    if hs == [] {
      assert [h][1..] == [];
    } else {
      assert (hs + [h])[1..] == hs[1..] + [h];
      ReadAllSnoc(slots, hs[1..], h);
      Associate(if hs[0].slot < |slots| && ReadEntry(slots[hs[0].slot]).Some?
                then [ReadEntry(slots[hs[0].slot]).value] else [],
                ReadAll(slots, hs[1..]),
                if ReadEntry(slots[h.slot]).Some? then [ReadEntry(slots[h.slot]).value] else []);
    }
  }

  /** Slots whose payload does not decode are passed over by `entries`. */
  function DecodableCells(slots: seq<Slot>): (c: seq<Cell<seq<Byte>>>)
    ensures |c| == |slots|
  {
    seq(|slots|, i requires 0 <= i < |slots| =>
      if Classify(slots[i]).Rec? && ReadEntry(slots[i]).None? then Torn else Classify(slots[i]))
  }

  function Entries(slots: seq<Slot>): seq<LogEntry> {
    ReadAll(slots, SortedHeaders(DecodableCells(slots)))
  }

  function LastN(slots: seq<Slot>, n: nat): seq<LogEntry> {
    if n == 0 then [] else ReadAll(slots, NewestHeaders(Cells(slots), n))
  }

  /** `offset.saturating_add(limit)` on a machine whose largest index is `top`. */
  function SaturatingAdd(a: nat, b: nat, top: nat): nat {
    if a + b > top then top else a + b
  }

  /** `iter().skip(offset).take(limit)`. */
  function SkipTake<T>(xs: seq<T>, offset: nat, limit: nat): seq<T> {
    var rest := xs[Min(offset, |xs|)..];
    rest[..Min(limit, |rest|)]
  }

  function Page(slots: seq<Slot>, offset: nat, limit: nat, top: nat): seq<LogEntry> {
    if limit == 0 then []
    else ReadAll(slots,
                 SkipTake(Reverse(NewestHeaders(Cells(slots), SaturatingAdd(offset, limit, top))), offset, limit))
  }

  function KindAt(s: Slot): Option<LogKind> {
    match ReadMeta(s)
    case None => None
    case Some(m) => PayloadKind(m.payload)
  }

  /** The newest header of one kind, in one pass. */
  function LatestHeader(slots: seq<Slot>, kind: LogKind): (h: Option<Header>)
    ensures h.Some? ==> h.value.slot < |slots|
  {
    if slots == [] then None
    else
      var n := |slots| - 1;
      var before := LatestHeader(slots[..n], kind);
      if KindAt(slots[n]) != Some(kind) then before
      else
        var seqNo := ReadMeta(slots[n]).value.seqNo;
        if before.Some? && seqNo <= before.value.seqNo then before else Some(Header(seqNo, n))
  }

  function LatestOfKind(slots: seq<Slot>, kind: LogKind): Option<LogEntry> {
    match LatestHeader(slots, kind)
    case None => None
    case Some(h) => ReadEntry(slots[h.slot])
  }

  function EntryCount(slots: seq<Slot>): nat {
    if slots == [] then 0
    else EntryCount(slots[..|slots| - 1]) + (if ReadMeta(slots[|slots| - 1]).Some? then 1 else 0)
  }

  // ---- What every read returns on a reachable log ----

  /** The entries of a list of records that all decode. */
  ghost predicate Decodes(live: seq<Meta<seq<Byte>>>, log: seq<LogEntry>) {
    && |log| == |live|
    && forall i :: 0 <= i < |live| ==>
         DecodePayload(live[i].payload) == Some(log[i]) && PayloadKind(live[i].payload) == Some(log[i].kind)
  }

  /** A reachable log: its records in ring order are numbered upwards and hold `log`. */
  ghost predicate Holds(slots: seq<Slot>, e: nat, log: seq<LogEntry>) {
    && e <= |slots|
    && Increasing(LiveOf(Rotated(Cells(slots), e)))
    && Decodes(LiveOf(Rotated(Cells(slots), e)), log)
  }

  predicate AllFit(entries: seq<LogEntry>) {
    forall i :: 0 <= i < |entries| ==> BaseLen(entries[i]) <= PAYLOAD_SIZE
  }

  function StoredLog(entries: seq<LogEntry>): (log: seq<LogEntry>)
    requires AllFit(entries)
    ensures |log| == |entries|
  {
    seq(|entries|, i requires 0 <= i < |entries| => Stored(entries[i]))
  }

  /** On a reachable state whose committed payloads encode `entries`, the log is the
      tail of what was stored of them. */
  lemma ReachableHolds(s: State, entries: seq<LogEntry>)
    requires Inv(s) && |entries| == |s.committed| && AllFit(entries)
    requires forall i :: 0 <= i < |entries| ==> EncodePayload(entries[i]) == Ok(s.committed[i])
    ensures Holds(s.ring.slots, Base(s.ring.cursor.nextSlot, |s.ring.slots|, s.ring.spe),
                  Last(StoredLog(entries), |Readable(s.ring)|))
  {
    hide LiveOf, Cells, EncodePayload, DecodePayload, PayloadKind, Stored, Shaped, Chain, Increasing, Decodes, BaseLen;
    var live := Readable(s.ring);
    ChainIncreasing(live, s.ring.cursor.nextSeq, s.committed);
    ChainDecodes(live, s.ring.cursor.nextSeq, s.committed, entries);
  }

  lemma ChainIncreasing<P>(live: seq<Meta<P>>, nextSeq: nat, committed: seq<P>)
    requires Chain(live, nextSeq, committed)
    ensures Increasing(live)
  {}

  lemma ChainDecodes(live: seq<Meta<seq<Byte>>>, nextSeq: nat, committed: seq<Payload>, entries: seq<LogEntry>)
    requires Chain(live, nextSeq, committed) && |entries| == |committed| && AllFit(entries)
    requires forall i :: 0 <= i < |entries| ==> EncodePayload(entries[i]) == Ok(committed[i])
    ensures Decodes(live, Last(StoredLog(entries), |live|))
  {
    hide EncodePayload, DecodePayload, PayloadKind, Stored, BaseLen;
    var log := Last(StoredLog(entries), |live|);
    forall i | 0 <= i < |live|
      ensures DecodePayload(live[i].payload) == Some(log[i]) && PayloadKind(live[i].payload) == Some(log[i].kind)
    {
      var entry := entries[|entries| - |live| + i];
      PayloadRoundTrip(entry);
      StoredIsLongestPrefix(entry);
      assert log[i] == Stored(entry);
    }
  }

  lemma {:induction false} ReadAllMap(slots: seq<Slot>, hs: seq<Header>, es: seq<LogEntry>)
    requires |hs| == |es|
    requires forall i :: 0 <= i < |hs| ==> hs[i].slot < |slots| && ReadEntry(slots[hs[i].slot]) == Some(es[i])
    ensures ReadAll(slots, hs) == es
  {
    hide ReadEntry;
    if hs != [] {
      ReadAllMap(slots, hs[1..], es[1..]);
      assert es == [es[0]] + es[1..];
    }
  }

  /** Sorted headers of a reachable log read back as the log, one by one. */
  lemma SortedReads(slots: seq<Slot>, e: nat, log: seq<LogEntry>)
    requires Holds(slots, e, log)
    ensures DistinctSeqs(Cells(slots))
    ensures var hs := SortedHeaders(Cells(slots));
      && |hs| == |log|
      && StrictlySorted(hs)
      && forall i :: 0 <= i < |hs| ==>
           && Names(Cells(slots), hs[i])
           && ReadEntry(slots[hs[i].slot]) == Some(log[i])
           && KindAt(slots[hs[i].slot]) == Some(log[i].kind)
  {
    hide LiveOf, SortedHeaders, DecodePayload, PayloadKind, ReadMeta;
    var cells := Cells(slots);
    var hs := SortedHeaders(cells);
    SortedIsRingOrder(cells, e);
    SortedHeadersOk(cells);
    forall i | 0 <= i < |hs|
      ensures Names(cells, hs[i]) && ReadEntry(slots[hs[i].slot]) == Some(log[i]) &&
          KindAt(slots[hs[i].slot]) == Some(log[i].kind)
    {
      assert hs[i] in hs;
      assert MetasAt(cells, hs)[i] == cells[hs[i].slot].meta;
      assert cells[hs[i].slot] == Classify(slots[hs[i].slot]);
    }
  }

  lemma ReverseLast<T>(xs: seq<T>, k: nat)
    ensures Reverse(Last(xs, k)) == Reverse(xs)[..Min(k, |xs|)]
  {}

  /** `page` is the matching slice of the log read newest first. */
  lemma PageIsSlice(slots: seq<Slot>, e: nat, log: seq<LogEntry>, offset: nat, limit: nat, top: nat)
    requires Holds(slots, e, log) && |slots| <= top
    ensures Page(slots, offset, limit, top) == SkipTake(Reverse(log), offset, limit)
  {
    SortedReads(slots, e, log);
    var hs := SortedHeaders(Cells(slots));
    var keep := SaturatingAdd(offset, limit, top);
    NewestHeadersAreLast(Cells(slots), keep);
    SortedLen(Cells(slots));
    ReverseLast(hs, keep);
    SkipTakeTruncated(Reverse(hs), offset, limit, Min(keep, |hs|));
    SkipTakeReads(slots, hs, log, offset, limit);
  }

  lemma SkipTakeTruncated<T>(xs: seq<T>, offset: nat, limit: nat, k: nat)
    requires k <= |xs| && (k == |xs| || offset + limit <= k)
    ensures SkipTake(xs[..k], offset, limit) == SkipTake(xs, offset, limit)
  {
    if k < |xs| {
      assert xs[..k][offset..][..limit] == xs[offset..][..limit];
    } else {
      assert xs[..k] == xs;
    }
  }

  ghost predicate Reads(slots: seq<Slot>, h: Header, entry: LogEntry) {
    h.slot < |slots| && ReadEntry(slots[h.slot]) == Some(entry)
  }

  lemma SkipTakeReads(slots: seq<Slot>, hs: seq<Header>, log: seq<LogEntry>, offset: nat, limit: nat)
    requires |hs| == |log|
    requires forall i :: 0 <= i < |hs| ==> hs[i].slot < |slots| && ReadEntry(slots[hs[i].slot]) == Some(log[i])
    ensures ReadAll(slots, SkipTake(Reverse(hs), offset, limit)) == SkipTake(Reverse(log), offset, limit)
  {
    hide ReadAll, ReadEntry, SkipTake, Reverse;
    forall i | 0 <= i < |hs| ensures Reads(slots, hs[i], log[i]) {}
    SkipTakePairs(slots, hs, log, offset, limit);
    ReadAllMap(slots, SkipTake(Reverse(hs), offset, limit), SkipTake(Reverse(log), offset, limit));
  }

  lemma SkipTakePairs(slots: seq<Slot>, hs: seq<Header>, log: seq<LogEntry>, offset: nat, limit: nat)
    requires |hs| == |log| && forall i :: 0 <= i < |hs| ==> Reads(slots, hs[i], log[i])
    ensures var x, y := SkipTake(Reverse(hs), offset, limit), SkipTake(Reverse(log), offset, limit);
      |x| == |y| && forall i :: 0 <= i < |x| ==> Reads(slots, x[i], y[i])
  {
    hide Reads;
  }

  lemma {:induction false} SortedLen<P>(cells: seq<Cell<P>>)
    ensures |SortedHeaders(cells)| <= |cells|
  {
    if cells != [] { SortedLen(cells[..|cells| - 1]); }
  }

  /** `last_n` is the tail of the log. */
  lemma LastNIsTail(slots: seq<Slot>, e: nat, log: seq<LogEntry>, n: nat)
    requires Holds(slots, e, log)
    ensures LastN(slots, n) == Last(log, n)
  {
    SortedReads(slots, e, log);
    hide ReadAll, ReadEntry, NewestHeaders, SortedHeaders, LiveOf, Cells, Decodes, Increasing, KindAt, LastN;
    var hs := SortedHeaders(Cells(slots));
    NewestHeadersAreLast(Cells(slots), n);
    LastReads(slots, hs, log, n);
    LastNReads(slots, n);
    LastNone(log);
  }

  lemma LastNone<T>(xs: seq<T>)
    ensures Last(xs, 0) == []
  {}

  lemma LastNReads(slots: seq<Slot>, n: nat)
    ensures LastN(slots, n) == if n == 0 then [] else ReadAll(slots, NewestHeaders(Cells(slots), n))
  {}

  lemma LastReads(slots: seq<Slot>, hs: seq<Header>, log: seq<LogEntry>, n: nat)
    requires |hs| == |log|
    requires forall i :: 0 <= i < |hs| ==> hs[i].slot < |slots| && ReadEntry(slots[hs[i].slot]) == Some(log[i])
    ensures ReadAll(slots, Last(hs, n)) == Last(log, n)
  {
    hide ReadAll, ReadEntry, Last;
    forall i | 0 <= i < |hs| ensures Reads(slots, hs[i], log[i]) {}
    LastPairs(slots, hs, log, n);
    ReadAllMap(slots, Last(hs, n), Last(log, n));
  }

  lemma LastPairs(slots: seq<Slot>, hs: seq<Header>, log: seq<LogEntry>, n: nat)
    requires |hs| == |log| && forall i :: 0 <= i < |hs| ==> Reads(slots, hs[i], log[i])
    ensures |Last(hs, n)| == |Last(log, n)|
    ensures forall i :: 0 <= i < |Last(hs, n)| ==> Reads(slots, Last(hs, n)[i], Last(log, n)[i])
  {
    hide Reads;
  }

  /** `entries` is the whole log, oldest first, and `entry_count` its length. */
  lemma EntriesAreLog(slots: seq<Slot>, e: nat, log: seq<LogEntry>)
    requires Holds(slots, e, log)
    ensures Entries(slots) == log
    ensures EntryCount(slots) == |log|
  {
    SortedReads(slots, e, log);
    AllDecodable(slots, log);
    var hs := SortedHeaders(Cells(slots));
    hide ReadAll, ReadEntry, SortedHeaders, EntryCount, Cells, LiveOf;
    ReadAllMap(slots, hs, log);
    CountIsSorted(slots);
  }

  lemma AllDecodable(slots: seq<Slot>, log: seq<LogEntry>)
    requires DistinctSeqs(Cells(slots))
    requires var hs := SortedHeaders(Cells(slots)); |hs| == |log| && forall i :: 0 <= i < |hs| ==>
      hs[i].slot < |slots| && ReadEntry(slots[hs[i].slot]) == Some(log[i])
    ensures DecodableCells(slots) == Cells(slots)
  {
    var cells := Cells(slots);
    var hs := SortedHeaders(cells);
    SortedHeadersOk(cells);
    hide SortedHeaders, DecodePayload, ReadMeta;
    forall i: nat | i < |slots| ensures DecodableCells(slots)[i] == cells[i] {
      if cells[i].Rec? {
        assert Names(cells, Header(cells[i].meta.seqNo, i));
        var k :| 0 <= k < |hs| && hs[k] == Header(cells[i].meta.seqNo, i);
        assert ReadEntry(slots[hs[k].slot]) == Some(log[k]);
      }
    }
  }

  lemma {:induction false} CountIsSorted(slots: seq<Slot>)
    ensures EntryCount(slots) == |SortedHeaders(Cells(slots))|
  {
    hide ReadMeta;
    if slots != [] {
      var n := |slots| - 1;
      CountIsSorted(slots[..n]);
      assert Cells(slots)[..n] == Cells(slots[..n]);
    }
  }

  lemma {:induction false} LatestHeaderIs(slots: seq<Slot>, kind: LogKind)
    ensures var h := LatestHeader(slots, kind);
      && (h.Some? ==>
            KindAt(slots[h.value.slot]) == Some(kind) && ReadMeta(slots[h.value.slot]).value.seqNo == h.value.seqNo)
      && (forall i :: 0 <= i < |slots| && KindAt(slots[i]) == Some(kind) ==>
            h.Some? && ReadMeta(slots[i]).value.seqNo <= h.value.seqNo)
  {
    hide ReadMeta, PayloadKind;
    if slots != [] {
      var n := |slots| - 1;
      LatestHeaderIs(slots[..n], kind);
      forall i | 0 <= i < n ensures slots[..n][i] == slots[i] {}
    }
  }

  /** `latest` is the last entry of its kind in `log`. */
  ghost predicate IsNewestOfKind(log: seq<LogEntry>, kind: LogKind, latest: Option<LogEntry>) {
    match latest
    case None => forall i :: 0 <= i < |log| ==> log[i].kind != kind
    case Some(entry) =>
      exists j :: 0 <= j < |log| && log[j] == entry && entry.kind == kind
                  && (forall i :: j < i < |log| ==> log[i].kind != kind)
  }

  /** `latest_of_kind` is the newest entry of that kind, and None only when there is none. */
  lemma LatestIsNewestOfKind(slots: seq<Slot>, e: nat, log: seq<LogEntry>, kind: LogKind)
    requires Holds(slots, e, log)
    ensures IsNewestOfKind(log, kind, LatestOfKind(slots, kind))
  {
    SortedReads(slots, e, log);
    LatestHeaderIs(slots, kind);
    SortedHeadersOk(Cells(slots));
    LatestAmong(slots, SortedHeaders(Cells(slots)), log, kind);
  }

  lemma LatestAmong(slots: seq<Slot>, hs: seq<Header>, log: seq<LogEntry>, kind: LogKind)
    requires |hs| == |log| && StrictlySorted(hs)
    requires forall h :: h in hs <==> Names(Cells(slots), h)
    requires forall i :: 0 <= i < |hs| ==> hs[i].slot < |slots|
    requires forall i :: 0 <= i < |hs| ==> ReadEntry(slots[hs[i].slot]) == Some(log[i])
    requires forall i :: 0 <= i < |hs| ==> KindAt(slots[hs[i].slot]) == Some(log[i].kind)
    requires var h := LatestHeader(slots, kind);
      && (h.Some? ==>
            KindAt(slots[h.value.slot]) == Some(kind) && ReadMeta(slots[h.value.slot]).value.seqNo == h.value.seqNo)
      && (forall i :: 0 <= i < |slots| && KindAt(slots[i]) == Some(kind) ==>
            h.Some? && ReadMeta(slots[i]).value.seqNo <= h.value.seqNo)
    ensures IsNewestOfKind(log, kind, LatestOfKind(slots, kind))
  {
    hide ReadMeta, DecodePayload, PayloadKind, LatestHeader;
    var latest := LatestHeader(slots, kind);
    if latest.Some? {
      var h := latest.value;
      assert Names(Cells(slots), h);
      var j :| 0 <= j < |hs| && hs[j] == h;
      assert ReadEntry(slots[hs[j].slot]) == Some(log[j]) && KindAt(slots[hs[j].slot]) == Some(log[j].kind);
      forall i | j < i < |log| ensures log[i].kind != kind {
        assert hs[i] in hs;
        assert Names(Cells(slots), hs[i]);
        assert KindAt(slots[hs[i].slot]) == Some(log[i].kind);
      }
    } else {
      forall i | 0 <= i < |log| ensures log[i].kind != kind {
        assert KindAt(slots[hs[i].slot]) == Some(log[i].kind);
      }
    }
  }

  // ---- Following the "Older" buttons ----

  /** Offset on the "Older" button below a page, when there is one. */
  function OlderOffset(total: nat, offset: nat, pageLen: nat, top: nat): Option<nat> {
    var older := SaturatingAdd(offset, pageLen, top);
    if pageLen > 0 && older < total then Some(older) else None
  }

  function NewerOffset(total: nat, offset: nat): Option<nat> {
    if total > 0 && offset > 0 then
      Some(if offset >= total then Max(total - PAGE_SIZE, 0) else Max(offset - PAGE_SIZE, 0))
    else None
  }

  /** Everything a reader sees who opens the page at `offset` and keeps pressing "Older". */
  function WalkOlder(slots: seq<Slot>, offset: nat, top: nat): seq<LogEntry>
    requires |slots| <= top
    decreases Max(EntryCount(slots) - offset, 0)
  {
    var page := Page(slots, offset, PAGE_SIZE, top);
    CountAtMost(slots);
    match OlderOffset(EntryCount(slots), offset, |page|, top)
    case None => page
    case Some(older) => page + WalkOlder(slots, older, top)
  }

  lemma {:induction false} CountAtMost(slots: seq<Slot>)
    ensures EntryCount(slots) <= |slots|
  {
    if slots != [] { CountAtMost(slots[..|slots| - 1]); }
  }

  /** The walk from any offset shows the rest of the log, newest first, each entry once. */
  lemma {:induction false} WalkShowsRest(slots: seq<Slot>, e: nat, log: seq<LogEntry>, offset: nat, top: nat)
    requires Holds(slots, e, log) && |slots| <= top && offset <= |log|
    ensures WalkOlder(slots, offset, top) == Reverse(log)[offset..]
    decreases |log| - offset
  {
    hide Holds, Page, EntryCount, SkipTake, WalkOlder, Reverse;
    PageIsSlice(slots, e, log, offset, PAGE_SIZE, top);
    EntriesAreLog(slots, e, log);
    WalkStep(slots, offset, top);
    RestSplits(Reverse(log), offset, PAGE_SIZE);
    var page := Page(slots, offset, PAGE_SIZE, top);
    if offset + |page| < |log| {
      WalkShowsRest(slots, e, log, offset + |page|, top);
    } else {
      assert page + Reverse(log)[offset + |page|..] == page;
    }
  }

  /** One page of the walk. */
  lemma WalkStep(slots: seq<Slot>, offset: nat, top: nat)
    requires |slots| <= top
    ensures EntryCount(slots) <= top
    ensures var page := Page(slots, offset, PAGE_SIZE, top);
      WalkOlder(slots, offset, top) ==
        match OlderOffset(EntryCount(slots), offset, |page|, top)
        case None => page
        case Some(older) => page + WalkOlder(slots, older, top)
  {
    hide Page, EntryCount;
    CountAtMost(slots);
  }

  /** A page in front of what lies behind it. */
  lemma RestSplits<T>(xs: seq<T>, offset: nat, limit: nat)
    requires offset <= |xs|
    ensures var page := SkipTake(xs, offset, limit);
      |page| == Min(limit, |xs| - offset) && page + xs[offset + |page|..] == xs[offset..]
  {}

  lemma OlderButtonsShowEverything(slots: seq<Slot>, e: nat, log: seq<LogEntry>, top: nat)
    requires Holds(slots, e, log) && |slots| <= top
    ensures WalkOlder(slots, 0, top) == Reverse(log)
  {
    WalkShowsRest(slots, e, log, 0, top);
  }

  /** "Newer" goes back to the page whose "Older" button leads here, or to the newest page. */
  lemma NewerMeetsOlder(slots: seq<Slot>, e: nat, log: seq<LogEntry>, offset: nat, top: nat)
    requires Holds(slots, e, log) && |slots| <= top && 0 < offset < |log|
    ensures var newer := NewerOffset(|log|, offset);
      && (offset < PAGE_SIZE ==> newer == Some(0))
      && (offset >= PAGE_SIZE ==> newer.Some?)
      && (offset >= PAGE_SIZE ==>
            OlderOffset(|log|, newer.value, |Page(slots, newer.value, PAGE_SIZE, top)|, top) == Some(offset))
  {
    hide Holds, Page, EntryCount, SkipTake;
    EntriesAreLog(slots, e, log);
    CountAtMost(slots);
    var newer: nat := Max(offset - PAGE_SIZE, 0);
    PageIsSlice(slots, e, log, newer, PAGE_SIZE, top);
    SkipTakeLength(Reverse(log), newer, PAGE_SIZE);
  }

  /** An offset behind the end shows nothing, and "Newer" leads from there to the oldest page:
      the last ten entries, or all there are, with nothing older behind them.  The newest page
      and an empty log have no such button. */
  lemma NewerFromBehind(slots: seq<Slot>, e: nat, log: seq<LogEntry>, offset: nat, top: nat)
    requires Holds(slots, e, log) && |slots| <= top && 0 < |log| <= offset
    ensures Page(slots, offset, PAGE_SIZE, top) == [] && NewerOffset(|log|, 0) == NewerOffset(0, offset) == None
    ensures var newer := NewerOffset(|log|, offset);
      && newer.Some?
      && var page := Page(slots, newer.value, PAGE_SIZE, top);
      && page == Reverse(log)[|log| - Min(PAGE_SIZE, |log|)..]
      && OlderOffset(|log|, newer.value, |page|, top) == None
  {
    hide Holds, Page, EntryCount, Reverse;
    EntriesAreLog(slots, e, log);
    CountAtMost(slots);
    var last: nat := Max(|log| - PAGE_SIZE, 0);
    PageIsSlice(slots, e, log, offset, PAGE_SIZE, top);
    PageIsSlice(slots, e, log, last, PAGE_SIZE, top);
  }

  lemma SkipTakeLength<T>(xs: seq<T>, offset: nat, limit: nat)
    ensures offset <= |xs| ==> |SkipTake(xs, offset, limit)| == Min(limit, |xs| - offset)
  {}
}
