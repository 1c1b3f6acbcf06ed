/** The event log seen slot by slot: a slot is blank, torn, or holds a record.
    Mounting, and what programming one slot does to the readable log. */
module RingCells {
  import opened Common

  datatype Cell<+P> = Blank | Torn | Rec(meta: Meta<P>)

  /** A record that reads back: its sequence number and payload. */
  datatype Meta<+P> = Meta(seqNo: nat, payload: P)

  datatype Header = Header(seqNo: nat, slot: nat)

  const MAX_SEQ: nat := 0xFFFF_FFFF

  // ---- Sector arithmetic; `spe` is the number of slots in one erase sector ----

  /** `n.is_multiple_of(spe)`. */
  predicate Aligned(n: nat, spe: nat)
    requires spe > 0
  {
    n == 0 || (n >= spe && Aligned(n - spe, spe))
  }

  /** First slot of the sector that slot `n` lies in. */
  function SectorStart(n: nat, spe: nat): (c: nat)
    requires spe > 0
    ensures c <= n < c + spe && Aligned(c, spe)
  {
    if n < spe then 0 else spe + SectorStart(n - spe, spe)
  }

  /** The cursor one past the last slot wraps to the first. */
  function Wrap(i: nat, n: nat): (w: nat)
    requires 0 < n && i <= n
    ensures w < n
  {
    if i == n then 0 else i
  }

  /** The recursive forms above are the remainder and quotient of the source. */
  lemma {:induction false} SectorArithmetic(n: nat, spe: nat)
    requires spe > 0
    ensures Aligned(n, spe) <==> n % spe == 0
    ensures SectorStart(n, spe) == n / spe * spe
    decreases n
  {
    if n < spe {
      DivUnique(n, spe, 0, n);
    } else {
      SectorArithmetic(n - spe, spe);
      OneSectorOn(n, spe);
    }
  }

  lemma OneSectorOn(n: nat, spe: nat)
    requires 0 < spe <= n
    ensures n % spe == (n - spe) % spe && n / spe * spe == spe + (n - spe) / spe * spe
  {
    var q, r := (n - spe) / spe, (n - spe) % spe;
    assert n - spe == q * spe + r;
    assert (q + 1) * spe == q * spe + spe;
    DivUnique(n, spe, q + 1, r);
  }

  lemma DivUnique(n: nat, d: nat, q: nat, r: nat)
    requires n == q * d + r && r < d
    ensures n / d == q && n % d == r
  {
    var x := n / d;
    assert n == x * d + n % d;
    if x < q { MulMonotone(x + 1, q, d); }
    if q < x { MulMonotone(q + 1, x, d); }
  }

  lemma MulMonotone(x: nat, y: nat, k: nat)
    requires x <= y
    ensures x * k <= y * k
  {}

  lemma WrapIsRemainder(i: nat, n: nat)
    requires 0 < n && i <= n
    ensures Wrap(i, n) == i % n
  {}

  lemma {:induction false} AlignedGap(a: nat, b: nat, spe: nat)
    requires spe > 0 && Aligned(a, spe) && Aligned(b, spe) && a < b
    ensures a + spe <= b
    decreases a
  {
    if a > 0 { AlignedGap(a - spe, b - spe, spe); }
  }

  lemma AlignedNext(a: nat, spe: nat)
    requires spe > 0 && Aligned(a, spe)
    ensures Aligned(a + spe, spe)
  {}

  lemma SectorUnique(i: nat, c: nat, spe: nat)
    requires spe > 0 && Aligned(c, spe) && c <= i < c + spe
    ensures SectorStart(i, spe) == c
    ensures Aligned(i, spe) <==> i == c
  {
    var d := SectorStart(i, spe);
    if d < c { AlignedGap(d, c, spe); }
    if c < d { AlignedGap(c, d, spe); }
    if Aligned(i, spe) && c < i { AlignedGap(c, i, spe); }
  }

  // ---- Readable records ----

  function LiveOf<P>(cells: seq<Cell<P>>): seq<Meta<P>> {
    if cells == [] then []
    else (if cells[0].Rec? then [cells[0].meta] else []) + LiveOf(cells[1..])
  }

  lemma {:induction false} LiveConcat<P>(a: seq<Cell<P>>, b: seq<Cell<P>>)
    ensures LiveOf(a + b) == LiveOf(a) + LiveOf(b)
  {
    if a == [] {
      assert a + b == b;
    } else {
      assert (a + b)[1..] == a[1..] + b;
      LiveConcat(a[1..], b);
      Associate(if a[0].Rec? then [a[0].meta] else [], LiveOf(a[1..]), LiveOf(b));
    }
  }

  lemma {:induction false} NoneLive<P>(cells: seq<Cell<P>>)
    requires forall i :: 0 <= i < |cells| ==> !cells[i].Rec?
    ensures LiveOf(cells) == []
  {
    if cells != [] { NoneLive(cells[1..]); }
  }

  lemma {:induction false} AllLive<P>(cells: seq<Cell<P>>)
    requires forall i :: 0 <= i < |cells| ==> cells[i].Rec?
    ensures |LiveOf(cells)| == |cells|
  {
    if cells != [] { AllLive(cells[1..]); }
  }

  lemma {:induction false} LiveMember<P>(cells: seq<Cell<P>>, i: nat)
    requires i < |cells| && cells[i].Rec?
    ensures cells[i].meta in LiveOf(cells)
  {
    if i > 0 { LiveMember(cells[1..], i - 1); }
  }

  lemma LiveOne<P>(c: Cell<P>)
    ensures LiveOf([c]) == if c.Rec? then [c.meta] else []
  {
    assert [c][1..] == [];
  }

  lemma {:induction false} LastLive<P>(cells: seq<Cell<P>>) returns (q: nat)
    requires LiveOf(cells) != []
    ensures q < |cells| && cells[q].Rec?
    ensures forall i :: q < i < |cells| ==> !cells[i].Rec?
    ensures LiveOf(cells) == LiveOf(cells[..q]) + [cells[q].meta]
  {
    var n := |cells| - 1;
    assert cells == cells[..n] + [cells[n]];
    LiveConcat(cells[..n], [cells[n]]);
    LiveOne(cells[n]);
    if cells[n].Rec? {
      q := n;
    } else {
      q := LastLive(cells[..n]);
      assert cells[..n][..q] == cells[..q];
    }
  }

  // ---- Ring order ----

  /** The slots in ring order, when slot `e` starts the oldest sector. */
  function Rotated<P>(cells: seq<Cell<P>>, e: nat): (r: seq<Cell<P>>)
    requires e <= |cells|
    ensures |r| == |cells|
  {
    cells[e..] + cells[..e]
  }

  /** Moving the start of ring order across slots without records changes nothing. */
  lemma RotateDead<P>(cells: seq<Cell<P>>, e: nat, f: nat)
    requires e <= f <= |cells|
    requires forall i :: e <= i < f ==> !cells[i].Rec?
    ensures LiveOf(Rotated(cells, e)) == LiveOf(Rotated(cells, f))
  {
    var x, mid, y := cells[..e], cells[e..f], cells[f..];
    assert Rotated(cells, e) == mid + (y + x);
    assert Rotated(cells, f) == (y + x) + mid;
    LiveConcat(mid, y + x);
    LiveConcat(y + x, mid);
    NoneLive(mid);
  }

  lemma RotateWhole<P>(cells: seq<Cell<P>>)
    ensures Rotated(cells, |cells|) == Rotated(cells, 0)
  {}

  predicate Geometry(n: nat, spe: nat) {
    spe > 0 && n > 0 && Aligned(n, spe)
  }

  /** End of the sector that slot `t` lies in. */
  function End(t: nat, n: nat, spe: nat): (e: nat)
    requires Geometry(n, spe) && t < n
    ensures t < e <= n && e >= spe && e - spe <= t
    ensures Aligned(e, spe) && Aligned(e - spe, spe)
    ensures Aligned(t, spe) <==> t == e - spe
  {
    var c := SectorStart(t, spe);
    AlignedGap(c, n, spe);
    AlignedNext(c, spe);
    SectorUnique(t, c, spe);
    c + spe
  }

  /** A later slot of the same sector. */
  lemma EndWithin(t: nat, i: nat, n: nat, spe: nat)
    requires Geometry(n, spe) && t < n && t < i < End(t, n, spe)
    ensures i < n && End(i, n, spe) == End(t, n, spe) && !Aligned(i, spe)
  {
    SectorUnique(i, End(t, n, spe) - spe, spe);
  }

  // ---- Mounting ----

  /** The record with the highest sequence number, the last one on a tie. */
  function Newest<P>(cells: seq<Cell<P>>): (h: Option<Header>)
    ensures h.Some? ==> h.value.slot < |cells| && cells[h.value.slot].Rec?
    ensures h.Some? ==> cells[h.value.slot].meta.seqNo == h.value.seqNo
  {
    if cells == [] then None
    else
      var n := |cells| - 1;
      var before := Newest(cells[..n]);
      if !cells[n].Rec? then before
      else if before.Some? && before.value.seqNo > cells[n].meta.seqNo then before
      else Some(Header(cells[n].meta.seqNo, n))
  }

  /** The RAM cursor of a mounted ring. */
  datatype Cursor = Cursor(nextSeq: nat, nextSlot: nat)

  function Successor(seqNo: nat): nat {
    if seqNo == MAX_SEQ then 1 else seqNo + 1
  }

  function MountCursor<P>(cells: seq<Cell<P>>, spe: nat): (c: Cursor)
    requires Geometry(|cells|, spe)
  {
    match Newest(cells)
    case None => Cursor(1, 0)
    case Some(h) =>
      var next := Wrap(h.slot + 1, |cells|);
      Cursor(Successor(h.seqNo),
             if !Aligned(next, spe) && !cells[next].Blank? then Wrap(End(next, |cells|, spe), |cells|) else next)
  }

  // ---- Invariant ----

  /** `live` carries consecutive sequence numbers ending just before `nextSeq`,
      and holds the last |live| committed payloads. */
  ghost predicate Chain<P>(live: seq<Meta<P>>, nextSeq: nat, committed: seq<P>) {
    && |live| <= |committed|
    && |live| < nextSeq
    && forall i :: 0 <= i < |live| ==>
         live[i] == Meta(nextSeq - |live| + i, committed[|committed| - |live| + i])
  }

  /** Within a sector records form a prefix; behind a nonempty prefix at most one
      slot is torn and the rest is still blank. */
  ghost predicate SectorShape<P>(cells: seq<Cell<P>>, a: nat, spe: nat)
    requires a + spe <= |cells|
  {
    && (forall i, j :: a <= i < j < a + spe && cells[j].Rec? ==> cells[i].Rec?)
    && (forall i, j :: a < i < j < a + spe && cells[a].Rec? && !cells[i].Rec? ==> cells[j].Blank?)
  }

  ghost predicate Shaped<P>(cells: seq<Cell<P>>, spe: nat)
    requires spe > 0
  {
    forall a: nat :: a + spe <= |cells| && Aligned(a, spe) ==> SectorShape(cells, a, spe)
  }

  ghost predicate StorageOk<P>(cells: seq<Cell<P>>, spe: nat, e: nat, nextSeq: nat, committed: seq<P>) {
    && Geometry(|cells|, spe) && Shaped(cells, spe)
    && e <= |cells| && Aligned(e, spe)
    && 1 <= nextSeq <= |committed| + 1
    && Chain(LiveOf(Rotated(cells, e)), nextSeq, committed)
  }

  /** Where ring order begins: the oldest sector. */
  function Base(t: nat, n: nat, spe: nat): (e: nat)
    requires Geometry(n, spe) && t < n
    ensures e <= n && Aligned(e, spe)
  {
    if Aligned(t, spe) then t else End(t, n, spe)
  }

  /** Slot `t` continues a sector: records before it, nothing behind it. */
  ghost predicate FrontierOk<P>(cells: seq<Cell<P>>, t: nat, e: nat, spe: nat)
    requires t < e <= |cells| && spe <= e
  {
    && (forall i :: e - spe <= i < t ==> cells[i].Rec?)
    && (e - spe < t ==> forall i :: t <= i < e ==> cells[i].Blank?)
  }

  ghost predicate RingOk<P>(cells: seq<Cell<P>>, spe: nat, c: Cursor, committed: seq<P>) {
    && Geometry(|cells|, spe) && c.nextSlot < |cells|
    && StorageOk(cells, spe, Base(c.nextSlot, |cells|, spe), c.nextSeq, committed)
    && FrontierOk(cells, c.nextSlot, End(c.nextSlot, |cells|, spe), spe)
  }

  // ---- Mounting re-establishes the invariant ----

  lemma {:induction false} NewestIs<P>(cells: seq<Cell<P>>, p: nat)
    requires p < |cells| && cells[p].Rec?
    requires forall i :: 0 <= i < |cells| && i != p && cells[i].Rec? ==> cells[i].meta.seqNo < cells[p].meta.seqNo
    ensures Newest(cells) == Some(Header(cells[p].meta.seqNo, p))
  {
    var n := |cells| - 1;
    if p < n {
      NewestIs(cells[..n], p);
    } else {
      var before := Newest(cells[..n]);
      if before.Some? { assert cells[..n][before.value.slot] == cells[before.value.slot]; }
    }
  }

  lemma {:induction false} NewestNone<P>(cells: seq<Cell<P>>)
    requires forall i :: 0 <= i < |cells| ==> !cells[i].Rec?
    ensures Newest(cells) == None
  {
    if cells != [] { NewestNone(cells[..|cells| - 1]); }
  }

  /** Nothing behind slot `p` in ring order, up to slot `e`, holds a record. */
  ghost predicate DeadBehind<P>(cells: seq<Cell<P>>, p: nat, e: nat)
    requires p < |cells| && e <= |cells|
  {
    && (p >= e ==> (forall i :: p < i < |cells| ==> !cells[i].Rec?) && (forall i :: 0 <= i < e ==> !cells[i].Rec?))
    && (p < e ==> forall i :: p < i < e ==> !cells[i].Rec?)
  }

  /** Position of slot `i` in ring order. */
  function RingIndex(i: nat, e: nat, n: nat): (j: nat)
    requires i < n && e <= n
    ensures j < n
  {
    if i >= e then i - e else n - e + i
  }

  lemma RotatedAt<P>(cells: seq<Cell<P>>, e: nat, i: nat)
    requires i < |cells| && e <= |cells|
    ensures Rotated(cells, e)[RingIndex(i, e, |cells|)] == cells[i]
  {}

  lemma NewestSlot<P>(cells: seq<Cell<P>>, spe: nat, e: nat, nextSeq: nat, committed: seq<P>) returns (p: nat)
    requires StorageOk(cells, spe, e, nextSeq, committed)
    requires LiveOf(Rotated(cells, e)) != []
    ensures p < |cells| && cells[p].Rec?
    ensures Newest(cells) == Some(Header(nextSeq - 1, p))
    ensures DeadBehind(cells, p, e)
  {
    var rot, n := Rotated(cells, e), |cells|;
    var live := LiveOf(rot);
    var q := LastLive(rot);
    p := if q < n - e then e + q else q - (n - e);
    assert RingIndex(p, e, n) == q;
    RotatedAt(cells, e, p);
    assert live[|live| - 1] == rot[q].meta;
    forall i: nat | i < n && i != p && cells[i].Rec?
      ensures cells[i].meta.seqNo < nextSeq - 1
    {
      RotatedAt(cells, e, i);
      OlderThanLast(rot, q, RingIndex(i, e, n), live, nextSeq, committed);
    }
    NewestIs(cells, p);
    forall i: nat | i < n && RingIndex(i, e, n) > q ensures !cells[i].Rec? { RotatedAt(cells, e, i); }
  }

  lemma OlderThanLast<P>(rot: seq<Cell<P>>, q: nat, j: nat, live: seq<Meta<P>>, nextSeq: nat, committed: seq<P>)
    requires q < |rot| && j < |rot| && j != q && rot[j].Rec? && rot[q].Rec?
    requires live == LiveOf(rot[..q]) + [rot[q].meta]
    requires forall i :: q < i < |rot| ==> !rot[i].Rec?
    requires Chain(live, nextSeq, committed)
    ensures rot[j].meta.seqNo < nextSeq - 1
  {
    assert rot[..q][j] == rot[j];
    LiveMember(rot[..q], j);
    var before := LiveOf(rot[..q]);
    var k :| 0 <= k < |before| && before[k] == rot[j].meta;
    assert live[k] == before[k];
  }

  /** Ring order may as well start right behind the newest record's sector. */
  lemma RestartBehindNewest<P>(cells: seq<Cell<P>>, spe: nat, e: nat, f: nat, p: nat)
    requires spe > 0 && e <= |cells| && f <= |cells| && p < f <= p + spe
    requires Aligned(e, spe) && Aligned(f, spe) && DeadBehind(cells, p, e)
    ensures LiveOf(Rotated(cells, e)) == LiveOf(Rotated(cells, f))
  {
    if p >= e {
      RotateDead(cells, f, |cells|);
      RotateWhole(cells);
      RotateDead(cells, 0, e);
    } else {
      if e < f { AlignedGap(e, f, spe); assert false; }
      RotateDead(cells, f, e);
    }
  }

  /** Mounting storage that satisfies the invariant gives a consistent cursor and the
      same readable records, whatever was in RAM before. */
  lemma MountOk<P>(cells: seq<Cell<P>>, spe: nat, e: nat, nextSeq: nat, committed: seq<P>)
    requires StorageOk(cells, spe, e, nextSeq, committed) && |committed| < MAX_SEQ
    ensures RingOk(cells, spe, MountCursor(cells, spe), committed)
    ensures LiveOf(Rotated(cells, Base(MountCursor(cells, spe).nextSlot, |cells|, spe))) == LiveOf(Rotated(cells, e))
  {
    if LiveOf(Rotated(cells, e)) == [] {
      MountEmpty(cells, spe, e, nextSeq, committed);
    } else {
      var p := NewestSlot(cells, spe, e, nextSeq, committed);
      MountBehind(cells, spe, e, nextSeq, committed, p);
      MountSlot(cells, spe, p, nextSeq);
    }
  }

  lemma MountEmpty<P>(cells: seq<Cell<P>>, spe: nat, e: nat, nextSeq: nat, committed: seq<P>)
    requires StorageOk(cells, spe, e, nextSeq, committed)
    requires LiveOf(Rotated(cells, e)) == []
    ensures MountCursor(cells, spe) == Cursor(1, 0)
    ensures RingOk(cells, spe, Cursor(1, 0), committed)
    ensures LiveOf(Rotated(cells, Base(0, |cells|, spe))) == []
  {
    forall i: nat | i < |cells| ensures !cells[i].Rec? {
      RotatedAt(cells, e, i);
      if cells[i].Rec? { LiveMember(Rotated(cells, e), RingIndex(i, e, |cells|)); }
    }
    NewestNone(cells);
    RotateDead(cells, 0, e);
    assert Aligned(0, spe);
  }

  lemma MountBehind<P>(cells: seq<Cell<P>>, spe: nat, e: nat, nextSeq: nat, committed: seq<P>, p: nat)
    requires StorageOk(cells, spe, e, nextSeq, committed)
    requires p < |cells| && cells[p].Rec? && DeadBehind(cells, p, e)
    ensures var t := ResumeSlot(cells, spe, p);
      && RingOk(cells, spe, Cursor(nextSeq, t), committed)
      && LiveOf(Rotated(cells, Base(t, |cells|, spe))) == LiveOf(Rotated(cells, e))
  {
    var f := End(p, |cells|, spe);
    RestartBehindNewest(cells, spe, e, f, p);
    assert StorageOk(cells, spe, f, nextSeq, committed);
    if p + 1 == f || cells[p + 1].Blank? {
      MountTail(cells, spe, p);
      Advance(cells, spe, p, nextSeq, committed);
    } else {
      AtSectorStart(cells, spe, f, nextSeq, committed);
    }
  }

  function ResumeSlot<P>(cells: seq<Cell<P>>, spe: nat, p: nat): (t: nat)
    requires Geometry(|cells|, spe) && p < |cells|
    ensures t < |cells|
  {
    var f := End(p, |cells|, spe);
    if p + 1 == f || cells[p + 1].Blank? then Wrap(p + 1, |cells|) else Wrap(f, |cells|)
  }

  lemma MountTail<P>(cells: seq<Cell<P>>, spe: nat, p: nat)
    requires Geometry(|cells|, spe) && Shaped(cells, spe) && p < |cells| && cells[p].Rec?
    requires p + 1 < End(p, |cells|, spe) ==> cells[p + 1].Blank?
    ensures var f := End(p, |cells|, spe);
      && (forall i :: f - spe <= i <= p ==> cells[i].Rec?)
      && (forall i :: p < i < f ==> cells[i].Blank?)
  {
    var f := End(p, |cells|, spe);
    assert SectorShape(cells, f - spe, spe);
    if p + 1 < f { DeadTail(cells, f - spe, p, spe); }
  }

  lemma MountSlot<P>(cells: seq<Cell<P>>, spe: nat, p: nat, nextSeq: nat)
    requires Geometry(|cells|, spe) && p < |cells| && nextSeq >= 1 && nextSeq - 1 < MAX_SEQ
    requires Newest(cells) == Some(Header(nextSeq - 1, p))
    ensures MountCursor(cells, spe) == Cursor(nextSeq, ResumeSlot(cells, spe, p))
  {
    hide Newest, SectorStart, Geometry, End;
    GeometryPositive(|cells|, spe);
    assert Aligned(0, spe);
    if p + 1 < End(p, |cells|, spe) {
      EndWithin(p, p + 1, |cells|, spe);
    }
  }

  /** A cursor just behind record `t`, with the rest of the sector blank. */
  lemma Advance<P>(s: seq<Cell<P>>, spe: nat, t: nat, nextSeq: nat, committed: seq<P>)
    requires Geometry(|s|, spe) && t < |s| && StorageOk(s, spe, End(t, |s|, spe), nextSeq, committed)
    requires forall i :: End(t, |s|, spe) - spe <= i <= t ==> s[i].Rec?
    requires forall i :: t < i < End(t, |s|, spe) ==> s[i].Blank?
    ensures RingOk(s, spe, Cursor(nextSeq, Wrap(t + 1, |s|)), committed)
    ensures LiveOf(Rotated(s, Base(Wrap(t + 1, |s|), |s|, spe))) == LiveOf(Rotated(s, End(t, |s|, spe)))
  {
    hide LiveOf, Rotated, Chain, Shaped, SectorStart, Geometry, End;
    var e := End(t, |s|, spe);
    if t + 1 == e {
      AtSectorStart(s, spe, e, nextSeq, committed);
    } else {
      EndWithin(t, t + 1, |s|, spe);
    }
  }

  /** A cursor at a sector start needs nothing but the storage invariant. */
  lemma AtSectorStart<P>(cells: seq<Cell<P>>, spe: nat, f: nat, nextSeq: nat, committed: seq<P>)
    requires StorageOk(cells, spe, f, nextSeq, committed)
    ensures var t := Wrap(f, |cells|);
      && RingOk(cells, spe, Cursor(nextSeq, t), committed)
      && LiveOf(Rotated(cells, Base(t, |cells|, spe))) == LiveOf(Rotated(cells, f))
  {
    if f == |cells| { RotateWhole(cells); }
    assert Aligned(0, spe);
  }

  /** One blank slot behind the newest record means the rest of its sector is blank. */
  lemma DeadTail<P>(cells: seq<Cell<P>>, a: nat, p: nat, spe: nat)
    requires a <= p && p + 1 < a + spe <= |cells| && SectorShape(cells, a, spe)
    requires cells[p].Rec? && cells[p + 1].Blank?
    ensures forall i :: a <= i <= p ==> cells[i].Rec?
    ensures forall i :: p < i < a + spe ==> cells[i].Blank?
  {
    assert cells[a].Rec?;
  }

  // ---- Programming one slot ----

  function EraseSector<P>(cells: seq<Cell<P>>, at: nat, spe: nat): (r: seq<Cell<P>>)
    requires at + spe <= |cells|
    ensures |r| == |cells|
  {
    cells[..at] + seq(spe, _ => Blank) + cells[at + spe..]
  }

  lemma EraseAt<P>(cells: seq<Cell<P>>, at: nat, spe: nat, i: nat)
    requires at + spe <= |cells| && i < |cells|
    ensures EraseSector(cells, at, spe)[i] == if at <= i < at + spe then Blank else cells[i]
  {}

  lemma EraseShaped<P>(cells: seq<Cell<P>>, at: nat, spe: nat)
    requires spe > 0 && at + spe <= |cells| && Aligned(at, spe) && Shaped(cells, spe)
    ensures Shaped(EraseSector(cells, at, spe), spe)
  {
    var s := EraseSector(cells, at, spe);
    forall a: nat | a + spe <= |s| && Aligned(a, spe) ensures SectorShape(s, a, spe) {
      if a < at { AlignedGap(a, at, spe); }
      if a > at { AlignedGap(at, a, spe); }
      assert SectorShape(cells, a, spe);
      forall i | a <= i < a + spe ensures s[i] == if a == at then Blank else cells[i] { EraseAt(cells, at, spe, i); }
    }
  }

  /** Storage once the sector that slot `t` starts has been erased, when it starts one. */
  function Prepared<P>(cells: seq<Cell<P>>, spe: nat, t: nat): (r: seq<Cell<P>>)
    requires Geometry(|cells|, spe) && t < |cells|
    ensures |r| == |cells|
  {
    if Aligned(t, spe) then EraseSector(cells, End(t, |cells|, spe) - spe, spe) else cells
  }

  /** The log an append starts from: everything, less the sector it erases. */
  function Kept<P>(cells: seq<Cell<P>>, spe: nat, t: nat): seq<Meta<P>>
    requires Geometry(|cells|, spe) && t < |cells|
  {
    LiveOf(cells[End(t, |cells|, spe)..] + cells[..t])
  }

  lemma GeometryPositive(n: nat, spe: nat)
    requires Geometry(n, spe)
    ensures spe > 0
  {}

  /** Every write lands on a blank slot, with only blank slots behind it in its sector. */
  lemma PreparedBlank<P>(cells: seq<Cell<P>>, spe: nat, c: Cursor, committed: seq<P>)
    requires RingOk(cells, spe, c, committed)
    ensures var s, e := Prepared(cells, spe, c.nextSlot), End(c.nextSlot, |cells|, spe);
      && (forall i :: c.nextSlot <= i < e ==> s[i].Blank?)
      && (forall i :: e - spe <= i < c.nextSlot ==> s[i].Rec?)
      && s[e..] + s[..c.nextSlot] == cells[e..] + cells[..c.nextSlot]
      && Shaped(s, spe)
  {
    hide LiveOf, Rotated, Chain, Shaped, SectorStart, Geometry, End;
    var t, s, e := c.nextSlot, Prepared(cells, spe, c.nextSlot), End(c.nextSlot, |cells|, spe);
    if Aligned(t, spe) {
      GeometryPositive(|cells|, spe);
      EraseShaped(cells, t, spe);
      assert s == cells[..t] + seq(spe, _ => Blank) + cells[e..];
    }
  }

  /** What is kept is the old log, less the records of the sector about to be erased. */
  lemma KeptIsSuffix<P>(cells: seq<Cell<P>>, spe: nat, c: Cursor, committed: seq<P>)
    requires RingOk(cells, spe, c, committed)
    ensures var t, n := c.nextSlot, |cells|;
      && (!Aligned(t, spe) ==> LiveOf(Rotated(cells, Base(t, n, spe))) == Kept(cells, spe, t))
      && (Aligned(t, spe) ==>
            LiveOf(Rotated(cells, Base(t, n, spe))) == LiveOf(cells[t..End(t, n, spe)]) + Kept(cells, spe, t))
      && Chain(Kept(cells, spe, t), c.nextSeq, committed)
  {
    var t, e := c.nextSlot, End(c.nextSlot, |cells|, spe);
    var outer := cells[e..] + cells[..t];
    if Aligned(t, spe) {
      assert Rotated(cells, t) == cells[t..e] + outer;
      LiveConcat(cells[t..e], outer);
      ChainDrop(LiveOf(cells[t..e]), LiveOf(outer), c.nextSeq, committed);
    } else {
      assert Rotated(cells, e) == outer + cells[t..e];
      LiveConcat(outer, cells[t..e]);
      NoneLive(cells[t..e]);
    }
  }

  /** The readable log once slot `t` has been prepared and then holds `x`. */
  lemma ProgrammedLive<P>(cells: seq<Cell<P>>, spe: nat, c: Cursor, committed: seq<P>, x: Cell<P>)
    requires RingOk(cells, spe, c, committed)
    ensures var s := Prepared(cells, spe, c.nextSlot)[c.nextSlot := x];
      && LiveOf(Rotated(s, End(c.nextSlot, |cells|, spe)))
           == Kept(cells, spe, c.nextSlot) + (if x.Rec? then [x.meta] else [])
      && Shaped(s, spe)
  {
    var t, s, e := c.nextSlot, Prepared(cells, spe, c.nextSlot), End(c.nextSlot, |cells|, spe);
    PreparedBlank(cells, spe, c, committed);
    LiveAround(s, t, e, x);
    ProgrammedShaped(s, spe, t, e, x);
  }

  lemma LiveAround<P>(s: seq<Cell<P>>, t: nat, e: nat, x: Cell<P>)
    requires t < e <= |s|
    requires forall i :: t < i < e ==> s[i].Blank?
    ensures LiveOf(Rotated(s[t := x], e)) == LiveOf(s[e..] + s[..t]) + (if x.Rec? then [x.meta] else [])
  {
    var outer, rest := s[e..] + s[..t], s[t + 1..e];
    assert Rotated(s[t := x], e) == outer + ([x] + rest);
    LiveConcat(outer, [x] + rest);
    LiveConcat([x], rest);
    NoneLive(rest);
    LiveOne(x);
  }

  lemma ProgrammedShaped<P>(s: seq<Cell<P>>, spe: nat, t: nat, e: nat, x: Cell<P>)
    requires spe > 0 && Shaped(s, spe) && spe <= e <= |s| && e - spe <= t < e && Aligned(e - spe, spe)
    requires forall i :: t <= i < e ==> s[i].Blank?
    requires forall i :: e - spe <= i < t ==> s[i].Rec?
    ensures Shaped(s[t := x], spe)
  {
    var s2 := s[t := x];
    forall a: nat | a + spe <= |s| && Aligned(a, spe) ensures SectorShape(s2, a, spe) {
      assert SectorShape(s, a, spe);
      if a < e - spe { AlignedGap(a, e - spe, spe); }
      if a > e - spe { AlignedGap(e - spe, a, spe); }
    }
  }

  /** A write that left no record keeps the log, less the erased sector. */
  lemma TornStorage<P>(cells: seq<Cell<P>>, spe: nat, c: Cursor, committed: seq<P>, x: Cell<P>)
    requires RingOk(cells, spe, c, committed) && !x.Rec?
    ensures StorageOk(Prepared(cells, spe, c.nextSlot)[c.nextSlot := x], spe,
                      End(c.nextSlot, |cells|, spe), c.nextSeq, committed)
  {
    hide SectorStart, Shaped, Chain, LiveOf, Prepared, FrontierOk, Kept;
    assert Kept(cells, spe, c.nextSlot) + [] == Kept(cells, spe, c.nextSlot);
    ProgrammedLive(cells, spe, c, committed, x);
    KeptIsSuffix(cells, spe, c, committed);
  }

  /** A complete write appends the committed entry. */
  lemma FullStorage<P>(cells: seq<Cell<P>>, spe: nat, c: Cursor, committed: seq<P>, payload: P)
    requires RingOk(cells, spe, c, committed)
    ensures StorageOk(Prepared(cells, spe, c.nextSlot)[c.nextSlot := Rec(Meta(c.nextSeq, payload))], spe,
                      End(c.nextSlot, |cells|, spe), c.nextSeq + 1, committed + [payload])
  {
    ProgrammedLive(cells, spe, c, committed, Rec(Meta(c.nextSeq, payload)));
    KeptIsSuffix(cells, spe, c, committed);
    ChainSnoc(Kept(cells, spe, c.nextSlot), c.nextSeq, committed, payload);
  }

  lemma ChainDrop<P>(a: seq<Meta<P>>, b: seq<Meta<P>>, nextSeq: nat, committed: seq<P>)
    requires Chain(a + b, nextSeq, committed)
    ensures Chain(b, nextSeq, committed)
  {
    forall i | 0 <= i < |b| ensures b[i] == Meta(nextSeq - |b| + i, committed[|committed| - |b| + i]) {
      assert (a + b)[|a| + i] == b[i];
    }
  }

  lemma ChainSnoc<P>(live: seq<Meta<P>>, nextSeq: nat, committed: seq<P>, payload: P)
    requires Chain(live, nextSeq, committed)
    ensures Chain(live + [Meta(nextSeq, payload)], nextSeq + 1, committed + [payload])
  {}

  /** A successful append keeps the invariant for the advanced cursor. */
  lemma AppendOk<P>(cells: seq<Cell<P>>, spe: nat, c: Cursor, committed: seq<P>, payload: P)
    requires RingOk(cells, spe, c, committed)
    ensures var s := Prepared(cells, spe, c.nextSlot)[c.nextSlot := Rec(Meta(c.nextSeq, payload))];
      var c2 := Cursor(c.nextSeq + 1, Wrap(c.nextSlot + 1, |cells|));
      && RingOk(s, spe, c2, committed + [payload])
      && LiveOf(Rotated(s, Base(c2.nextSlot, |s|, spe))) == Kept(cells, spe, c.nextSlot) + [Meta(c.nextSeq, payload)]
  {
    hide LiveOf, Shaped, Chain, Prepared;
    var t, e := c.nextSlot, End(c.nextSlot, |cells|, spe);
    var x := Rec(Meta(c.nextSeq, payload));
    var s := Prepared(cells, spe, t)[t := x];
    PreparedBlank(cells, spe, c, committed);
    ProgrammedLive(cells, spe, c, committed, x);
    FullStorage(cells, spe, c, committed, payload);
    Advance(s, spe, t, c.nextSeq + 1, committed + [payload]);
  }

  /** A failed write leaves a consistent cursor: same slot at a sector start, else the next sector.
      Everything the append kept stays readable. */
  lemma WriteFailed<P>(cells: seq<Cell<P>>, spe: nat, c: Cursor, committed: seq<P>, x: Cell<P>)
    requires RingOk(cells, spe, c, committed) && !x.Rec?
    ensures var s, e := Prepared(cells, spe, c.nextSlot)[c.nextSlot := x], End(c.nextSlot, |cells|, spe);
      var c2 := c.(nextSlot := if Aligned(c.nextSlot, spe) then c.nextSlot else Wrap(e, |cells|));
      && RingOk(s, spe, c2, committed)
      && LiveOf(Rotated(s, Base(c2.nextSlot, |s|, spe))) == Kept(cells, spe, c.nextSlot)
  {
    hide LiveOf, Rotated, Chain, Shaped, SectorStart, Prepared, Kept;
    var t, e := c.nextSlot, End(c.nextSlot, |cells|, spe);
    var s := Prepared(cells, spe, t)[t := x];
    TornStorage(cells, spe, c, committed, x);
    ProgrammedLive(cells, spe, c, committed, x);
    assert Kept(cells, spe, t) + [] == Kept(cells, spe, t);
    if Aligned(t, spe) {
      PreparedBlank(cells, spe, c, committed);
      RotateDead(s, t, e);
    } else {
      AtSectorStart(s, spe, e, c.nextSeq, committed);
    }
  }

  // ---- Mounting finds the write position ----

  /** Slot before `t`, round the ring. */
  function Before(t: nat, n: nat): (q: nat)
    requires t < n
    ensures q < n
  {
    if t == 0 then n - 1 else t - 1
  }

  /** The record with nothing behind it in ring order is the newest. */
  lemma LastIsNewest<P>(cells: seq<Cell<P>>, spe: nat, e: nat, nextSeq: nat, committed: seq<P>, q: nat)
    requires StorageOk(cells, spe, e, nextSeq, committed) && q < |cells| && cells[q].Rec? && DeadBehind(cells, q, e)
    ensures Newest(cells) == Some(Header(nextSeq - 1, q)) && nextSeq > 1
  {
    hide Newest, Chain, Shaped;
    SomeLive(cells, e, q);
    var p := NewestSlot(cells, spe, e, nextSeq, committed);
    assert p == q;
    ChainShorter(cells, e, nextSeq, committed);
  }

  lemma SomeLive<P>(cells: seq<Cell<P>>, e: nat, q: nat)
    requires e <= |cells| && q < |cells| && cells[q].Rec?
    ensures LiveOf(Rotated(cells, e)) != []
  {
    RotatedAt(cells, e, q);
    LiveMember(Rotated(cells, e), RingIndex(q, e, |cells|));
  }

  lemma ChainShorter<P>(cells: seq<Cell<P>>, e: nat, nextSeq: nat, committed: seq<P>)
    requires e <= |cells| && Chain(LiveOf(Rotated(cells, e)), nextSeq, committed) && LiveOf(Rotated(cells, e)) != []
    ensures nextSeq > 1
  {}

  /** When the slot before the write position holds a record, mounting finds this position. */
  lemma MountFindsPosition<P>(cells: seq<Cell<P>>, spe: nat, c: Cursor, committed: seq<P>)
    requires RingOk(cells, spe, c, committed) && |committed| < MAX_SEQ
    requires cells[Before(c.nextSlot, |cells|)].Rec?
    ensures MountCursor(cells, spe) == c
  {
    hide LiveOf, Rotated, Chain, Shaped, SectorStart, Newest, MountCursor, Geometry;
    var t, n := c.nextSlot, |cells|;
    var q := Before(t, n);
    GeometryPositive(n, spe);
    PositionBefore(t, n, spe);
    LastIsNewest(cells, spe, Base(t, n, spe), c.nextSeq, committed, q);
    MountSlot(cells, spe, q, c.nextSeq);
  }

  /** The sector of the slot before. */
  lemma PositionBefore(t: nat, n: nat, spe: nat)
    requires Geometry(n, spe) && t < n
    ensures var q := Before(t, n);
      if Aligned(t, spe) then q + 1 == End(q, n, spe) && Wrap(q + 1, n) == t
      else t > 0 && q + 1 == t < End(q, n, spe) == End(t, n, spe)
  {
    hide SectorStart, End, Aligned, Geometry;
    GeometryPositive(n, spe);
    AlignedZero(spe);
    if Aligned(t, spe) { BeforeStart(t, n, spe); } else { BeforeInside(t, n, spe); }
  }

  lemma BeforeStart(t: nat, n: nat, spe: nat)
    requires Geometry(n, spe) && t < n && spe > 0 && Aligned(t, spe)
    ensures var q := Before(t, n); q + 1 == End(q, n, spe) && Wrap(q + 1, n) == t
  {
    hide SectorStart, End, Aligned, Geometry;
    var e := EndOf(Before(t, n), n, spe);
    if t > 0 { EndBefore(t, n, spe, e); }
  }

  lemma EndOf(t: nat, n: nat, spe: nat) returns (e: nat)
    requires Geometry(n, spe) && t < n
    ensures e == End(t, n, spe) && t < e <= n && e <= t + spe && e >= spe && Aligned(e, spe) && Aligned(e - spe, spe)
  {
    hide SectorStart, Aligned, Geometry;
    e := End(t, n, spe);
  }

  lemma EndBefore(t: nat, n: nat, spe: nat, e: nat)
    requires spe > 0 && 0 < t < n && Aligned(t, spe) && t - 1 < e <= t - 1 + spe && e >= spe && Aligned(e - spe, spe)
    ensures e == t
  {
    hide Aligned;
    if e > t { AlignedGap(e - spe, t, spe); }
  }

  lemma BeforeInside(t: nat, n: nat, spe: nat)
    requires Geometry(n, spe) && 0 < t < n && !Aligned(t, spe)
    ensures t < End(t - 1, n, spe) == End(t, n, spe)
  {
    hide SectorStart, End, Aligned, Geometry;
    var e := End(t - 1, n, spe);
    assert e != t;
    EndWithin(t - 1, t, n, spe);
  }

  lemma AlignedZero(spe: nat)
    requires spe > 0
    ensures Aligned(0, spe)
  {
  }

  /** Behind a torn slot in the middle of a sector, mounting resumes in the next sector, as the
      failed write itself does. */
  lemma MountSkipsTorn<P>(cells: seq<Cell<P>>, spe: nat, c: Cursor, committed: seq<P>, x: Cell<P>)
    requires RingOk(cells, spe, c, committed) && |committed| < MAX_SEQ && !Aligned(c.nextSlot, spe) && x.Torn?
    ensures MountCursor(cells[c.nextSlot := x], spe) == c.(nextSlot := Wrap(End(c.nextSlot, |cells|, spe), |cells|))
  {
    hide LiveOf, Rotated, Chain, Shaped, SectorStart, Newest, MountCursor, Geometry;
    var t, n := c.nextSlot, |cells|;
    var q, e, s := Before(t, n), End(t, n, spe), cells[t := x];
    GeometryPositive(n, spe);
    PositionBefore(t, n, spe);
    assert Prepared(cells, spe, t) == cells;
    TornStorage(cells, spe, c, committed, x);
    LastIsNewest(s, spe, e, c.nextSeq, committed, q);
    MountSlot(s, spe, q, c.nextSeq);
  }

  // ---- How many entries a faultless log keeps ----

  /** The ring after `n` faultless appends to flash without records. */
  ghost predicate Filled<P>(cells: seq<Cell<P>>, spe: nat, t: nat, n: nat) {
    && Geometry(|cells|, spe) && t < |cells|
    && t - (End(t, |cells|, spe) - spe) == n % spe
    && (n < |cells| ==> t == n && forall i :: 0 <= i < |cells| ==> (cells[i].Rec? <==> i < n))
    && (n >= |cells| ==> forall i :: 0 <= i < |cells| ==>
          (cells[i].Rec? <==> Aligned(t, spe) || i < t || End(t, |cells|, spe) <= i))
  }

  lemma FilledStep<P>(cells: seq<Cell<P>>, spe: nat, t: nat, n: nat, m: Meta<P>)
    requires Filled(cells, spe, t, n)
    ensures Filled(Prepared(cells, spe, t)[t := Rec(m)], spe, Wrap(t + 1, |cells|), n + 1)
  {
    var e, s := End(t, |cells|, spe), Prepared(cells, spe, t)[t := Rec(m)];
    PhaseStep(|cells|, spe, t, n);
    PreparedRec(cells, spe, t, m);
    if t + 1 < e { SectorUnique(t + 1, e - spe, spe); }
  }

  lemma PhaseStep(size: nat, spe: nat, t: nat, n: nat)
    requires Geometry(size, spe) && t < size && t - (End(t, size, spe) - spe) == n % spe
    ensures var u := Wrap(t + 1, size);
      && u - (End(u, size, spe) - spe) == (n + 1) % spe
      && (t + 1 < End(t, size, spe) ==> u == t + 1 && End(u, size, spe) == End(t, size, spe) && !Aligned(u, spe))
      && (t + 1 == End(t, size, spe) ==> Aligned(u, spe))
  {
    var e := End(t, size, spe);
    ModStep(n, spe);
    assert Aligned(0, spe);
    if t + 1 < e {
      SectorUnique(t + 1, e - spe, spe);
    } else if e < size {
      SectorUnique(e, e, spe);
    }
  }

  lemma PreparedAt<P>(cells: seq<Cell<P>>, spe: nat, t: nat, i: nat)
    requires Geometry(|cells|, spe) && t < |cells| && i < |cells|
    ensures Prepared(cells, spe, t)[i] == if Aligned(t, spe) && t <= i < End(t, |cells|, spe) then Blank else cells[i]
  {
    hide LiveOf, EraseSector, SectorStart, Aligned, End;
    if Aligned(t, spe) {
      assert t == End(t, |cells|, spe) - spe;
      EraseAt(cells, t, spe, i);
    }
  }

  lemma PreparedRec<P>(cells: seq<Cell<P>>, spe: nat, t: nat, m: Meta<P>)
    requires Geometry(|cells|, spe) && t < |cells|
    ensures var s, e := Prepared(cells, spe, t)[t := Rec(m)], End(t, |cells|, spe);
      && (forall i :: 0 <= i < t || e <= i < |cells| ==> s[i] == cells[i])
      && s[t] == Rec(m)
      && (Aligned(t, spe) ==> forall i :: t < i < e ==> s[i] == Blank)
      && (!Aligned(t, spe) ==> forall i :: t < i < e ==> s[i] == cells[i])
  {
    hide Prepared, LiveOf, SectorStart;
    forall i | 0 <= i < |cells|
      ensures Prepared(cells, spe, t)[i] == if Aligned(t, spe) && t <= i < End(t, |cells|, spe) then Blank else cells[i]
    {
      PreparedAt(cells, spe, t, i);
    }
  }

  lemma ModStep(n: nat, d: nat)
    requires d > 0
    ensures (n + 1) % d == if n % d == d - 1 then 0 else n % d + 1
  {
    var q := n / d;
    assert (q + 1) * d == q * d + d;
    if n % d == d - 1 { DivUnique(n + 1, d, q + 1, 0); } else { DivUnique(n + 1, d, q, n % d + 1); }
  }

  lemma FilledCount<P>(cells: seq<Cell<P>>, spe: nat, t: nat, n: nat)
    requires Filled(cells, spe, t, n)
    ensures |LiveOf(Rotated(cells, Base(t, |cells|, spe)))|
         == if n <= |cells| then n else |cells| - (spe - n % spe) % spe
  {
    var b, e := Base(t, |cells|, spe), End(t, |cells|, spe);
    LiveConcat(cells[b..], cells[..b]);
    LiveConcat(cells[..b], cells[b..]);
    assert cells == cells[..b] + cells[b..];
    if n < |cells| {
      CountGap(cells, n, |cells|);
    } else if Aligned(t, spe) {
      AllLive(cells);
      assert n % spe == 0;
      DivUnique(spe, spe, 1, 0);
      if n == |cells| {}
    } else {
      CountGap(cells, t, e);
      DivUnique(spe - n % spe, spe, 0, spe - n % spe);
      if n == |cells| { SectorArithmetic(n, spe); }
    }
  }

  lemma CountGap<P>(cells: seq<Cell<P>>, a: nat, b: nat)
    requires a <= b <= |cells|
    requires forall i :: 0 <= i < |cells| ==> (cells[i].Rec? <==> i < a || b <= i)
    ensures |LiveOf(cells)| == |cells| - (b - a)
  {
    hide LiveOf;
    assert cells == cells[..a] + (cells[a..b] + cells[b..]);
    LiveConcat(cells[..a], cells[a..b] + cells[b..]);
    LiveConcat(cells[a..b], cells[b..]);
    AllLive(cells[..a]);
    NoneLive(cells[a..b]);
    AllLive(cells[b..]);
  }
}
