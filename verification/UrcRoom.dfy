/** Which unsolicited lines find room in the queue, and which give way to them. */
module UrcRoom {
  import opened Common
  import opened UrcQueue

  function CmtiLine(line: string): bool { IsCmti(line) }

  function NotCgev(line: string): bool { !IsCgev(line) }

  /** Making room leaves every call and pair, in order. */
  lemma {:induction false} ProtectedStay(p: Port, slots: nat)
    requires slots <= MAX_URC_BUF
    ensures var r := Reserve(p, slots).0; Keep(r.buf, IsProtected) == Keep(p.buf, IsProtected) && r.header == p.header
    ensures !Reserve(p, slots).1 ==> Reserve(p, slots).0.buf == Keep(p.buf, IsProtected)
    decreases |p.buf|
  {
    hide RemoveAt, IsCgev, IsCmti, Keep;
    if |p.buf| + slots > MAX_URC_BUF {
      var i, k := Position(p.buf, IsCgev), Position(p.buf, IsCmti);
      if i < |p.buf| {
        GoneFor(p.buf, i);
        ProtectedStay(p.(buf := RemoveAt(p.buf, i)), slots);
      } else if k < |p.buf| {
        GoneFor(p.buf, k);
        ProtectedStay(p.(buf := RemoveAt(p.buf, k), lost := p.lost + 1), slots);
      } else {
        KeepAll(p.buf, IsProtected);
      }
    }
  }

  lemma GoneFor(buf: seq<string>, i: nat)
    requires i < |buf| && (IsCgev(buf[i]) || IsCmti(buf[i]))
    ensures Keep(RemoveAt(buf, i), IsProtected) == Keep(buf, IsProtected) && |RemoveAt(buf, i)| == |buf| - 1
  {
    hide IsCgev, IsCmti;
    KeepRemove(buf, i, IsProtected);
  }

  lemma {:induction false} KeepShorter<T>(xs: seq<T>, f: T -> bool)
    ensures |Keep(xs, f)| <= |xs|
  {
    if xs != [] { KeepShorter(xs[1..], f); }
  }

  /** Room is made exactly when what nothing may push out leaves it. */
  lemma RoomExactly(p: Port, slots: nat)
    requires slots <= MAX_URC_BUF
    ensures Reserve(p, slots).1 <==> |Keep(p.buf, IsProtected)| + slots <= MAX_URC_BUF
  {
    hide Reserve, Keep;
    ProtectedStay(p, slots);
    KeepShorter(Reserve(p, slots).0.buf, IsProtected);
  }

  /** Message notices are pushed out oldest first, each of them counted. */
  lemma {:induction false} OldestNoticeFirst(p: Port, slots: nat)
    requires slots <= MAX_URC_BUF
    ensures var r, notices := Reserve(p, slots).0, Keep(p.buf, CmtiLine);
      && 0 <= r.lost - p.lost <= |notices| && Keep(r.buf, CmtiLine) == notices[r.lost - p.lost..]
    decreases |p.buf|
  {
    hide RemoveAt, IsCgev, IsCmti, Keep;
    if |p.buf| + slots > MAX_URC_BUF {
      var i, k := Position(p.buf, IsCgev), Position(p.buf, IsCmti);
      if i < |p.buf| {
        GoneFor(p.buf, i);
        CgevIsNoNotice(p.buf, i);
        OldestNoticeFirst(p.(buf := RemoveAt(p.buf, i)), slots);
      } else if k < |p.buf| {
        GoneFor(p.buf, k);
        FirstNotice(p.buf);
        OldestNoticeFirst(p.(buf := RemoveAt(p.buf, k), lost := p.lost + 1), slots);
      }
    }
  }

  lemma CgevIsNoNotice(buf: seq<string>, i: nat)
    requires i < |buf| && IsCgev(buf[i])
    ensures Keep(RemoveAt(buf, i), CmtiLine) == Keep(buf, CmtiLine)
  {
    EvictableLine(buf[i]);
    hide IsCgev, IsCmti;
    KeepRemove(buf, i, CmtiLine);
  }

  lemma FirstNotice(buf: seq<string>)
    requires Position(buf, IsCmti) < |buf|
    ensures var notices := Keep(buf, CmtiLine);
      notices != [] && Keep(RemoveAt(buf, Position(buf, IsCmti)), CmtiLine) == notices[1..]
  {
    hide IsCmti, Keep, RemoveAt;
    FirstKept(buf, CmtiLine);
    SamePosition(buf);
  }

  lemma {:induction false} SamePosition(buf: seq<string>)
    ensures Position(buf, CmtiLine) == Position(buf, IsCmti)
  {
    hide IsCmti;
    if buf != [] { SamePosition(buf[1..]); }
  }

  /** A notification that is no +CGEV is queued behind everything unless 32 calls and pair lines
      are; nothing gives way to it while there is room. */
  lemma LineIsQueued(p: Port, line: string)
    requires !IsCgev(line)
    ensures var q, r := QueueUrc(p, line), Reserve(p, 1).0;
      && (|Keep(p.buf, IsProtected)| < MAX_URC_BUF ==> q == r.(buf := r.buf + [line]))
      && (|Keep(p.buf, IsProtected)| >= MAX_URC_BUF ==> q.buf == Keep(p.buf, IsProtected) && q.lost == r.lost + 1)
      && (|p.buf| < MAX_URC_BUF ==> q == p.(buf := p.buf + [line]))
  {
    hide Keep, IsCgev, IsCmti;
    RoomExactly(p, 1);
    ProtectedStay(p, 1);
  }

  /** A +CGEV takes the place of the queued one, or the last place but one; it never pushes
      anything out and is never counted. */
  lemma CgevIsQueued(p: Port, line: string)
    requires IsCgev(line) && CountIf(p.buf, CgevLine) <= 1
    ensures var q := QueueUrc(p, line);
      && q.(buf := p.buf) == p && Keep(q.buf, NotCgev) == Keep(p.buf, NotCgev)
      && (Keep(q.buf, CgevLine) == if CountIf(p.buf, CgevLine) == 1 || |p.buf| < MAX_URC_BUF - 1 then [line] else [])
  {
    hide Keep, IsCgev, IsCmti, CountIf, RemoveAt;
    var i := Position(p.buf, IsCgev);
    CountConcat(p.buf, [line], NotCgev);
    CountConcat(p.buf, [line], CgevLine);
    CountOne(line, NotCgev);
    CountOne(line, CgevLine);
    if i < |p.buf| {
      CountRemove(p.buf, i, CgevLine);
      CountUpdate(p.buf, i, line, NotCgev);
      CountNone(RemoveAt(p.buf, i), CgevLine);
      OnlyOne(p.buf, i, line);
    } else {
      CountAbsent(p.buf, CgevLine);
      KeepNone(p.buf, CgevLine);
    }
  }

  lemma OnlyOne(buf: seq<string>, i: nat, line: string)
    requires i < |buf| && IsCgev(line)
    requires forall j :: 0 <= j < |RemoveAt(buf, i)| ==> !CgevLine(RemoveAt(buf, i)[j])
    ensures Keep(buf[i := line], CgevLine) == [line]
  {
    hide Keep, IsCgev;
    var a, b, rest := buf[..i], buf[i + 1..], RemoveAt(buf, i);
    forall j | 0 <= j < |a| ensures !CgevLine(a[j]) { assert rest[j] == a[j]; }
    forall j | 0 <= j < |b| ensures !CgevLine(b[j]) { assert rest[i + j] == b[j]; }
    KeepNone(a, CgevLine);
    KeepNone(b, CgevLine);
    KeepAll([line], CgevLine);
    assert buf[i := line] == a + ([line] + b);
    KeepConcat(a, [line] + b, CgevLine);
    KeepConcat([line], b, CgevLine);
  }

  /** A completed delivery is queued, header before body, unless fewer than two places can be
      made for it; then it is counted as one loss. */
  lemma PairIsQueued(p: Port, body: string)
    requires p.header.Some? && IsHexLine(body)
    ensures var (q, how) := Route(p, body);
      var r := Reserve(p.(header := None), 2).0;
      if |Keep(p.buf, IsProtected)| + 2 <= MAX_URC_BUF then
        how == Paired && q == r.(buf := r.buf + [p.header.value, body])
      else how == Refused && q.buf == Keep(p.buf, IsProtected) && q.lost == r.lost + 1 && q.header == None
  {
    HexIsNoUrc(body);
    hide Keep, IsHexLine, IsHeader, Reserve;
    RoomExactly(p.(header := None), 2);
    ProtectedStay(p.(header := None), 2);
  }
}
