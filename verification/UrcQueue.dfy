/** Unsolicited lines from the modem: a bounded queue that gives way to calls and direct
    deliveries, and two-line +CMT deliveries that are never split. */
module UrcQueue {
  import opened Common

  const MAX_URC_BUF: nat := 32
  const MAX_U32: nat := 0xFFFF_FFFF

  predicate StartsWith(line: string, prefix: string) {
    prefix <= line
  }

  predicate IsCgev(line: string) { StartsWith(line, "+CGEV:") }
  predicate IsCmti(line: string) { StartsWith(line, "+CMTI:") }
  predicate IsHeader(line: string) { StartsWith(line, "+CMT:") }

  predicate IsHexDigit(c: char) {
    '0' <= c <= '9' || 'a' <= c <= 'f' || 'A' <= c <= 'F'
  }

  predicate IsHexLine(line: string) {
    line != "" && |line| % 2 == 0 && forall i :: 0 <= i < |line| ==> IsHexDigit(line[i])
  }

  lemma HexIsNoUrc(line: string)
    requires IsHexLine(line)
    ensures !IsCgev(line) && !IsCmti(line) && !IsHeader(line)
  {
    assert IsHexDigit(line[0]);
  }

  lemma HeaderIsNothingElse(line: string)
    requires IsHeader(line)
    ensures !IsCgev(line) && !IsCmti(line) && !IsHexLine(line)
  {
    assert line[0] == '+' && line[4] == ':' && line[2] == 'M';
  }

  /** The queue, a +CMT header waiting for its body, and the number of losses. */
  datatype Port = Port(buf: seq<string>, header: Option<string>, lost: nat)

  function Reserve(p: Port, slots: nat): (r: (Port, bool))
    requires slots <= MAX_URC_BUF
    ensures r.1 <==> |r.0.buf| + slots <= MAX_URC_BUF
    decreases |p.buf|
  {
    if |p.buf| + slots <= MAX_URC_BUF then (p, true)
    else
      var i := Position(p.buf, IsCgev);
      if i < |p.buf| then Reserve(p.(buf := RemoveAt(p.buf, i)), slots)
      else
        var k := Position(p.buf, IsCmti);
        if k < |p.buf| then Reserve(p.(buf := RemoveAt(p.buf, k), lost := p.lost + 1), slots)
        else (p, false)
  }

  function QueueUrc(p: Port, line: string): Port {
    if IsCgev(line) then
      var i := Position(p.buf, IsCgev);
      if i < |p.buf| then p.(buf := p.buf[i := line])
      else if |p.buf| < MAX_URC_BUF - 1 then p.(buf := p.buf + [line])
      else p
    else
      var (r, ok) := Reserve(p, 1);
      if ok then r.(buf := r.buf + [line]) else r.(lost := r.lost + 1)
  }

  function DropHeader(p: Port): Port {
    if p.header.Some? then p.(header := None, lost := p.lost + 1) else p
  }

  datatype Routed = NotPart | Held | Paired | Refused

  /** A +CMT header is held back; the next hex line completes the pair. */
  function Route(p: Port, line: string): (Port, Routed) {
    if IsHeader(line) then (DropHeader(p).(header := Some(line)), Held)
    else if p.header.Some? && IsHexLine(line) then
      var (r, ok) := Reserve(p.(header := None), 2);
      if ok then (r.(buf := r.buf + [p.header.value, line]), Paired) else (r.(lost := r.lost + 1), Refused)
    else (p, NotPart)
  }

  // ---- The port and main's half of the protocol ----

  /** `expecting` is main's flag: the header it got last, whose body is due.  The rest is
      history: every line routed, where the waiting header was, which header went with which
      body, how many notifications arrived and how many main took. */
  datatype State = State(port: Port, expecting: Option<string>, direct: seq<(string, string)>,
                         lines: seq<string>, headerAt: nat, accepted: seq<(nat, nat)>, arrived: nat, taken: nat)

  /** `queue` says whether a line that is no part of a pair goes to the queue or elsewhere. */
  datatype Event = Received(line: string, queue: bool) | Expired | Overlong | Poll | PollLine(line: string)

  function One(b: bool): nat {
    if b then 1 else 0
  }

  function Receive(st: State, line: string, queue: bool): State {
    var (port, how) := Route(st.port, line);
    var at := |st.lines|;
    var heard := st.(port := port, lines := st.lines + [line]);
    match how
    case Held => heard.(headerAt := at, arrived := st.arrived + 1)
    case Paired => heard.(accepted := st.accepted + [(st.headerAt, at)])
    case Refused => heard
    case NotPart =>
      if queue then heard.(port := QueueUrc(port, line), arrived := st.arrived + One(!IsCgev(line))) else heard
  }

  /** What main makes of a polled line. */
  function Handle(st: State, line: string): State {
    if st.expecting.Some? then st.(expecting := None, direct := st.direct + [(st.expecting.value, line)])
    else if IsHeader(line) then st.(expecting := Some(line))
    else st
  }

  function PopFront(st: State): State
    requires st.port.buf != []
  {
    var line := st.port.buf[0];
    Handle(st.(port := st.port.(buf := st.port.buf[1..]),
               taken := st.taken + One(!IsCgev(line) && !IsHeader(line))), line)
  }

  function Step(st: State, e: Event): State {
    match e
    case Received(line, queue) => Receive(st, line, queue)
    case Expired => st.(port := DropHeader(st.port))
    case Overlong => st.(port := DropHeader(st.port))
    case Poll => if st.port.buf == [] then st else PopFront(st)
    case PollLine(line) =>
      if st.port.buf != [] then st
      else
        var heard := Receive(st, line, false);
        if Route(st.port, line).1.NotPart? then Handle(heard, line)
        else if heard.port.buf != [] then PopFront(heard)
        else heard
  }

  function Run(st: State, es: seq<Event>): State
    decreases |es|
  {
    if es == [] then st else Run(Step(st, es[0]), es[1..])
  }

  function Fresh(): State {
    State(Port([], None, 0), None, [], [], 0, [], 0, 0)
  }

  // ---- Queue contents ----

  function CountIf<T>(xs: seq<T>, f: T -> bool): nat {
    if xs == [] then 0 else One(f(xs[0])) + CountIf(xs[1..], f)
  }

  lemma {:induction false} CountConcat<T>(a: seq<T>, b: seq<T>, f: T -> bool)
    ensures CountIf(a + b, f) == CountIf(a, f) + CountIf(b, f)
    ensures Keep(a + b, f) == Keep(a, f) + Keep(b, f)
  {
    KeepConcat(a, b, f);
    if a == [] {
      assert a + b == b;
    } else {
      assert (a + b)[1..] == a[1..] + b;
      CountConcat(a[1..], b, f);
    }
  }

  lemma CountOne<T>(x: T, f: T -> bool)
    ensures CountIf([x], f) == One(f(x)) && Keep([x], f) == if f(x) then [x] else []
  {
    assert [x][1..] == [];
  }

  lemma CountRemove<T>(xs: seq<T>, i: nat, f: T -> bool)
    requires i < |xs|
    ensures CountIf(RemoveAt(xs, i), f) + One(f(xs[i])) == CountIf(xs, f)
    ensures !f(xs[i]) ==> Keep(RemoveAt(xs, i), f) == Keep(xs, f)
  {
    hide CountIf, Keep;
    var a, b := xs[..i], xs[i + 1..];
    assert xs == a + ([xs[i]] + b);
    CountConcat(a, [xs[i]] + b, f);
    CountConcat([xs[i]], b, f);
    CountOne(xs[i], f);
    CountConcat(a, b, f);
    assert [] + Keep(b, f) == Keep(b, f);
  }

  lemma CountUpdate<T>(xs: seq<T>, i: nat, x: T, f: T -> bool)
    requires i < |xs| && f(x) == f(xs[i])
    ensures CountIf(xs[i := x], f) == CountIf(xs, f)
    ensures !f(x) ==> Keep(xs[i := x], f) == Keep(xs, f)
  {
    CountRemove(xs, i, f);
    CountRemove(xs[i := x], i, f);
    assert RemoveAt(xs[i := x], i) == RemoveAt(xs, i);
  }

  lemma {:induction false} CountNone<T>(xs: seq<T>, f: T -> bool)
    requires CountIf(xs, f) == 0
    ensures forall i :: 0 <= i < |xs| ==> !f(xs[i])
  {
    if xs != [] { CountNone(xs[1..], f); }
  }

  lemma {:induction false} CountAbsent<T>(xs: seq<T>, f: T -> bool)
    requires forall i :: 0 <= i < |xs| ==> !f(xs[i])
    ensures CountIf(xs, f) == 0
  {
    if xs != [] { CountAbsent(xs[1..], f); }
  }

  /** One per notification: a pair counts by its body. */
  function IsUnit(line: string): bool { !IsCgev(line) && !IsHeader(line) }

  /** Calls and pairs, which nothing may push out. */
  function IsProtected(line: string): bool { !IsCgev(line) && !IsCmti(line) }

  function CgevLine(line: string): bool { IsCgev(line) }

  // ---- Pairs in the queue ----

  /** Every header is followed by its body. */
  predicate PairedUp(buf: seq<string>) {
    buf == [] ||
    (if IsHeader(buf[0]) then |buf| >= 2 && IsHexLine(buf[1]) && PairedUp(buf[2..]) else PairedUp(buf[1..]))
  }

  function QueuePairs(buf: seq<string>): seq<(string, string)> {
    if |buf| < 2 then []
    else if IsHeader(buf[0]) then [(buf[0], buf[1])] + QueuePairs(buf[2..])
    else QueuePairs(buf[1..])
  }

  lemma {:induction false} PairsConcat(a: seq<string>, b: seq<string>)
    requires PairedUp(a) && PairedUp(b)
    ensures PairedUp(a + b) && QueuePairs(a + b) == QueuePairs(a) + QueuePairs(b)
    decreases |a|
  {
    hide IsHeader, IsHexLine;
    if a == [] {
      assert a + b == b;
    } else if IsHeader(a[0]) {
      assert (a + b)[2..] == a[2..] + b;
      PairsConcat(a[2..], b);
    } else {
      assert (a + b)[1..] == a[1..] + b;
      PairsConcat(a[1..], b);
    }
  }

  lemma PairsOne(line: string)
    requires !IsHeader(line)
    ensures PairedUp([line]) && QueuePairs([line]) == []
  {
    assert [line][1..] == [];
  }

  lemma PairsTwo(header: string, body: string)
    requires IsHeader(header) && IsHexLine(body)
    ensures PairedUp([header, body]) && QueuePairs([header, body]) == [(header, body)]
  {
    assert [header, body][2..] == [];
  }

  /** Taking out a line that belongs to no pair leaves every pair whole. */
  lemma {:induction false} PairsRemove(buf: seq<string>, i: nat)
    requires PairedUp(buf) && i < |buf| && !IsHeader(buf[i]) && !IsHexLine(buf[i])
    ensures PairedUp(RemoveAt(buf, i)) && QueuePairs(RemoveAt(buf, i)) == QueuePairs(buf)
    decreases |buf|
  {
    hide IsHeader, IsHexLine;
    var r := RemoveAt(buf, i);
    if i == 0 {
      assert r == buf[1..];
      if |buf| == 1 { assert r == []; }
    } else if IsHeader(buf[0]) {
      assert r[2..] == RemoveAt(buf[2..], i - 2);
      PairsRemove(buf[2..], i - 2);
    } else {
      assert r[1..] == RemoveAt(buf[1..], i - 1);
      PairsRemove(buf[1..], i - 1);
      if |r| < 2 { assert |buf[1..]| == 1; }
    }
  }

  lemma PairsUpdate(buf: seq<string>, i: nat, line: string)
    requires PairedUp(buf) && i < |buf| && !IsHeader(buf[i]) && !IsHexLine(buf[i])
    requires !IsHeader(line) && !IsHexLine(line)
    ensures PairedUp(buf[i := line]) && QueuePairs(buf[i := line]) == QueuePairs(buf)
    decreases |buf|
  {
    hide IsHeader, IsHexLine;
    var r := buf[i := line];
    if i == 0 {
      assert r[1..] == buf[1..];
    } else if IsHeader(buf[0]) {
      assert r[2..] == buf[2..][i - 2 := line];
      PairsUpdate(buf[2..], i - 2, line);
    } else {
      assert r[1..] == buf[1..][i - 1 := line];
      PairsUpdate(buf[1..], i - 1, line);
    }
  }

  /** The queue as main sees it: if main got a header last, its body is in front. */
  predicate Shape(buf: seq<string>, expecting: Option<string>) {
    if expecting.Some? then buf != [] && IsHexLine(buf[0]) && PairedUp(buf[1..]) else PairedUp(buf)
  }

  /** Pairs main has still to get, the one it is in the middle of first. */
  function Due(buf: seq<string>, expecting: Option<string>): seq<(string, string)>
    requires Shape(buf, expecting)
  {
    if expecting.Some? then [(expecting.value, buf[0])] + QueuePairs(buf[1..]) else QueuePairs(buf)
  }

  lemma ShapeRemove(buf: seq<string>, expecting: Option<string>, i: nat)
    requires Shape(buf, expecting) && i < |buf| && !IsHeader(buf[i]) && !IsHexLine(buf[i])
    ensures Shape(RemoveAt(buf, i), expecting) && Due(RemoveAt(buf, i), expecting) == Due(buf, expecting)
  {
    hide IsHeader, IsHexLine, PairedUp, QueuePairs;
    if expecting.Some? {
      assert RemoveAt(buf, i)[1..] == RemoveAt(buf[1..], i - 1);
      PairsRemove(buf[1..], i - 1);
    } else {
      PairsRemove(buf, i);
    }
  }

  lemma ShapeUpdate(buf: seq<string>, expecting: Option<string>, i: nat, line: string)
    requires Shape(buf, expecting) && i < |buf| && !IsHeader(buf[i]) && !IsHexLine(buf[i])
    requires !IsHeader(line) && !IsHexLine(line)
    ensures Shape(buf[i := line], expecting) && Due(buf[i := line], expecting) == Due(buf, expecting)
  {
    hide IsHeader, IsHexLine, PairedUp, QueuePairs;
    if expecting.Some? {
      assert buf[i := line][1..] == buf[1..][i - 1 := line];
      PairsUpdate(buf[1..], i - 1, line);
    } else {
      PairsUpdate(buf, i, line);
    }
  }

  lemma ShapeConcat(buf: seq<string>, expecting: Option<string>, more: seq<string>)
    requires Shape(buf, expecting) && PairedUp(more)
    ensures Shape(buf + more, expecting) && Due(buf + more, expecting) == Due(buf, expecting) + QueuePairs(more)
  {
    hide IsHeader, IsHexLine, PairedUp, QueuePairs;
    if expecting.Some? {
      assert (buf + more)[1..] == buf[1..] + more;
      PairsConcat(buf[1..], more);
    } else {
      PairsConcat(buf, more);
    }
  }

  lemma EvictableLine(line: string)
    requires IsCgev(line) || IsCmti(line)
    ensures !IsHeader(line) && !IsHexLine(line) && (IsCgev(line) <==> !IsCmti(line))
  {
    assert line[0] == '+' && !IsHexDigit(line[0]);
    assert IsCgev(line) ==> line[2] == 'G';
    assert IsCmti(line) ==> line[2] == 'M' && line[4] == 'I';
  }

  // ---- Reserving and queuing ----

  /** Making room: pairs and calls stay as they are, every message notice pushed out is
      counted, and it fails only when nothing is left that may be pushed out. */
  lemma {:induction false} ReserveKeeps(p: Port, slots: nat, expecting: Option<string>)
    requires slots <= MAX_URC_BUF && Shape(p.buf, expecting)
    ensures var (r, ok) := Reserve(p, slots);
      && Shape(r.buf, expecting) && Due(r.buf, expecting) == Due(p.buf, expecting) && r.header == p.header
      && Keep(r.buf, IsProtected) == Keep(p.buf, IsProtected)
      && CountIf(r.buf, IsUnit) + r.lost == CountIf(p.buf, IsUnit) + p.lost
      && CountIf(r.buf, CgevLine) <= CountIf(p.buf, CgevLine) && |r.buf| <= |p.buf|
      && (!ok ==> forall i :: 0 <= i < |r.buf| ==> IsProtected(r.buf[i]))
    decreases |p.buf|
  {
    hide IsHeader, IsHexLine, Shape, Due, CountIf, Keep, RemoveAt, IsCgev, IsCmti;
    if |p.buf| + slots > MAX_URC_BUF {
      var i := Position(p.buf, IsCgev);
      if i < |p.buf| {
        EvictStep(p.buf, expecting, i);
        ReserveKeeps(p.(buf := RemoveAt(p.buf, i)), slots, expecting);
      } else {
        var k := Position(p.buf, IsCmti);
        if k < |p.buf| {
          EvictStep(p.buf, expecting, k);
          ReserveKeeps(p.(buf := RemoveAt(p.buf, k), lost := p.lost + 1), slots, expecting);
        }
      }
    }
  }

  lemma EvictStep(buf: seq<string>, expecting: Option<string>, i: nat)
    requires Shape(buf, expecting) && i < |buf| && (IsCgev(buf[i]) || IsCmti(buf[i]))
    ensures var r := RemoveAt(buf, i);
      && Shape(r, expecting) && Due(r, expecting) == Due(buf, expecting) && |r| == |buf| - 1
      && Keep(r, IsProtected) == Keep(buf, IsProtected)
      && CountIf(r, IsUnit) + One(!IsCgev(buf[i])) == CountIf(buf, IsUnit)
      && CountIf(r, CgevLine) <= CountIf(buf, CgevLine)
  {
    EvictableLine(buf[i]);
    hide IsHeader, IsHexLine, Shape, Due, CountIf, Keep, IsCgev, IsCmti;
    ShapeRemove(buf, expecting, i);
    CountRemove(buf, i, IsProtected);
    CountRemove(buf, i, IsUnit);
    CountRemove(buf, i, CgevLine);
  }

  /** Queuing a line that is no header: at most one notice more, none lost uncounted. */
  lemma QueueKeeps(p: Port, line: string, expecting: Option<string>)
    requires Shape(p.buf, expecting) && !IsHeader(line) && |p.buf| <= MAX_URC_BUF && CountIf(p.buf, CgevLine) <= 1
    ensures var q := QueueUrc(p, line);
      && Shape(q.buf, expecting) && Due(q.buf, expecting) == Due(p.buf, expecting) && q.header == p.header
      && Keep(p.buf, IsProtected) <= Keep(q.buf, IsProtected)
      && CountIf(q.buf, IsUnit) + q.lost == CountIf(p.buf, IsUnit) + p.lost + One(!IsCgev(line))
      && CountIf(q.buf, CgevLine) <= 1 && |q.buf| <= MAX_URC_BUF
  {
    PairsOne(line);
    hide IsHeader, IsHexLine, Shape, CountIf, Keep, IsCgev, IsCmti, Reserve, PairedUp;
    if IsCgev(line) {
      EvictableLine(line);
      var i := Position(p.buf, IsCgev);
      if i < |p.buf| {
        EvictableLine(p.buf[i]);
        ShapeUpdate(p.buf, expecting, i, line);
        CountUpdate(p.buf, i, line, IsProtected);
        CountUpdate(p.buf, i, line, IsUnit);
        CountUpdate(p.buf, i, line, CgevLine);
      } else {
        CountAbsent(p.buf, CgevLine);
        AppendLine(p.buf, expecting, line);
      }
    } else {
      ReserveKeeps(p, 1, expecting);
      AppendLine(Reserve(p, 1).0.buf, expecting, line);
    }
  }

  lemma AppendLine(buf: seq<string>, expecting: Option<string>, line: string)
    requires Shape(buf, expecting) && !IsHeader(line)
    ensures Shape(buf + [line], expecting) && Due(buf + [line], expecting) == Due(buf, expecting)
    ensures Keep(buf, IsProtected) <= Keep(buf + [line], IsProtected)
    ensures CountIf(buf + [line], IsUnit) == CountIf(buf, IsUnit) + One(!IsCgev(line))
    ensures CountIf(buf + [line], CgevLine) == CountIf(buf, CgevLine) + One(IsCgev(line))
  {
    PairsOne(line);
    hide IsHeader, IsHexLine, Shape, CountIf, Keep, IsCgev, IsCmti, PairedUp;
    ShapeConcat(buf, expecting, [line]);
    CountConcat(buf, [line], IsProtected);
    CountConcat(buf, [line], IsUnit);
    CountConcat(buf, [line], CgevLine);
    CountOne(line, IsProtected);
    CountOne(line, IsUnit);
    CountOne(line, CgevLine);
  }

  lemma AppendPair(buf: seq<string>, expecting: Option<string>, header: string, body: string)
    requires Shape(buf, expecting) && IsHeader(header) && IsHexLine(body)
    ensures var after := buf + [header, body];
      && Shape(after, expecting) && Due(after, expecting) == Due(buf, expecting) + [(header, body)]
      && Keep(buf, IsProtected) <= Keep(after, IsProtected)
      && CountIf(after, IsUnit) == CountIf(buf, IsUnit) + 1
      && CountIf(after, CgevLine) == CountIf(buf, CgevLine)
  {
    HexIsNoUrc(body);
    HeaderIsNothingElse(header);
    PairsTwo(header, body);
    hide IsHexLine, Shape, CountIf, Keep, IsCmti, PairedUp, QueuePairs;
    var pair := [header, body];
    assert pair == [header] + [body];
    ShapeConcat(buf, expecting, pair);
    CountConcat(buf, pair, IsProtected);
    CountConcat(buf, pair, IsUnit);
    CountConcat(buf, pair, CgevLine);
    CountConcat([header], [body], IsUnit);
    CountConcat([header], [body], CgevLine);
    CountOne(header, IsUnit);
    CountOne(body, IsUnit);
    CountOne(header, CgevLine);
    CountOne(body, CgevLine);
  }

  /** Routing: a completed pair joins the queue whole or is counted as lost. */
  lemma RouteKeeps(p: Port, line: string, expecting: Option<string>)
    requires Shape(p.buf, expecting) && |p.buf| <= MAX_URC_BUF && CountIf(p.buf, CgevLine) <= 1
    requires p.header.Some? ==> IsHeader(p.header.value)
    ensures var (q, how) := Route(p, line);
      && Shape(q.buf, expecting)
      && Due(q.buf, expecting) == Due(p.buf, expecting) + (if how.Paired? then [(p.header.value, line)] else [])
      && (how.Held? <==> IsHeader(line)) && (how.NotPart? ==> q == p) && (how.Held? ==> q.header == Some(line))
      && (how.Paired? || how.Refused? ==> p.header.Some? && IsHexLine(line) && q.header == None)
      && Keep(p.buf, IsProtected) <= Keep(q.buf, IsProtected)
      && CountIf(q.buf, IsUnit) + q.lost + One(q.header.Some?)
         == CountIf(p.buf, IsUnit) + p.lost + One(p.header.Some?) + One(IsHeader(line))
      && CountIf(q.buf, CgevLine) <= 1 && |q.buf| <= MAX_URC_BUF
  {
    hide IsHeader, IsHexLine, Shape, CountIf, Keep, IsCgev, IsCmti, Reserve, PairedUp, Due;
    if !IsHeader(line) && p.header.Some? && IsHexLine(line) {
      ReserveKeeps(p.(header := None), 2, expecting);
      var r := Reserve(p.(header := None), 2).0;
      AppendPair(r.buf, expecting, p.header.value, line);
    }
  }

  // ---- The invariant over runs ----

  /** Line `j` is the first hex line after header line `i`, with no other header between. */
  ghost predicate FirstHexAfter(lines: seq<string>, i: nat, j: nat) {
    && i < j < |lines| && IsHeader(lines[i]) && IsHexLine(lines[j])
    && forall k :: i < k < j ==> !IsHeader(lines[k]) && !IsHexLine(lines[k])
  }

  /** The waiting header is line `i`, and nothing after it could be its body. */
  ghost predicate WaitingAt(lines: seq<string>, header: string, i: nat) {
    && i < |lines| && lines[i] == header && IsHeader(header)
    && forall k :: i < k < |lines| ==> !IsHeader(lines[k]) && !IsHexLine(lines[k])
  }

  ghost predicate AcceptedOk(lines: seq<string>, accepted: seq<(nat, nat)>) {
    forall m :: 0 <= m < |accepted| ==> FirstHexAfter(lines, accepted[m].0, accepted[m].1)
  }

  function PairTexts(lines: seq<string>, accepted: seq<(nat, nat)>): seq<(string, string)>
    requires forall m :: 0 <= m < |accepted| ==> accepted[m].0 < |lines| && accepted[m].1 < |lines|
  {
    seq(|accepted|, m requires 0 <= m < |accepted| => (lines[accepted[m].0], lines[accepted[m].1]))
  }

  ghost predicate Inv(st: State) {
    && |st.port.buf| <= MAX_URC_BUF && CountIf(st.port.buf, CgevLine) <= 1
    && Shape(st.port.buf, st.expecting)
    && AcceptedOk(st.lines, st.accepted)
    && st.direct + Due(st.port.buf, st.expecting) == PairTexts(st.lines, st.accepted)
    && (st.port.header.Some? ==> WaitingAt(st.lines, st.port.header.value, st.headerAt))
    && st.arrived == st.taken + CountIf(st.port.buf, IsUnit) + One(st.port.header.Some?) + st.port.lost
  }

  lemma AcceptedBounds(lines: seq<string>, accepted: seq<(nat, nat)>)
    requires AcceptedOk(lines, accepted)
    ensures forall m :: 0 <= m < |accepted| ==> accepted[m].0 < |lines| && accepted[m].1 < |lines|
  {
    forall m | 0 <= m < |accepted| ensures accepted[m].0 < |lines| && accepted[m].1 < |lines| {
      assert FirstHexAfter(lines, accepted[m].0, accepted[m].1);
    }
  }

  lemma LinesGrow(lines: seq<string>, accepted: seq<(nat, nat)>, line: string)
    requires AcceptedOk(lines, accepted)
    ensures AcceptedOk(lines + [line], accepted)
    ensures PairTexts(lines + [line], accepted) == PairTexts(lines, accepted)
  {
    forall m | 0 <= m < |accepted| ensures FirstHexAfter(lines + [line], accepted[m].0, accepted[m].1) {
      assert FirstHexAfter(lines, accepted[m].0, accepted[m].1);
    }
  }

  lemma PairAccepted(lines: seq<string>, accepted: seq<(nat, nat)>, header: string, i: nat, line: string)
    requires AcceptedOk(lines, accepted) && WaitingAt(lines, header, i) && IsHexLine(line)
    ensures AcceptedOk(lines + [line], accepted + [(i, |lines|)])
    ensures PairTexts(lines + [line], accepted + [(i, |lines|)]) == PairTexts(lines, accepted) + [(header, line)]
  {
    hide IsHexLine, IsHeader;
    LinesGrow(lines, accepted, line);
    assert FirstHexAfter(lines + [line], i, |lines|);
  }

  lemma ReceiveInv(st: State, line: string, queue: bool)
    requires Inv(st)
    ensures Inv(Receive(st, line, queue))
    ensures Keep(st.port.buf, IsProtected) <= Keep(Receive(st, line, queue).port.buf, IsProtected)
  {
    hide IsHeader, IsHexLine, Shape, CountIf, Keep, IsCgev, IsCmti, Due, AcceptedOk, PairTexts, Route, QueueUrc;
    RouteKeeps(st.port, line, st.expecting);
    LinesGrow(st.lines, st.accepted, line);
    var (port, how) := Route(st.port, line);
    match how {
      case Held =>
      case Paired =>
        PairAccepted(st.lines, st.accepted, st.port.header.value, st.headerAt, line);
        assert st.direct + (Due(st.port.buf, st.expecting) + [(st.port.header.value, line)])
            == (st.direct + Due(st.port.buf, st.expecting)) + [(st.port.header.value, line)];
      case Refused =>
      case NotPart =>
        StillWaiting(st, line);
        if queue { QueueKeeps(port, line, st.expecting); }
    }
  }

  lemma StillWaiting(st: State, line: string)
    requires Inv(st) && Route(st.port, line).1.NotPart?
    ensures st.port.header.Some? ==> WaitingAt(st.lines + [line], st.port.header.value, st.headerAt)
  {
    hide IsHeader, IsHexLine, Shape, CountIf, Keep, Due, AcceptedOk, PairTexts, Reserve;
  }

  lemma BodyIsHex(buf: seq<string>, expecting: Option<string>)
    requires Shape(buf, expecting) && buf != [] && expecting.Some?
    ensures IsHexLine(buf[0])
  {}

  lemma PopInv(st: State)
    requires Inv(st) && st.port.buf != []
    ensures Inv(PopFront(st))
  {
    hide IsHexLine, Shape, CountIf, Keep, IsCmti, Due, AcceptedOk, PairTexts, PairedUp;
    var line, rest := st.port.buf[0], st.port.buf[1..];
    CountOne(line, IsUnit);
    assert st.port.buf == [line] + rest;
    CountConcat([line], rest, IsUnit);
    CountConcat([line], rest, CgevLine);
    PopShape(st.port.buf, st.expecting);
    if st.expecting.Some? {
      BodyIsHex(st.port.buf, st.expecting);
      HexIsNoUrc(line);
      Associate(st.direct, [(st.expecting.value, line)], Due(rest, None));
    }
  }

  /** Taking the front line: a header leaves its body next, anything else leaves whole pairs. */
  lemma PopShape(buf: seq<string>, expecting: Option<string>)
    requires Shape(buf, expecting) && buf != []
    ensures var now := if expecting.None? && IsHeader(buf[0]) then Some(buf[0]) else None;
      && Shape(buf[1..], now)
      && Due(buf, expecting) == (if expecting.Some? then [(expecting.value, buf[0])] else []) + Due(buf[1..], now)
  {
    hide IsHexLine;
    if expecting.None? {
      if IsHeader(buf[0]) {
        assert buf[1..][1..] == buf[2..];
      } else if |buf| == 1 {
        assert QueuePairs(buf[1..]) == [];
      }
    }
  }

  lemma DropInv(st: State)
    requires Inv(st)
    ensures Inv(st.(port := DropHeader(st.port)))
  {
    hide IsHeader, IsHexLine, Shape, CountIf, Keep, Due, AcceptedOk, PairTexts;
  }

  lemma StepInv(st: State, e: Event)
    requires Inv(st)
    ensures Inv(Step(st, e))
  {
    hide IsHeader, IsHexLine, Inv, Route, Receive, PopFront;
    match e {
      case Received(line, queue) => ReceiveInv(st, line, queue);
      case Expired => DropInv(st);
      case Overlong => DropInv(st);
      case Poll => if st.port.buf != [] { PopInv(st); }
      case PollLine(line) =>
        if st.port.buf == [] {
          var heard := Receive(st, line, false);
          ReceiveInv(st, line, false);
          if Route(st.port, line).1.NotPart? {
            NotExpecting(st);
            DirectLine(st, line);
          } else if heard.port.buf != [] {
            PopInv(heard);
          }
        }
    }
  }

  lemma NotExpecting(st: State)
    requires Inv(st) && st.port.buf == []
    ensures st.expecting == None
  {}

  lemma DirectLine(st: State, line: string)
    requires st.expecting == None && Route(st.port, line).1.NotPart?
    ensures Handle(Receive(st, line, false), line) == Receive(st, line, false)
  {}

  lemma {:induction false} RunInv(st: State, es: seq<Event>)
    requires Inv(st)
    ensures Inv(Run(st, es))
    decreases |es|
  {
    hide Inv, Step;
    if es != [] {
      StepInv(st, es[0]);
      RunInv(Step(st, es[0]), es[1..]);
    }
  }

  lemma FreshInv()
    ensures Inv(Fresh())
  {}

  // ---- What holds on every run ----

  /** On every interleaving of commands, drains, polls, evictions and lost headers: main gets
      exactly the accepted deliveries, in order, the rest are whole in the queue, and each is a
      header with the first hex line after it. */
  lemma DeliveriesArePaired(es: seq<Event>)
    ensures var st := Run(Fresh(), es);
      && Shape(st.port.buf, st.expecting) && AcceptedOk(st.lines, st.accepted)
      && st.direct + Due(st.port.buf, st.expecting) == PairTexts(st.lines, st.accepted)
  {
    hide Run, Fresh, Shape, Due, AcceptedOk, CountIf;
    FreshInv();
    RunInv(Fresh(), es);
  }

  /** Once main got a header, the next line it polls is that delivery's body, whatever else
      happened in between. */
  lemma NextPollIsBody(es: seq<Event>)
    ensures var st := Run(Fresh(), es);
      st.expecting.Some? ==>
        (st.port.buf != [] && |st.direct| < |st.accepted|
         && var (i, j) := st.accepted[|st.direct|];
            FirstHexAfter(st.lines, i, j) && st.expecting == Some(st.lines[i]) && st.port.buf[0] == st.lines[j])
  {
    hide Run, Fresh, CountIf, FirstHexAfter, PairedUp, QueuePairs, IsHexLine;
    FreshInv();
    RunInv(Fresh(), es);
    var st := Run(Fresh(), es);
    AcceptedBounds(st.lines, st.accepted);
    if st.expecting.Some? {
      var all := PairTexts(st.lines, st.accepted);
      assert all[|st.direct|] == (st.direct + Due(st.port.buf, st.expecting))[|st.direct|];
    }
  }

  /** The queue stays bounded with at most one +CGEV, and every notification that arrived was
      taken by main, is still queued or waiting, or was counted as lost. */
  lemma NothingUncounted(es: seq<Event>)
    ensures var st := Run(Fresh(), es);
      && |st.port.buf| <= 32 && CountIf(st.port.buf, CgevLine) <= 1
      && st.arrived == st.taken + CountIf(st.port.buf, IsUnit) + One(st.port.header.Some?) + st.port.lost
  {
    hide Run, Fresh, Shape, Due, AcceptedOk, CountIf;
    FreshInv();
    RunInv(Fresh(), es);
  }

  /** Queued calls and pairs leave only when main polls. */
  lemma OnlyPollingTakes(es: seq<Event>, e: Event)
    requires !e.Poll? && !e.PollLine?
    ensures var st := Run(Fresh(), es);
      Keep(st.port.buf, IsProtected) <= Keep(Step(st, e).port.buf, IsProtected)
  {
    hide Run, Fresh, Keep, Inv, Receive;
    FreshInv();
    RunInv(Fresh(), es);
    var st := Run(Fresh(), es);
    if e.Received? { ReceiveInv(st, e.line, e.queue); }
  }

  /** Room is refused only when nothing but calls and pairs is left. */
  lemma RefusedOnlyWhenFull(p: Port, slots: nat)
    requires slots <= MAX_URC_BUF && PairedUp(p.buf) && !Reserve(p, slots).1
    ensures Keep(p.buf, IsProtected) == Reserve(p, slots).0.buf
    ensures |Keep(p.buf, IsProtected)| + slots > MAX_URC_BUF
  {
    hide Reserve, IsHeader, IsHexLine, PairedUp, QueuePairs;
    ReserveKeeps(p, slots, None);
    KeepAll(Reserve(p, slots).0.buf, IsProtected);
  }

  // ---- The newest +CGEV ----

  /** The last +CGEV line given to the queue. */
  function LastCgev(es: seq<Event>): Option<string> {
    if es == [] then None
    else
      var e := es[|es| - 1];
      if e.Received? && e.queue && IsCgev(e.line) then Some(e.line) else LastCgev(es[..|es| - 1])
  }

  /** Any queued +CGEV line is this one. */
  ghost predicate OnlyCgev(buf: seq<string>, last: Option<string>) {
    forall i :: 0 <= i < |buf| && IsCgev(buf[i]) ==> last == Some(buf[i])
  }

  lemma RemoveKeepsCgev(buf: seq<string>, i: nat, last: Option<string>)
    requires OnlyCgev(buf, last) && i < |buf|
    ensures OnlyCgev(RemoveAt(buf, i), last) && |RemoveAt(buf, i)| == |buf| - 1
  {
    hide IsCgev;
  }

  lemma {:induction false} ReserveKeepsCgev(p: Port, slots: nat, last: Option<string>)
    requires slots <= MAX_URC_BUF && OnlyCgev(p.buf, last)
    ensures OnlyCgev(Reserve(p, slots).0.buf, last)
    decreases |p.buf|
  {
    hide IsCgev, IsCmti, OnlyCgev, RemoveAt;
    if |p.buf| + slots > MAX_URC_BUF {
      var i, k := Position(p.buf, IsCgev), Position(p.buf, IsCmti);
      if i < |p.buf| {
        RemoveKeepsCgev(p.buf, i, last);
        ReserveKeepsCgev(p.(buf := RemoveAt(p.buf, i)), slots, last);
      } else if k < |p.buf| {
        RemoveKeepsCgev(p.buf, k, last);
        ReserveKeepsCgev(p.(buf := RemoveAt(p.buf, k), lost := p.lost + 1), slots, last);
      }
    }
  }

  /** A new +CGEV replaces the queued one, so no stale one is ever left. */
  lemma QueueKeepsCgev(p: Port, line: string, last: Option<string>)
    requires OnlyCgev(p.buf, last) && CountIf(p.buf, CgevLine) <= 1
    ensures OnlyCgev(QueueUrc(p, line).buf, if IsCgev(line) then Some(line) else last)
  {
    hide IsCgev, IsCmti, Reserve, CountIf;
    if IsCgev(line) {
      var i := Position(p.buf, IsCgev);
      if i < |p.buf| {
        CountRemove(p.buf, i, CgevLine);
        var rest := RemoveAt(p.buf, i);
        CountNone(rest, CgevLine);
        forall j | 0 <= j < |p.buf| && j != i ensures !IsCgev(p.buf[j]) {
          assert !CgevLine(rest[if j < i then j else j - 1]);
        }
      }
    } else {
      ReserveKeepsCgev(p, 1, last);
    }
  }

  lemma RouteKeepsCgev(p: Port, line: string, last: Option<string>)
    requires OnlyCgev(p.buf, last) && (p.header.Some? ==> IsHeader(p.header.value))
    ensures OnlyCgev(Route(p, line).0.buf, last)
  {
    if !IsHeader(line) && p.header.Some? && IsHexLine(line) {
      HeaderIsNothingElse(p.header.value);
      HexIsNoUrc(line);
      hide IsCgev, IsHeader, IsHexLine, Reserve;
      ReserveKeepsCgev(p.(header := None), 2, last);
    }
  }

  lemma ReceiveKeepsCgev(st: State, line: string, queue: bool, last: Option<string>)
    requires Inv(st) && OnlyCgev(st.port.buf, last)
    ensures OnlyCgev(Receive(st, line, queue).port.buf, if queue && IsCgev(line) then Some(line) else last)
  {
    if IsHeader(line) { HeaderIsNothingElse(line); }
    if IsHexLine(line) { HexIsNoUrc(line); }
    hide IsCgev, IsHeader, IsHexLine, Route, QueueUrc, OnlyCgev, Shape, Due, AcceptedOk, PairTexts, CountIf;
    RouteKeepsCgev(st.port, line, last);
    RouteKeeps(st.port, line, st.expecting);
    var (port, how) := Route(st.port, line);
    if how.NotPart? && queue { QueueKeepsCgev(port, line, last); }
    if how.Paired? || how.Refused? { HexIsNoUrc(line); }
  }

  lemma PopKeepsCgev(st: State, last: Option<string>)
    requires OnlyCgev(st.port.buf, last) && st.port.buf != []
    ensures OnlyCgev(PopFront(st).port.buf, last)
  {
    hide IsCgev, IsHeader;
  }

  lemma StepKeepsCgev(st: State, e: Event, last: Option<string>)
    requires Inv(st) && OnlyCgev(st.port.buf, last)
    ensures OnlyCgev(Step(st, e).port.buf, if e.Received? && e.queue && IsCgev(e.line) then Some(e.line) else last)
  {
    hide IsCgev, IsHeader, IsHexLine, Inv, Route, Receive, PopFront, OnlyCgev;
    match e {
      case Received(line, queue) => ReceiveKeepsCgev(st, line, queue, last);
      case Poll => if st.port.buf != [] { PopKeepsCgev(st, last); }
      case PollLine(line) =>
        if st.port.buf == [] {
          var heard := Receive(st, line, false);
          ReceiveKeepsCgev(st, line, false, last);
          if heard.port.buf != [] { PopKeepsCgev(heard, last); }
        }
      case _ =>
    }
  }

  lemma {:induction false} RunSnoc(st: State, es: seq<Event>)
    requires es != []
    ensures Run(st, es) == Step(Run(st, es[..|es| - 1]), es[|es| - 1])
    decreases |es|
  {
    hide Step;
    if |es| > 1 {
      assert es[1..][..|es| - 2] == es[..|es| - 1][1..];
      RunSnoc(Step(st, es[0]), es[1..]);
    } else {
      assert es[1..] == [] && es[..0] == [];
    }
  }

  /** On every run a queued +CGEV line is the last one that was given to the queue: a stale
      network state is never reported after a newer one. */
  lemma {:induction false} NewestCgevWins(es: seq<Event>)
    ensures OnlyCgev(Run(Fresh(), es).port.buf, LastCgev(es))
    decreases |es|
  {
    hide Step, Inv, OnlyCgev, IsCgev;
    if es == [] {
      assert OnlyCgev(Fresh().port.buf, None) by { NoCgevYet(); }
    } else {
      var before := es[..|es| - 1];
      NewestCgevWins(before);
      FreshInv();
      RunInv(Fresh(), before);
      RunSnoc(Fresh(), es);
      StepKeepsCgev(Run(Fresh(), before), es[|es| - 1], LastCgev(before));
    }
  }

  lemma NoCgevYet()
    ensures OnlyCgev(Fresh().port.buf, None)
  {}

  /** Message notices are pushed out only once no +CGEV is left, and only while it is needed. */
  lemma {:induction false} CgevGoesFirst(p: Port, slots: nat)
    requires slots <= MAX_URC_BUF
    ensures var (r, ok) := Reserve(p, slots);
      && (r.lost > p.lost ==> CountIf(r.buf, CgevLine) == 0)
      && (r != p ==> |r.buf| + slots >= MAX_URC_BUF)
    decreases |p.buf|
  {
    hide RemoveAt, IsCgev, IsCmti, CountIf;
    if |p.buf| + slots > MAX_URC_BUF {
      var i := Position(p.buf, IsCgev);
      if i < |p.buf| {
        RemoveSize(p.buf, i);
        CgevGoesFirst(p.(buf := RemoveAt(p.buf, i)), slots);
      } else {
        var k := Position(p.buf, IsCmti);
        if k < |p.buf| {
          RemoveSize(p.buf, k);
          CountAbsent(p.buf, CgevLine);
          CountRemove(p.buf, k, CgevLine);
          NoCgevStays(p.(buf := RemoveAt(p.buf, k), lost := p.lost + 1), slots);
          CgevGoesFirst(p.(buf := RemoveAt(p.buf, k), lost := p.lost + 1), slots);
        }
      }
    }
  }

  lemma RemoveSize<T>(xs: seq<T>, i: nat)
    requires i < |xs|
    ensures |RemoveAt(xs, i)| == |xs| - 1
  {}

  lemma {:induction false} NoCgevStays(p: Port, slots: nat)
    requires slots <= MAX_URC_BUF && CountIf(p.buf, CgevLine) == 0
    ensures CountIf(Reserve(p, slots).0.buf, CgevLine) == 0
    decreases |p.buf|
  {
    hide RemoveAt, IsCgev, IsCmti, CountIf;
    if |p.buf| + slots > MAX_URC_BUF {
      CountNone(p.buf, CgevLine);
      var i, k := Position(p.buf, IsCgev), Position(p.buf, IsCmti);
      assert i < |p.buf| ==> CgevLine(p.buf[i]);
      if i == |p.buf| && k < |p.buf| {
        RemoveSize(p.buf, k);
        CountRemove(p.buf, k, CgevLine);
        NoCgevStays(p.(buf := RemoveAt(p.buf, k), lost := p.lost + 1), slots);
      }
    }
  }
}
