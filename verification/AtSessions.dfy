/** Whole sessions on the AT port seen from the queue: what is read, queued and polled in any
    sequence of commands and polls is one run of the queue, so deliveries are paired in it. */
module AtSessions {
  import opened Common
  import opened UrcQueue
  import opened AtPort

  // ---- What main handles in a run ----

  /** Lines a step hands to main: at most one. */
  function HandledBy(st: State, e: Event): seq<string> {
    match e
    case Poll => if st.port.buf == [] then [] else [st.port.buf[0]]
    case PollLine(line) =>
      if st.port.buf != [] then []
      else
        var (port, how) := Route(st.port, line);
        if how.NotPart? then [line] else if port.buf != [] then [port.buf[0]] else []
    case _ => []
  }

  function Handled(st: State, es: seq<Event>): seq<string>
    decreases |es|
  {
    if es == [] then [] else HandledBy(st, es[0]) + Handled(Step(st, es[0]), es[1..])
  }

  function Texts(ls: seq<Line>): seq<string> {
    seq(|ls|, i requires 0 <= i < |ls| => ls[i].text)
  }

  /** The run `es` from `st` reads these lines, hands these to main and ends with this port. */
  ghost predicate Mirrors(st: State, es: seq<Event>, port: Port, ls: seq<Line>, got: seq<string>) {
    && Run(st, es).port == port && Run(st, es).lines == st.lines + Texts(ls) && Handled(st, es) == got
  }

  lemma {:induction false} RunConcat(st: State, a: seq<Event>, b: seq<Event>)
    ensures Run(st, a + b) == Run(Run(st, a), b)
    ensures Handled(st, a + b) == Handled(st, a) + Handled(Run(st, a), b)
    decreases |a|
  {
    hide Step, HandledBy;
    if a == [] {
      assert a + b == b;
    } else {
      assert (a + b)[1..] == a[1..] + b;
      RunConcat(Step(st, a[0]), a[1..], b);
      Associate(HandledBy(st, a[0]), Handled(Step(st, a[0]), a[1..]), Handled(Run(st, a), b));
    }
  }

  lemma TextsConcat(a: seq<Line>, b: seq<Line>)
    ensures Texts(a + b) == Texts(a) + Texts(b)
  {}

  lemma MirrorsThen(st: State, a: seq<Event>, p: Port, l1: seq<Line>, g1: seq<string>,
                    b: seq<Event>, q: Port, l2: seq<Line>, g2: seq<string>)
    requires Mirrors(st, a, p, l1, g1) && Mirrors(Run(st, a), b, q, l2, g2)
    ensures Mirrors(st, a + b, q, l1 + l2, g1 + g2)
  {
    hide Run, Handled, Texts;
    RunConcat(st, a, b);
    TextsConcat(l1, l2);
    Associate(st.lines, Texts(l1), Texts(l2));
  }

  lemma NothingMirrors(st: State)
    ensures Mirrors(st, [], st.port, [], [])
  {}

  // ---- One line ----

  /** A line read by the port, queued or kept for something else. */
  function Reads(t: Line, queue: bool): seq<Event> {
    (if t.late then [Expired] else []) + [Received(t.text, queue)]
  }

  function PortAfter(p: Port, t: Line, queue: bool): Port {
    var (q, how) := RouteLine(p, t);
    if how.NotPart? && queue then QueueUrc(q, t.text) else q
  }

  lemma RunOne(st: State, e: Event)
    ensures Run(st, [e]) == Step(st, e) && Handled(st, [e]) == HandledBy(st, e)
  {
    hide Step, HandledBy;
    assert [e][1..] == [];
    assert HandledBy(st, e) + [] == HandledBy(st, e);
  }

  lemma ExpiredFirst(st: State, late: bool) returns (es: seq<Event>)
    ensures es == if late then [Expired] else []
    ensures Mirrors(st, es, if late then DropHeader(st.port) else st.port, [], [])
    ensures Run(st, es) == st.(port := Run(st, es).port)
  {
    es := if late then [Expired] else [];
    if late { RunOne(st, Expired); } else { NothingMirrors(st); }
    assert st.lines + Texts([]) == st.lines;
  }

  lemma LineMirrored(st: State, t: Line, queue: bool)
    ensures Mirrors(st, Reads(t, queue), PortAfter(st.port, t, queue), [t], [])
  {
    var es := ExpiredFirst(st, t.late);
    var now := Run(st, es);
    hide Route, QueueUrc, DropHeader, Run, Handled;
    RunOne(now, Received(t.text, queue));
    RunConcat(st, es, [Received(t.text, queue)]);
    assert Texts([t]) == [t.text];
  }

  /** A line that is no part of a delivery and is not queued leaves the port as it is. */
  lemma TerminalMirrored(st: State, t: Line)
    requires IsTerminal(t.text)
    ensures Mirrors(st, [Received(t.text, false)], st.port, [t], [])
  {
    TerminalIsPlain(t.text);
    hide IsTerminal, IsHeader, IsHexLine, QueueUrc, IsUrc;
    RunOne(st, Received(t.text, false));
    assert Texts([t]) == [t.text];
  }

  // ---- Reading many lines ----

  /** One line, then whatever the rest of the lines do. */
  lemma ReadThen(st: State, t: Line, queue: bool, es: seq<Event>, q: Port, ls: seq<Line>, got: seq<string>)
    requires Mirrors(Run(st, Reads(t, queue)), es, q, ls, got)
    ensures Mirrors(st, Reads(t, queue) + es, q, [t] + ls, got)
  {
    hide Mirrors, Run, RouteLine, QueueUrc, Reads;
    LineMirrored(st, t, queue);
    MirrorsThen(st, Reads(t, queue), PortAfter(st.port, t, queue), [t], [], es, q, ls, got);
    assert [] + got == got;
  }

  lemma ReadPort(st: State, t: Line, queue: bool)
    ensures Run(st, Reads(t, queue)).port == PortAfter(st.port, t, queue)
  {
    hide Run, RouteLine, QueueUrc, Reads;
    LineMirrored(st, t, queue);
  }

  lemma WireStep(have: seq<Line>, ls: seq<Line>, left: seq<Line>)
    requires have != [] && have[1..] == ls + left
    ensures have == ([have[0]] + ls) + left
  {
    Associate([have[0]], ls, left);
  }

  lemma NothingRead(wire: seq<Line>)
    ensures wire == [] + wire
  {}

  lemma {:induction false} DrainMirrored(c: Conn, budget: nat, st: State) returns (es: seq<Event>, ls: seq<Line>)
    requires st.port == c.port
    ensures var d := DrainLines(c, budget); Mirrors(st, es, d.port, ls, []) && c.wire == ls + d.wire
    decreases budget
  {
    hide RouteLine, QueueUrc, Mirrors, Reads, Run;
    es, ls := [], [];
    NothingMirrors(st);
    NothingRead(c.wire);
    if budget > 0 && c.wire != [] {
      var t := c.wire[0];
      ReadPort(st, t, true);
      var next, now := DrainLine(c.(wire := c.wire[1..]), t), Run(st, Reads(t, true));
      es, ls := DrainMirrored(next, budget - 1, now);
      ReadThen(st, t, true, es, DrainLines(next, budget - 1).port, ls, []);
      WireStep(c.wire, ls, DrainLines(next, budget - 1).wire);
      es, ls := Reads(t, true) + es, [t] + ls;
    }
  }

  lemma {:induction false} AwaitMirrored(c: Conn, budget: nat, st: State) returns (es: seq<Event>, ls: seq<Line>)
    requires st.port == c.port
    ensures var d := AwaitTerminal(c, budget); Mirrors(st, es, d.port, ls, []) && c.wire == ls + d.wire
    decreases budget
  {
    hide RouteLine, QueueUrc, Mirrors, Reads, Run, IsTerminal, IsUrc;
    es, ls := [], [];
    NothingMirrors(st);
    NothingRead(c.wire);
    if c.pending && budget > 0 && c.wire != [] {
      var t := c.wire[0];
      var queue := !IsTerminal(t.text) && IsUrc(t.text);
      ReadPort(st, t, queue);
      var next, now := StaleLine(c.(wire := c.wire[1..]), t), Run(st, Reads(t, queue));
      es, ls := AwaitMirrored(next, budget - 1, now);
      ReadThen(st, t, queue, es, AwaitTerminal(next, budget - 1).port, ls, []);
      WireStep(c.wire, ls, AwaitTerminal(next, budget - 1).wire);
      es, ls := Reads(t, queue) + es, [t] + ls;
    }
  }

  predicate ProbeQueues(text: string, marker: string, saw: bool) {
    !StartsWith(text, marker) && !(text == "OK" && saw) && IsUrc(text)
  }

  /** One line while the probe's answer is awaited. */
  lemma MarkerStep(c: Conn, marker: string, saw: bool, budget: nat)
    requires budget > 0 && c.wire != []
    ensures var (next, sawNow, done) := ProbeLine(c.(wire := c.wire[1..]), c.wire[0], marker, saw);
      && next.port == PortAfter(c.port, c.wire[0], ProbeQueues(c.wire[0].text, marker, saw))
      && next.wire == c.wire[1..]
      && AwaitMarker(c, marker, saw, budget).0 == if done then next else AwaitMarker(next, marker, sawNow, budget - 1).0
  {
    hide RouteLine, QueueUrc, StartsWith, IsUrc;
  }

  lemma {:induction false} MarkerMirrored(c: Conn, marker: string, saw: bool, budget: nat, st: State)
      returns (es: seq<Event>, ls: seq<Line>)
    requires st.port == c.port
    ensures var d := AwaitMarker(c, marker, saw, budget).0; Mirrors(st, es, d.port, ls, []) && c.wire == ls + d.wire
    decreases budget
  {
    hide PortAfter, Mirrors, Reads, Run, ProbeLine, ProbeQueues;
    es, ls := [], [];
    NothingMirrors(st);
    NothingRead(c.wire);
    if budget > 0 && c.wire != [] {
      var t := c.wire[0];
      var queue := ProbeQueues(t.text, marker, saw);
      var now, rest := Run(st, Reads(t, queue)), AwaitMarker(c, marker, saw, budget).0;
      var (next, sawNow, done) := ProbeLine(c.(wire := c.wire[1..]), t, marker, saw);
      MarkerStep(c, marker, saw, budget);
      ReadPort(st, t, queue);
      NothingRead(rest.wire);
      NothingMirrors(now);
      if !done { es, ls := MarkerMirrored(next, marker, sawNow, budget - 1, now); }
      ReadThen(st, t, queue, es, rest.port, ls, []);
      WireStep(c.wire, ls, rest.wire);
      es, ls := Reads(t, queue) + es, [t] + ls;
    }
  }

  predicate CollectQueues(text: string, interruptible: bool) {
    !IsTerminal(text) && ((interruptible && IsCall(text)) || IsUrc(text))
  }

  /** The line ends the collection. */
  predicate CollectEndsAt(p: Port, t: Line, interruptible: bool) {
    RouteLine(p, t).1.NotPart? && (IsTerminal(t.text) || (interruptible && IsCall(t.text)))
  }

  /** One line of a reply. */
  lemma CollectStep(r: Reading, manner: Manner, interruptible: bool, budget: nat)
    requires budget > 0 && r.conn.wire != []
    ensures var t, next := r.conn.wire[0], CollectLine(r, manner);
      var port, s := PortAfter(r.conn.port, t, CollectQueues(t.text, interruptible)),
                     CollectUntilOk(r, manner, interruptible, budget).0.conn;
      if CollectEndsAt(r.conn.port, t, interruptible) then s.port == port && s.wire == r.conn.wire[1..]
      else
        && next.conn.port == port && next.conn.wire == r.conn.wire[1..]
        && s == CollectUntilOk(next, manner, interruptible, budget - 1).0.conn
  {
    hide RouteLine, QueueUrc, IsTerminal, IsUrc, IsCall, Fits;
  }

  lemma {:induction false} CollectMirrored(r: Reading, manner: Manner, interruptible: bool, budget: nat, st: State)
      returns (es: seq<Event>, ls: seq<Line>)
    requires st.port == r.conn.port
    ensures var d := CollectUntilOk(r, manner, interruptible, budget).0.conn;
      Mirrors(st, es, d.port, ls, []) && r.conn.wire == ls + d.wire
    decreases budget
  {
    hide PortAfter, Mirrors, Reads, Run, CollectLine, CollectQueues, CollectEndsAt;
    es, ls := [], [];
    NothingMirrors(st);
    NothingRead(r.conn.wire);
    if budget > 0 && r.conn.wire != [] {
      hide CollectUntilOk;
      var t := r.conn.wire[0];
      var queue := CollectQueues(t.text, interruptible);
      var now, s := Run(st, Reads(t, queue)), CollectUntilOk(r, manner, interruptible, budget).0.conn;
      CollectStep(r, manner, interruptible, budget);
      ReadPort(st, t, queue);
      NothingRead(s.wire);
      NothingMirrors(now);
      if !CollectEndsAt(r.conn.port, t, interruptible) {
        es, ls := CollectMirrored(CollectLine(r, manner), manner, interruptible, budget - 1, now);
      }
      ReadThen(st, t, queue, es, s.port, ls, []);
      WireStep(r.conn.wire, ls, s.wire);
      es, ls := Reads(t, queue) + es, [t] + ls;
    }
  }

  lemma {:induction false} PromptMirrored(c: Conn, shown: bool, budget: nat, st: State)
      returns (es: seq<Event>, ls: seq<Line>)
    requires st.port == c.port
    ensures var d := AwaitPrompt(c, shown, budget).0; Mirrors(st, es, d.port, ls, []) && c.wire == ls + d.wire
    decreases budget
  {
    hide RouteLine, QueueUrc, Mirrors, Reads, Run, IsTerminal;
    es, ls := [], [];
    NothingMirrors(st);
    NothingRead(c.wire);
    if budget > 0 && c.wire != [] {
      var t, rest := c.wire[0], c.(wire := c.wire[1..]);
      if IsTerminal(t.text) {
        TerminalMirrored(st, t);
        es, ls := [Received(t.text, false)], [t];
      } else {
        ReadPort(st, t, true);
        var next, now := DrainLine(rest, t), Run(st, Reads(t, true));
        es, ls := PromptMirrored(next, shown, budget - 1, now);
        ReadThen(st, t, true, es, AwaitPrompt(next, shown, budget - 1).0.port, ls, []);
        WireStep(c.wire, ls, AwaitPrompt(next, shown, budget - 1).0.wire);
        es, ls := Reads(t, true) + es, [t] + ls;
      }
    }
  }

  // ---- One use of the port ----

  /** The old reply does not come to its end in time: a probe goes out. */
  predicate Probes(c: Conn, w: Patience) {
    c.pending && AwaitTerminal(c, w.terminal).pending
  }

  /** Lines there are to read while a command is prepared. */
  function PrepareSupply(c: Conn, answer: seq<Line>, w: Patience): seq<Line> {
    c.wire + if Probes(c, w) then answer else []
  }

  /** Lines the modem sends for the command itself, as far as it gets. */
  function CommandSupply(c: Conn, u: Use): seq<Line>
    requires !u.PollOnce?
  {
    var (ready, ok) := Prepare(c, u.answer, u.patience);
    if !ok then []
    else match u
      case Send(_, _, reply, _, _) => reply
      case Message(s, _, w) =>
        s.before + match AwaitPrompt(ready.(wire := ready.wire + s.before), s.shown, w.prompt).1
                   case Ended(_) => []
                   case Missed => s.aborted
                   case Shown => if s.written then s.after else s.aborted
  }

  /** All lines there are to read in a use. */
  function Supply(c: Conn, u: Use): seq<Line> {
    if u.PollOnce? then c.wire else PrepareSupply(c, u.answer, u.patience) + CommandSupply(c, u)
  }

  /** The port after a use. */
  function Used(c: Conn, u: Use): Conn {
    if u.PollOnce? then PollPort(c, u.late, u.budget).0 else Sent(c, u).0.conn
  }

  /** The line a poll returns. */
  function PolledBy(c: Conn, u: Use): seq<string> {
    if !u.PollOnce? then []
    else match PollPort(c, u.late, u.budget).1
      case None => []
      case Some(line) => [line]
  }

  /** Two stretches, the second on what the first left and what came since. */
  lemma WireThen(have: seq<Line>, l1: seq<Line>, mid: seq<Line>, more: seq<Line>, l2: seq<Line>, left: seq<Line>)
    requires have == l1 + mid && mid + more == l2 + left
    ensures have + more == (l1 + l2) + left
  {
    Associate(l1, mid, more);
    Associate(l1, l2, left);
  }

  lemma QuietThen(st: State, a: seq<Event>, p: Port, l1: seq<Line>, b: seq<Event>, q: Port, l2: seq<Line>)
    requires Mirrors(st, a, p, l1, []) && Mirrors(Run(st, a), b, q, l2, [])
    ensures Mirrors(st, a + b, q, l1 + l2, [])
  {
    hide Mirrors;
    var got: seq<string> := [];
    MirrorsThen(st, a, p, l1, got, b, q, l2, got);
    assert got + got == got;
  }

  lemma PortOf(st: State, es: seq<Event>, port: Port, ls: seq<Line>, got: seq<string>)
    requires Mirrors(st, es, port, ls, got)
    ensures Run(st, es).port == port
  {}

  lemma ResyncMirrored(c: Conn, answer: seq<Line>, budget: nat, probeReads: nat, st: State)
      returns (es: seq<Event>, ls: seq<Line>)
    requires st.port == c.port
    ensures var d := Resync(c, answer, budget, probeReads).0;
      && Mirrors(st, es, d.port, ls, [])
      && c.wire + (if AwaitTerminal(c, budget).pending then answer else []) == ls + d.wire
  {
    hide Mirrors, Run, AwaitTerminal, AwaitMarker, Marker;
    es, ls := AwaitMirrored(c, budget, st);
    var waited := AwaitTerminal(c, budget);
    PortOf(st, es, waited.port, ls, []);
    if waited.pending {
      var asked := waited.(cmgf := !waited.cmgf, wire := waited.wire + answer);
      var d := AwaitMarker(asked, Marker(waited.cmgf), false, probeReads).0;
      var es2, ls2 := MarkerMirrored(asked, Marker(waited.cmgf), false, probeReads, Run(st, es));
      QuietThen(st, es, waited.port, ls, es2, d.port, ls2);
      WireThen(c.wire, ls, waited.wire, answer, ls2, d.wire);
      es, ls := es + es2, ls + ls2;
    } else {
      assert c.wire + [] == c.wire;
    }
  }

  lemma PrepareMirrored(c: Conn, answer: seq<Line>, w: Patience, st: State) returns (es: seq<Event>, ls: seq<Line>)
    requires st.port == c.port
    ensures var d := Prepare(c, answer, w).0;
      Mirrors(st, es, d.port, ls, []) && PrepareSupply(c, answer, w) == ls + d.wire
  {
    hide Mirrors, Run, Resync, AwaitTerminal, DrainLines;
    es, ls := [], [];
    NothingMirrors(st);
    NothingRead(c.wire);
    assert c.wire + [] == c.wire;
    if c.pending { es, ls := ResyncMirrored(c, answer, w.terminal, w.probe, st); }
    var (synced, ok) := if c.pending then Resync(c, answer, w.terminal, w.probe) else (c, true);
    PortOf(st, es, synced.port, ls, []);
    if ok {
      var drain := Min(w.drain, MAX_URC_DRAIN_LINES);
      var es2, ls2 := DrainMirrored(synced, drain, Run(st, es));
      QuietThen(st, es, synced.port, ls, es2, DrainLines(synced, drain).port, ls2);
      assert synced.wire + [] == synced.wire;
      WireThen(PrepareSupply(c, answer, w), ls, synced.wire, [], ls2, DrainLines(synced, drain).wire);
      assert PrepareSupply(c, answer, w) + [] == PrepareSupply(c, answer, w);
      es, ls := es + es2, ls + ls2;
    }
  }

  lemma {:induction false} ShownWhenQuiet(c: Conn, shown: bool, budget: nat)
    ensures var (d, prompt) := AwaitPrompt(c, shown, budget); prompt.Shown? ==> d.wire == []
    decreases budget
  {
    hide IsTerminal, RouteLine, QueueUrc;
    if budget > 0 && c.wire != [] { ShownWhenQuiet(DrainLine(c.(wire := c.wire[1..]), c.wire[0]), shown, budget - 1); }
  }

  lemma CollectedMirrored(c: Conn, cmd: string, manner: Manner, interruptible: bool, budget: nat, st: State)
      returns (es: seq<Event>, ls: seq<Line>)
    requires st.port == c.port
    ensures var d := Collect(c, cmd, manner, interruptible, budget).0.conn;
      Mirrors(st, es, d.port, ls, []) && c.wire == ls + d.wire
  {
    hide Mirrors, CollectUntilOk;
    es, ls := CollectMirrored(Reading(c, [], false), manner, interruptible, budget, st);
  }

  lemma SendMirrored(c: Conn, u: Use, st: State) returns (es: seq<Event>, ls: seq<Line>)
    requires st.port == c.port && u.Send?
    ensures Mirrors(st, es, Used(c, u).port, ls, []) && Supply(c, u) == ls + Used(c, u).wire
  {
    hide Mirrors, Run, Prepare, PrepareSupply, Collect, Interruptible;
    es, ls := PrepareMirrored(c, u.answer, u.patience, st);
    var (ready, ok) := Prepare(c, u.answer, u.patience);
    PortOf(st, es, ready.port, ls, []);
    if ok {
      var asked := ready.(wire := ready.wire + u.reply);
      var es2, ls2 := CollectedMirrored(asked, u.cmd, u.manner, Interruptible(u.cmd, u.manner), u.patience.reply,
                                        Run(st, es));
      QuietThen(st, es, ready.port, ls, es2, Used(c, u).port, ls2);
      WireThen(PrepareSupply(c, u.answer, u.patience), ls, ready.wire, u.reply, ls2, Used(c, u).wire);
      es, ls := es + es2, ls + ls2;
    } else {
      assert PrepareSupply(c, u.answer, u.patience) + [] == PrepareSupply(c, u.answer, u.patience);
    }
  }

  /** What follows the wait for the prompt. */
  lemma PromptedMirrored(c: Conn, u: Use, ready: Conn, st: State) returns (es: seq<Event>, ls: seq<Line>)
    requires u.Message? && Prepare(c, u.answer, u.patience) == (ready, true) && st.port == ready.port
    ensures Mirrors(st, es, Used(c, u).port, ls, []) && ready.wire + CommandSupply(c, u) == ls + Used(c, u).wire
  {
    hide Mirrors, Run, Prepare, Collect, AwaitPrompt;
    var s, w := u.stages, u.patience;
    var asking := ready.(wire := ready.wire + s.before);
    es, ls := PromptMirrored(asking, s.shown, w.prompt, st);
    ShownWhenQuiet(asking, s.shown, w.prompt);
    var (asked, prompt) := AwaitPrompt(asking, s.shown, w.prompt);
    PortOf(st, es, asked.port, ls, []);
    var more := if prompt.Ended? then [] else if prompt.Shown? && s.written then s.after else s.aborted;
    assert CommandSupply(c, u) == s.before + more;
    Associate(ready.wire, s.before, more);
    var es2, ls2 := [], [];
    NothingMirrors(Run(st, es));
    NothingRead(asked.wire + more);
    if prompt.Shown? && s.written {
      es2, ls2 := CollectedMirrored(asked.(wire := s.after), "+CMGS", Buffered, false, w.reply, Run(st, es));
    }
    assert asked.wire + [] == asked.wire && [] + more == more;
    QuietThen(st, es, asked.port, ls, es2, Used(c, u).port, ls2);
    WireThen(asking.wire, ls, asked.wire, more, ls2, Used(c, u).wire);
    es, ls := es + es2, ls + ls2;
  }

  lemma MessageMirrored(c: Conn, u: Use, st: State) returns (es: seq<Event>, ls: seq<Line>)
    requires st.port == c.port && u.Message?
    ensures Mirrors(st, es, Used(c, u).port, ls, []) && Supply(c, u) == ls + Used(c, u).wire
  {
    hide Mirrors, Run, Prepare, PrepareSupply, Collect, AwaitPrompt, CommandSupply;
    es, ls := PrepareMirrored(c, u.answer, u.patience, st);
    var (ready, ok) := Prepare(c, u.answer, u.patience);
    PortOf(st, es, ready.port, ls, []);
    if ok {
      var es2, ls2 := PromptedMirrored(c, u, ready, Run(st, es));
      QuietThen(st, es, ready.port, ls, es2, Used(c, u).port, ls2);
      WireThen(PrepareSupply(c, u.answer, u.patience), ls, ready.wire, CommandSupply(c, u), ls2, Used(c, u).wire);
      es, ls := es + es2, ls + ls2;
    } else {
      NotSent(c, u);
      assert PrepareSupply(c, u.answer, u.patience) + [] == PrepareSupply(c, u.answer, u.patience);
    }
  }

  lemma NotSent(c: Conn, u: Use)
    requires u.Message? && !Prepare(c, u.answer, u.patience).1
    ensures Used(c, u) == Prepare(c, u.answer, u.patience).0 && CommandSupply(c, u) == []
  {
    hide Prepare;
  }

  // ---- Polls ----

  function AsSeq(line: Option<string>): seq<string> {
    if line.Some? then [line.value] else []
  }

  /** Polling a queued line is the event that takes the front. */
  lemma FrontMirrored(c: Conn, st: State) returns (es: seq<Event>)
    requires st.port == c.port
    ensures var (d, line) := TakeFront(c); Mirrors(st, es, d.port, [], AsSeq(line)) && d.wire == c.wire
  {
    hide Handle, IsHeader, IsCgev, Run, Handled;
    es := [];
    if c.port.buf == [] {
      NothingMirrors(st);
    } else {
      es := [Poll];
      RunOne(st, Poll);
      HandleKeeps(st);
      assert st.lines + Texts([]) == st.lines;
    }
  }

  lemma HandleKeeps(st: State)
    requires st.port.buf != []
    ensures PopFront(st).lines == st.lines && PopFront(st).port == st.port.(buf := st.port.buf[1..])
  {}

  /** One line read by a poll while the queue is empty. */
  function LookedAt(p: Port, t: Line): (Port, Option<string>) {
    var (q, how) := RouteLine(p, t);
    if how.NotPart? then (q, Some(t.text))
    else if q.buf != [] then (q.(buf := q.buf[1..]), Some(q.buf[0]))
    else (q, None)
  }

  lemma LookMirrored(st: State, t: Line) returns (es: seq<Event>)
    requires st.port.buf == []
    ensures var (p, line) := LookedAt(st.port, t); Mirrors(st, es, p, [t], AsSeq(line))
  {
    hide Run, Handled, Mirrors;
    var drop := ExpiredFirst(st, t.late);
    var now := Run(st, drop);
    PortOf(st, drop, if t.late then DropHeader(st.port) else st.port, [], []);
    LookOne(now, t);
    es := drop + [PollLine(t.text)];
    var (p, line) := LookedAt(st.port, t);
    MirrorsThen(st, drop, now.port, [], [], [PollLine(t.text)], p, [t], AsSeq(line));
    assert [] + [t] == [t] && [] + AsSeq(line) == AsSeq(line);
  }

  lemma LookOne(st: State, t: Line)
    requires st.port.buf == []
    ensures var (p, line) := LookedAt(st.port, t.(late := false));
      Mirrors(st, [PollLine(t.text)], p, [t], AsSeq(line))
  {
    hide Route, Run, Handled;
    RunOne(st, PollLine(t.text));
    assert Texts([t]) == [t.text];
  }

  lemma {:induction false} PollLinesMirrored(c: Conn, budget: nat, st: State) returns (es: seq<Event>, ls: seq<Line>)
    requires st.port == c.port && c.port.buf == []
    ensures var (d, line) := PollLines(c, budget); Mirrors(st, es, d.port, ls, AsSeq(line)) && c.wire == ls + d.wire
    decreases budget
  {
    hide RouteLine, Mirrors, Run;
    es, ls := [], [];
    NothingMirrors(st);
    NothingRead(c.wire);
    if budget > 0 && c.wire != [] {
      var t := c.wire[0];
      es := LookMirrored(st, t);
      var (p, line) := LookedAt(st.port, t);
      var (d, got) := PollLines(c, budget);
      PortOf(st, es, p, [t], AsSeq(line));
      ls := [t];
      if line.None? {
        var next := c.(wire := c.wire[1..], port := p);
        var es2, ls2 := PollLinesMirrored(next, budget - 1, Run(st, es));
        MirrorsThen(st, es, p, [t], [], es2, d.port, ls2, AsSeq(got));
        WireStep(c.wire, ls2, d.wire);
        assert [] + AsSeq(got) == AsSeq(got);
        es, ls := es + es2, [t] + ls2;
      }
    }
  }

  lemma PollMirrored(c: Conn, u: Use, st: State) returns (es: seq<Event>, ls: seq<Line>)
    requires st.port == c.port && u.PollOnce?
    ensures Mirrors(st, es, Used(c, u).port, ls, PolledBy(c, u)) && Supply(c, u) == ls + Used(c, u).wire
  {
    hide Mirrors, Run, DropHeader, TakeFront, AwaitTerminal, PollLines;
    es := ExpiredFirst(st, u.late);
    var now := if u.late then c.(port := DropHeader(c.port)) else c;
    PortOf(st, es, now.port, [], []);
    var es2, ls2 := [], [];
    var mid := now;
    if now.port.buf == [] && now.pending {
      es2, ls2 := AwaitMirrored(now, Min(u.budget, 1), Run(st, es));
      mid := AwaitTerminal(now, Min(u.budget, 1));
    } else {
      NothingMirrors(Run(st, es));
      NothingRead(now.wire);
    }
    QuietThen(st, es, now.port, [], es2, mid.port, ls2);
    assert [] + ls2 == ls2;
    PortOf(st, es + es2, mid.port, ls2, []);
    ls := ls2;
    var es3, ls3 := [], [];
    if now.port.buf != [] || now.pending {
      es3 := FrontMirrored(mid, Run(st, es + es2));
      assert ls2 + [] == ls2;
    } else {
      es3, ls3 := PollLinesMirrored(mid, u.budget, Run(st, es + es2));
    }
    MirrorsThen(st, es + es2, mid.port, ls2, [], es3, Used(c, u).port, ls3, PolledBy(c, u));
    assert [] + PolledBy(c, u) == PolledBy(c, u) && [] + ls3 == ls3;
    es, ls := (es + es2) + es3, ls2 + ls3;
  }

  // ---- Whole sessions ----

  function AfterUses(c: Conn, uses: seq<Use>): Conn
    decreases |uses|
  {
    if uses == [] then c else AfterUses(Used(c, uses[0]), uses[1..])
  }

  /** The lines the polls of a session return. */
  function Polled(c: Conn, uses: seq<Use>): seq<string>
    decreases |uses|
  {
    if uses == [] then [] else PolledBy(c, uses[0]) + Polled(Used(c, uses[0]), uses[1..])
  }

  /** What was read of the lines there were: all but what is left. */
  function ReadOf(have: seq<Line>, left: seq<Line>): seq<Line> {
    if |left| <= |have| then have[..|have| - |left|] else []
  }

  /** The lines a session reads, in order, whoever they are for. */
  function ReadIn(c: Conn, uses: seq<Use>): seq<Line>
    decreases |uses|
  {
    if uses == [] then [] else ReadOf(Supply(c, uses[0]), Used(c, uses[0]).wire) + ReadIn(Used(c, uses[0]), uses[1..])
  }

  lemma UseMirrored(c: Conn, u: Use, st: State) returns (es: seq<Event>)
    requires st.port == c.port
    ensures Mirrors(st, es, Used(c, u).port, ReadOf(Supply(c, u), Used(c, u).wire), PolledBy(c, u))
  {
    hide Mirrors, Used, Supply;
    var ls;
    match u {
      case Send(_, _, _, _, _) => es, ls := SendMirrored(c, u, st);
      case Message(_, _, _) => es, ls := MessageMirrored(c, u, st);
      case PollOnce(_, _) => es, ls := PollMirrored(c, u, st);
    }
    assert ReadOf(ls + Used(c, u).wire, Used(c, u).wire) == ls;
  }

  /** Every session is a run of the queue: the same port at its end, every line read routed, in
      order, and exactly the polled lines handed to main. */
  lemma {:induction false} SessionMirrored(c: Conn, uses: seq<Use>, st: State) returns (es: seq<Event>)
    requires st.port == c.port
    ensures Mirrors(st, es, AfterUses(c, uses).port, ReadIn(c, uses), Polled(c, uses))
    decreases |uses|
  {
    hide Mirrors, Used, PolledBy, Supply, ReadOf, Run;
    es := [];
    if uses == [] {
      NothingMirrors(st);
    } else {
      var u := uses[0];
      var next := Used(c, u);
      var first := UseMirrored(c, u, st);
      PortOf(st, first, next.port, ReadOf(Supply(c, u), next.wire), PolledBy(c, u));
      var rest := SessionMirrored(next, uses[1..], Run(st, first));
      MirrorsThen(st, first, next.port, ReadOf(Supply(c, u), next.wire), PolledBy(c, u),
                  rest, AfterUses(next, uses[1..]).port, ReadIn(next, uses[1..]), Polled(next, uses[1..]));
      es := first + rest;
    }
  }

  // ---- What main makes of the polls ----

  datatype Main = Main(expecting: Option<string>, direct: seq<(string, string)>)

  function MainGets(m: Main, line: string): Main {
    if m.expecting.Some? then Main(None, m.direct + [(m.expecting.value, line)])
    else if IsHeader(line) then m.(expecting := Some(line))
    else m
  }

  function MainAfter(m: Main, polls: seq<string>): Main
    decreases |polls|
  {
    if polls == [] then m else MainAfter(MainGets(m, polls[0]), polls[1..])
  }

  function MainOf(st: State): Main {
    Main(st.expecting, st.direct)
  }

  lemma MainStep(st: State, e: Event)
    ensures MainOf(Step(st, e)) == MainAfter(MainOf(st), HandledBy(st, e))
  {
    hide IsHeader, Route, QueueUrc, IsCgev;
    var got := HandledBy(st, e);
    if |got| == 1 { assert got[1..] == []; }
  }

  lemma {:induction false} MainConcat(m: Main, a: seq<string>, b: seq<string>)
    ensures MainAfter(m, a + b) == MainAfter(MainAfter(m, a), b)
    decreases |a|
  {
    if a == [] {
      assert a + b == b;
    } else {
      assert (a + b)[1..] == a[1..] + b;
      MainConcat(MainGets(m, a[0]), a[1..], b);
    }
  }

  lemma {:induction false} MainRun(st: State, es: seq<Event>)
    ensures MainOf(Run(st, es)) == MainAfter(MainOf(st), Handled(st, es))
    decreases |es|
  {
    hide Step, HandledBy, MainOf;
    if es != [] {
      MainStep(st, es[0]);
      MainRun(Step(st, es[0]), es[1..]);
      MainConcat(MainOf(st), HandledBy(st, es[0]), Handled(Step(st, es[0]), es[1..]));
    }
  }

  /** No line is queued or waits on the port yet. */
  predicate Unused(c: Conn) {
    c.port == Port([], None, 0)
  }

  /** Main after the polls of a session. */
  function MainIn(c: Conn, uses: seq<Use>): Main {
    MainAfter(Main(None, []), Polled(c, uses))
  }

  /** The run of a session, and what it shows of main. */
  lemma SessionRun(c: Conn, uses: seq<Use>) returns (es: seq<Event>)
    requires Unused(c)
    ensures var st := Run(Fresh(), es);
      && st.port == AfterUses(c, uses).port && st.lines == Texts(ReadIn(c, uses)) && MainOf(st) == MainIn(c, uses)
  {
    hide Run, Handled, AfterUses, ReadIn, Polled, Texts;
    es := SessionMirrored(c, uses, Fresh());
    MainRun(Fresh(), es);
    assert [] + Texts(ReadIn(c, uses)) == Texts(ReadIn(c, uses));
  }

  /** In every session of commands, messages and polls: the direct deliveries main gets are, in
      order, headers each with the first hex line that was read after it; the accepted ones it
      has not got yet are whole in the queue. */
  lemma SessionPaired(c: Conn, uses: seq<Use>) returns (accepted: seq<(nat, nat)>)
    requires Unused(c)
    ensures var texts, main, buf := Texts(ReadIn(c, uses)), MainIn(c, uses), AfterUses(c, uses).port.buf;
      && Shape(buf, main.expecting) && AcceptedOk(texts, accepted)
      && main.direct + Due(buf, main.expecting) == PairTexts(texts, accepted)
  {
    hide Run, Fresh, Shape, Due, AcceptedOk, AfterUses, ReadIn, MainIn, Texts;
    var es := SessionRun(c, uses);
    DeliveriesArePaired(es);
    accepted := Run(Fresh(), es).accepted;
  }

  /** Once a poll returned a header, the next poll returns a line, whatever commands come in
      between, and that line is the first hex line that was read after the header. */
  lemma NextPolledIsBody(c: Conn, uses: seq<Use>, u: Use) returns (i: nat, j: nat)
    requires Unused(c) && u.PollOnce? && MainIn(c, uses).expecting.Some?
    ensures var texts := Texts(ReadIn(c, uses));
      && FirstHexAfter(texts, i, j) && MainIn(c, uses).expecting == Some(texts[i])
      && PolledBy(AfterUses(c, uses), u) == [texts[j]]
  {
    hide Run, Fresh, FirstHexAfter, AfterUses, ReadIn, MainIn, Texts;
    var es := SessionRun(c, uses);
    NextPollIsBody(es);
    var st := Run(Fresh(), es);
    i, j := st.accepted[|st.direct|].0, st.accepted[|st.direct|].1;
    FrontPolled(AfterUses(c, uses), u);
  }

  /** A poll returns the front of the queue whenever there is one. */
  lemma FrontPolled(c: Conn, u: Use)
    requires u.PollOnce? && c.port.buf != []
    ensures PolledBy(c, u) == [c.port.buf[0]] && Used(c, u).port.buf == c.port.buf[1..]
    ensures Used(c, u).wire == c.wire
  {}

  /** A poll that returns nothing found nothing: the queue is empty, and the wire too, unless a
      reply is outstanding or the time was up. */
  lemma {:induction false} NothingPolled(c: Conn, u: Use)
    requires u.PollOnce? && PolledBy(c, u) == []
    ensures c.port.buf == [] && Used(c, u).port.buf == []
    ensures !c.pending && u.budget >= |c.wire| ==> Used(c, u).wire == []
  {
    hide RouteLine, DropHeader, PollLines, AwaitTerminal;
    DroppedBuf(c.port);
    var now := if u.late then c.(port := DropHeader(c.port)) else c;
    if !now.pending { PollsAll(now, u.budget); }
  }

  lemma DroppedBuf(p: Port)
    ensures DropHeader(p).buf == p.buf
  {}

  lemma {:induction false} PollsAll(c: Conn, budget: nat)
    requires PollLines(c, budget).1.None? && c.port.buf == []
    ensures PollLines(c, budget).0.port.buf == []
    ensures budget >= |c.wire| ==> PollLines(c, budget).0.wire == []
    decreases budget
  {
    hide RouteLine;
    if budget > 0 && c.wire != [] {
      PollsAll(c.(wire := c.wire[1..], port := RouteLine(c.port, c.wire[0]).0), budget - 1);
    }
  }

  lemma HandsNothing(st: State, e: Event)
    requires UrcQueue.Inv(st) && HandledBy(st, e) == []
    ensures Keep(st.port.buf, IsProtected) <= Keep(Step(st, e).port.buf, IsProtected)
  {
    hide Keep, UrcQueue.Inv, Receive, Route;
    if e.Received? { ReceiveInv(st, e.line, e.queue); }
    if e.PollLine? && st.port.buf == [] {
      ReceiveInv(st, e.line, false);
      ReceivedPort(st, e.line);
    }
  }

  lemma ReceivedPort(st: State, line: string)
    ensures Receive(st, line, false).port == Route(st.port, line).0
  {
    hide Route;
  }

  lemma {:induction false} HandsNothingRun(st: State, es: seq<Event>)
    requires UrcQueue.Inv(st) && Handled(st, es) == []
    ensures Keep(st.port.buf, IsProtected) <= Keep(Run(st, es).port.buf, IsProtected)
    decreases |es|
  {
    hide Keep, UrcQueue.Inv, Step, HandledBy;
    if es != [] {
      assert HandledBy(st, es[0]) == [] && Handled(Step(st, es[0]), es[1..]) == [];
      HandsNothing(st, es[0]);
      StepInv(st, es[0]);
      HandsNothingRun(Step(st, es[0]), es[1..]);
    }
  }

  /** Commands take no call and no delivery out of the queue, whatever they read. */
  lemma CommandsKeepQueued(c: Conn, uses: seq<Use>, u: Use)
    requires Unused(c) && !u.PollOnce?
    ensures var before := AfterUses(c, uses);
      Keep(before.port.buf, IsProtected) <= Keep(Used(before, u).port.buf, IsProtected)
  {
    hide Run, Fresh, AfterUses, Used, Keep, Handled, UrcQueue.Inv;
    var es := SessionRun(c, uses);
    FreshInv();
    RunInv(Fresh(), es);
    var st := Run(Fresh(), es);
    var more := UseMirrored(AfterUses(c, uses), u, st);
    HandsNothingRun(st, more);
  }
}
