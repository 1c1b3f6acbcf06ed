/** The AT port's code: routing, queuing, polling and whole commands, proved to do what
    `UrcQueue` and `AtPort` say of its state. */
module AtDriver {
  import opened Common
  import opened UrcQueue
  import opened AtPort

  lemma ReserveStep(p: Port, slots: nat)
    requires slots <= MAX_URC_BUF
    ensures var i, k := Position(p.buf, IsCgev), Position(p.buf, IsCmti);
      Reserve(p, slots) ==
        if |p.buf| + slots <= MAX_URC_BUF then (p, true)
        else if i < |p.buf| then Reserve(p.(buf := RemoveAt(p.buf, i)), slots)
        else if k < |p.buf| then Reserve(p.(buf := RemoveAt(p.buf, k), lost := p.lost + 1), slots)
        else (p, false)
  {
    hide RemoveAt, IsCgev, IsCmti;
  }

  class Driver {
    var urcBuf: seq<string>
    var pendingCmtHeader: Option<string>
    var droppedUrcs: nat
    var responsePending: bool
    var timedOutCmgfQuery: bool
    /** What the modem has yet to send. */
    var wire: seq<Line>
    /** All losses so far, and those already reported. */
    ghost var lost: nat
    ghost var reported: nat

    ghost function Queue(): Port
      reads this
    {
      Port(urcBuf, pendingCmtHeader, lost)
    }

    ghost function View(): Conn
      reads this
    {
      Conn(Queue(), responsePending, timedOutCmgfQuery, wire)
    }

    /** The diagnostic counts the losses since the last report, until it saturates. */
    ghost predicate Valid()
      reads this
    {
      reported <= lost && droppedUrcs == Min(lost - reported, MAX_U32)
    }

    constructor ()
      ensures Valid() && View() == Conn(Port([], None, 0), false, false, [])
    {
      urcBuf, pendingCmtHeader, droppedUrcs := [], None, 0;
      responsePending, timedOutCmgfQuery, wire := false, false, [];
      lost, reported := 0, 0;
    }

    method TakeDiagnostics() returns (dropped: nat)
      requires Valid()
      modifies this`droppedUrcs, this`reported
      ensures Valid() && dropped == Min(lost - old(reported), MAX_U32) && reported == lost
    {
      dropped := droppedUrcs;
      droppedUrcs, reported := 0, lost;
    }

    method CountLoss()
      requires Valid()
      modifies this`droppedUrcs, this`lost
      ensures Valid() && lost == old(lost) + 1
    {
      droppedUrcs := Min(droppedUrcs + 1, MAX_U32);
      lost := lost + 1;
    }

    method FirstIndexOf(wanted: string -> bool) returns (i: nat)
      ensures i == Position(urcBuf, wanted)
    {
      i := 0;
      while i < |urcBuf| && !wanted(urcBuf[i])
        invariant i <= |urcBuf|
        invariant forall j :: 0 <= j < i ==> !wanted(urcBuf[j])
      {
        i := i + 1;
      }
    }

    method ReserveUrcSlots(slots: nat) returns (ok: bool)
      requires Valid() && slots <= MAX_URC_BUF
      modifies this`urcBuf, this`droppedUrcs, this`lost
      ensures Valid() && (Queue(), ok) == Reserve(old(Queue()), slots)
    {
      hide Reserve;
      while |urcBuf| + slots > MAX_URC_BUF
        invariant Valid() && pendingCmtHeader == old(pendingCmtHeader)
        invariant Reserve(Queue(), slots) == Reserve(old(Queue()), slots)
        decreases |urcBuf|
      {
        ReserveStep(Queue(), slots);
        var i := FirstIndexOf(IsCgev);
        if i < |urcBuf| {
          urcBuf := RemoveAt(urcBuf, i);
          continue;
        }
        i := FirstIndexOf(IsCmti);
        if i < |urcBuf| {
          urcBuf := RemoveAt(urcBuf, i);
          CountLoss();
          continue;
        }
        return false;
      }
      ReserveStep(Queue(), slots);
      return true;
    }

    method QueueUrcLine(line: string)
      requires Valid()
      modifies this`urcBuf, this`droppedUrcs, this`lost
      ensures Valid() && Queue() == QueueUrc(old(Queue()), line)
    {
      hide Reserve;
      if IsCgev(line) {
        var i := FirstIndexOf(IsCgev);
        if i < |urcBuf| {
          urcBuf := urcBuf[i := line];
        } else if |urcBuf| < MAX_URC_BUF - 1 {
          urcBuf := urcBuf + [line];
        }
        return;
      }
      var ok := ReserveUrcSlots(1);
      if ok {
        urcBuf := urcBuf + [line];
      } else {
        CountLoss();
      }
    }

    method DropPendingCmtHeader()
      requires Valid()
      modifies this`pendingCmtHeader, this`droppedUrcs, this`lost
      ensures Valid() && Queue() == DropHeader(old(Queue()))
    {
      if pendingCmtHeader.Some? {
        pendingCmtHeader := None;
        CountLoss();
      }
    }

    /** True when the line was part of a +CMT delivery. */
    method RouteCmtLine(t: Line) returns (handled: bool)
      requires Valid()
      modifies this`urcBuf, this`pendingCmtHeader, this`droppedUrcs, this`lost
      ensures Valid() && Queue() == RouteLine(old(Queue()), t).0
      ensures handled == !RouteLine(old(Queue()), t).1.NotPart?
    {
      hide Reserve;
      if t.late {
        DropPendingCmtHeader();
      }
      if IsHeader(t.text) {
        DropPendingCmtHeader();
        pendingCmtHeader := Some(t.text);
        return true;
      }
      if pendingCmtHeader.Some? && IsHexLine(t.text) {
        var header := pendingCmtHeader.value;
        pendingCmtHeader := None;
        var ok := ReserveUrcSlots(2);
        if ok {
          urcBuf := urcBuf + [header, t.text];
        } else {
          CountLoss();
        }
        return true;
      }
      return false;
    }

    method DiscardStaleResponseLine(t: Line)
      requires Valid()
      modifies this`urcBuf, this`pendingCmtHeader, this`droppedUrcs, this`lost, this`responsePending
      ensures Valid() && View() == StaleLine(old(View()), t)
    {
      hide QueueUrc, RouteLine, IsUrc, IsAtError;
      var handled := RouteCmtLine(t);
      if handled {
        return;
      }
      if t.text == "OK" || IsAtError(t.text) {
        responsePending := false;
      } else if IsUrc(t.text) {
        QueueUrcLine(t.text);
      }
    }

    method ReadLine() returns (t: Line)
      requires wire != []
      modifies this`wire
      ensures t == old(wire[0]) && wire == old(wire[1..])
    {
      t := wire[0];
      wire := wire[1..];
    }

    method WaitForTerminal(budget: nat)
      requires Valid()
      modifies this
      ensures Valid() && View() == AwaitTerminal(old(View()), budget)
    {
      hide StaleLine;
      var left := budget;
      while responsePending && left > 0 && wire != []
        invariant Valid()
        invariant AwaitTerminal(View(), left) == AwaitTerminal(old(View()), budget)
      {
        var line := ReadLine();
        DiscardStaleResponseLine(line);
        left := left - 1;
      }
    }

    method WaitForMarker(marker: string, budget: nat) returns (ok: bool)
      requires Valid()
      modifies this
      ensures Valid() && (View(), ok) == AwaitMarker(old(View()), marker, false, budget)
    {
      hide ProbeLine;
      var left, saw := budget, false;
      while left > 0 && wire != []
        invariant Valid()
        invariant AwaitMarker(View(), marker, saw, left) == AwaitMarker(old(View()), marker, false, budget)
      {
        var line := ReadLine();
        var done;
        saw, done := ReadProbeLine(line, marker, saw);
        if done {
          return true;
        }
        left := left - 1;
      }
      return false;
    }

    method ReadProbeLine(t: Line, marker: string, saw: bool) returns (sawNow: bool, done: bool)
      requires Valid()
      modifies this`urcBuf, this`pendingCmtHeader, this`droppedUrcs, this`lost, this`responsePending
      ensures Valid() && (View(), sawNow, done) == ProbeLine(old(View()), t, marker, saw)
    {
      hide QueueUrc, RouteLine, IsUrc;
      sawNow, done := saw, false;
      var handled := RouteCmtLine(t);
      if handled {
        return;
      }
      if StartsWith(t.text, marker) {
        sawNow := true;
      } else if t.text == "OK" && saw {
        responsePending := false;
        done := true;
      } else if IsUrc(t.text) {
        QueueUrcLine(t.text);
      }
    }

    method Resynchronize(answer: seq<Line>, budget: nat, probeBudget: nat) returns (ok: bool)
      requires Valid()
      modifies this
      ensures Valid() && (View(), ok) == Resync(old(View()), answer, budget, probeBudget)
    {
      hide AwaitTerminal, AwaitMarker;
      WaitForTerminal(budget);
      if !responsePending {
        return true;
      }
      var marker := if timedOutCmgfQuery then "+CSQ:" else "+CMGF:";
      wire := wire + answer;
      timedOutCmgfQuery := !timedOutCmgfQuery;
      ok := WaitForMarker(marker, probeBudget);
    }

    method DrainUrcs(budget: nat)
      requires Valid()
      modifies this
      ensures Valid() && View() == DrainLines(old(View()), Min(budget, MAX_URC_DRAIN_LINES))
    {
      hide RouteLine, QueueUrc;
      var left: nat := Min(budget, MAX_URC_DRAIN_LINES);
      while left > 0 && wire != []
        invariant Valid()
        invariant DrainLines(View(), left) == DrainLines(old(View()), Min(budget, MAX_URC_DRAIN_LINES))
      {
        var line := ReadLine();
        var handled := RouteCmtLine(line);
        if !handled {
          QueueUrcLine(line.text);
        }
        left := left - 1;
      }
    }

    /** Reads until the reply's terminal; the caller says when the deadline comes. */
    method CollectReply(interruptible: bool, budget: nat) returns (body: seq<Line>, truncated: bool, out: Outcome)
      requires Valid()
      modifies this
      ensures Valid()
      ensures (Reading(View(), body, truncated), out)
           == CollectUntilOk(Reading(old(View()), [], false), Buffered, interruptible, budget)
    {
      hide RouteLine, QueueUrc, IsUrc, IsCall, IsAtError, BufferLine;
      body, truncated := [], false;
      var left := budget;
      while left > 0 && wire != []
        invariant Valid()
        invariant CollectUntilOk(Reading(View(), body, truncated), Buffered, interruptible, left)
               == CollectUntilOk(Reading(old(View()), [], false), Buffered, interruptible, budget)
      {
        var line := ReadLine();
        left := left - 1;
        var handled := RouteCmtLine(line);
        if !handled {
          if line.text == "OK" || IsAtError(line.text) {
            return body, truncated, Completed(line);
          }
          if interruptible && IsCall(line.text) {
            QueueUrcLine(line.text);
            return body, truncated, Interrupted;
          }
          body, truncated := KeepLine(line, body, truncated);
        }
      }
      return body, truncated, TimedOut;
    }

    method KeepLine(t: Line, before: seq<Line>, truncatedBefore: bool) returns (body: seq<Line>, truncated: bool)
      requires Valid()
      modifies this`urcBuf, this`droppedUrcs, this`lost
      ensures Valid()
      ensures Reading(View(), body, truncated) == BufferLine(Reading(old(View()), before, truncatedBefore), Buffered, t)
    {
      hide QueueUrc, IsUrc, Fits;
      body, truncated := before, truncatedBefore;
      if IsUrc(t.text) {
        QueueUrcLine(t.text);
      } else if Fits(body, t.text) {
        body := body + [t];
      } else {
        truncated := true;
      }
    }

    method PrepareCommand(answer: seq<Line>, w: Patience) returns (ok: bool)
      requires Valid()
      modifies this
      ensures Valid() && (View(), ok) == Prepare(old(View()), answer, w)
    {
      hide Resync, DrainLines;
      ok := true;
      if responsePending {
        ok := Resynchronize(answer, w.terminal, w.probe);
      }
      if ok {
        DrainUrcs(w.drain);
      }
    }

    /** Sends one command, in step with the modem or not at all. */
    method Send(cmd: string, reply: seq<Line>, answer: seq<Line>, w: Patience)
      returns (body: seq<Line>, truncated: bool, out: Outcome)
      requires Valid()
      modifies this
      ensures Valid()
      ensures (Reading(View(), body, truncated), out) == SendAt(old(View()), cmd, Buffered, reply, answer, w)
    {
      hide Prepare, CollectUntilOk, Interruptible;
      body, truncated := [], false;
      var ok := PrepareCommand(answer, w);
      if !ok {
        return body, truncated, NotReady;
      }
      wire := wire + reply;
      body, truncated, out := CollectReply(Interruptible(cmd, Buffered), w.reply);
      if out.TimedOut? || out.Interrupted? {
        responsePending, timedOutCmgfQuery := true, cmd == "+CMGF?";
      }
    }

    /** The same with each line of the reply handed on at once; `handed` lists them. */
    method SendStreaming(cmd: string, reply: seq<Line>, answer: seq<Line>, w: Patience)
      returns (handed: seq<Line>, out: Outcome)
      requires Valid()
      modifies this
      ensures Valid()
      ensures (Reading(View(), handed, false), out) == SendAt(old(View()), cmd, Streamed, reply, answer, w)
    {
      hide Prepare, CollectUntilOk, StartsWith;
      handed := [];
      var ok := PrepareCommand(answer, w);
      if !ok {
        return handed, NotReady;
      }
      wire := wire + reply;
      handed, out := StreamLines(StartsWith(cmd, "+CMGL="), w.reply);
      if out.TimedOut? || out.Interrupted? {
        responsePending, timedOutCmgfQuery := true, cmd == "+CMGF?";
      }
    }

    method StreamLines(listing: bool, budget: nat) returns (handed: seq<Line>, out: Outcome)
      requires Valid()
      modifies this
      ensures Valid()
      ensures (Reading(View(), handed, false), out)
           == CollectUntilOk(Reading(old(View()), [], false), Streamed, listing, budget)
    {
      hide RouteLine, QueueUrc, IsAtError, StartsWith;
      handed := [];
      var left := budget;
      while left > 0 && wire != []
        invariant Valid()
        invariant CollectUntilOk(Reading(View(), handed, false), Streamed, listing, left)
               == CollectUntilOk(Reading(old(View()), [], false), Streamed, listing, budget)
      {
        var line := ReadLine();
        left := left - 1;
        var handled := RouteCmtLine(line);
        if !handled {
          if line.text == "OK" || IsAtError(line.text) {
            return handed, Completed(line);
          }
          if IsUrc(line.text) {
            QueueUrcLine(line.text);
            if listing && (StartsWith(line.text, "RING") || StartsWith(line.text, "+CLIP:")) {
              return handed, Interrupted;
            }
          } else {
            handed := handed + [line];
          }
        }
      }
      return handed, TimedOut;
    }

    method WaitForPrompt(shown: bool, budget: nat) returns (prompt: Prompt)
      requires Valid()
      modifies this
      ensures Valid() && (View(), prompt) == AwaitPrompt(old(View()), shown, budget)
    {
      hide RouteLine, QueueUrc, IsAtError;
      var left := budget;
      while left > 0 && wire != []
        invariant Valid()
        invariant AwaitPrompt(View(), shown, left) == AwaitPrompt(old(View()), shown, budget)
      {
        var line := ReadLine();
        if line.text == "OK" || IsAtError(line.text) {
          return Ended(line);
        }
        var handled := RouteCmtLine(line);
        if !handled {
          QueueUrcLine(line.text);
        }
        left := left - 1;
      }
      return if left > 0 && shown then Shown else Missed;
    }

    /** Sends one message: the command, and at the prompt the message itself. */
    method SendCmgsPdu(s: Stages, answer: seq<Line>, w: Patience)
      returns (body: seq<Line>, truncated: bool, out: Outcome, reference: nat)
      requires Valid()
      modifies this
      ensures Valid()
      ensures (Reading(View(), body, truncated), out) == SendPdu(old(View()), s, answer, w)
      ensures reference == MessageReference(body)
    {
      hide Prepare, Collect, AwaitPrompt, ParseOctet, TrimStart, TrimEnd;
      body, truncated, reference := [], false, 0;
      var ok := PrepareCommand(answer, w);
      if !ok {
        out := NotReady;
        return;
      }
      wire := wire + s.before;
      var prompt := WaitForPrompt(s.shown, w.prompt);
      match prompt {
        case Ended(t) =>
          out := Completed(t);
        case Missed =>
          wire := wire + s.aborted;
          responsePending, timedOutCmgfQuery, out := true, false, TimedOut;
        case Shown =>
          if !s.written {
            wire, out := s.aborted, WriteFailed;
            return;
          }
          wire := s.after;
          body, truncated, out := CollectResult(w.reply);
          reference := ReadReference(body);
      }
    }

    method CollectResult(budget: nat) returns (body: seq<Line>, truncated: bool, out: Outcome)
      requires Valid()
      modifies this
      ensures Valid()
      ensures (Reading(View(), body, truncated), out) == Collect(old(View()), "+CMGS", Buffered, false, budget)
    {
      hide CollectUntilOk;
      body, truncated, out := CollectReply(false, budget);
      if out.TimedOut? || out.Interrupted? {
        responsePending, timedOutCmgfQuery := true, false;
      }
    }

    static method ReadReference(body: seq<Line>) returns (reference: nat)
      ensures reference == MessageReference(body)
    {
      hide ParseOctet, TrimStart, TrimEnd;
      for i := 0 to |body|
        invariant forall j :: 0 <= j < i ==> !IsReferenceLine(body[j])
      {
        if StartsWith(body[i].text, "+CMGS:") {
          assert Position(body, IsReferenceLine) == i;
          var value := ParseOctet(TrimEnd(TrimStart(body[i].text[6..])));
          return if value.Some? then value.value else 0;
        }
      }
      return 0;
    }

    method PopUrc() returns (urc: Option<string>)
      requires Valid()
      modifies this`urcBuf
      ensures Valid() && (View(), urc) == TakeFront(old(View()))
    {
      if urcBuf == [] {
        return None;
      }
      urc := Some(urcBuf[0]);
      urcBuf := urcBuf[1..];
    }

    /** One queued line, or whatever a brief look at the port brings. */
    method PollUrc(late: bool, budget: nat) returns (urc: Option<string>)
      requires Valid()
      modifies this
      ensures Valid() && (View(), urc) == PollPort(old(View()), late, budget)
    {
      hide RouteLine, StaleLine;
      if late {
        DropPendingCmtHeader();
      }
      if urcBuf != [] {
        urc := PopUrc();
        return;
      }
      if responsePending {
        if budget > 0 && wire != [] {
          var line := ReadLine();
          DiscardStaleResponseLine(line);
        }
        urc := PopUrc();
        return;
      }
      urc := ReadForCaller(budget);
    }

    method ReadForCaller(budget: nat) returns (urc: Option<string>)
      requires Valid()
      modifies this
      ensures Valid() && (View(), urc) == PollLines(old(View()), budget)
    {
      hide RouteLine;
      var left := budget;
      while left > 0 && wire != []
        invariant Valid()
        invariant PollLines(View(), left) == PollLines(old(View()), budget)
      {
        var line := ReadLine();
        var handled := RouteCmtLine(line);
        if !handled {
          return Some(line.text);
        }
        if urcBuf != [] {
          urc := PopUrc();
          return;
        }
        left := left - 1;
      }
      return None;
    }
  }
}
