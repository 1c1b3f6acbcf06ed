/** What commands on the AT port achieve: when a wait ends well, when the port gets back in step,
    and that a reply that comes in time is the result. */
module AtProgress {
  import opened Common
  import opened UrcQueue
  import opened AtPort

  // ---- Lines that are known ----

  /** The last line of a reply: OK alone, or one of three errors with whatever behind it. */
  lemma TerminalForms(line: string)
    ensures IsTerminal(line) <==>
            line == "OK" || exists rest: string ::
              line == "ERROR" + rest || line == "+CME ERROR" + rest || line == "+CMS ERROR" + rest
  {
    if IsTerminal(line) && line != "OK" {
      var rest := if "ERROR" <= line then line[5..] else line[10..];
      assert line == "ERROR" + rest || line == "+CME ERROR" + rest || line == "+CMS ERROR" + rest;
    }
  }

  /** The announcements of messages, reports, calls and network changes. */
  const URCS: seq<string> := ["+CMTI:", "+CMT:", "+CDSI:", "+CDS:", "+CGEV:", "RING", "+CLIP:", "NO CARRIER", "+CUSD:"]

  lemma UrcForms(line: string)
    ensures IsUrc(line) <==> exists i :: 0 <= i < |URCS| && URCS[i] <= line
  {
    assert URCS[0] == "+CMTI:" && URCS[1] == "+CMT:" && URCS[2] == "+CDSI:" && URCS[3] == "+CDS:";
    assert URCS[4] == "+CGEV:" && URCS[5] == "RING" && URCS[6] == "+CLIP:" && URCS[7] == "NO CARRIER";
    assert URCS[8] == "+CUSD:";
  }

  // ---- Draining ----

  /** Draining reads as many lines as there are, up to its budget. */
  lemma {:induction false} DrainedCount(c: Conn, budget: nat)
    ensures DrainLines(c, budget) == c.(wire := c.wire[Min(budget, |c.wire|)..], port := DrainLines(c, budget).port)
    decreases budget
  {
    hide RouteLine, QueueUrc;
    if budget > 0 && c.wire != [] {
      DrainedCount(DrainLine(c.(wire := c.wire[1..]), c.wire[0]), budget - 1);
      assert c.wire[1..][Min(budget - 1, |c.wire| - 1)..] == c.wire[Min(budget, |c.wire|)..];
    }
  }

  // ---- Waiting for the late terminal ----

  /** The first terminal among the lines, or their number. */
  function FirstTerminal(ws: seq<Line>): (k: nat)
    ensures k <= |ws|
  {
    Position(ws, (t: Line) => IsTerminal(t.text))
  }

  lemma FirstTerminalStep(ws: seq<Line>)
    requires ws != []
    ensures FirstTerminal(ws) == if IsTerminal(ws[0].text) then 0 else 1 + FirstTerminal(ws[1..])
  {}

  /** The wait ends with the first terminal if that comes within the budget, and reads nothing
      behind it. */
  lemma {:induction false} TerminalAwaited(c: Conn, budget: nat)
    requires c.pending
    ensures var d, k := AwaitTerminal(c, budget), FirstTerminal(c.wire);
      && (!d.pending <==> k < Min(budget, |c.wire|))
      && d.wire == c.wire[if k < budget then Min(k + 1, |c.wire|) else Min(budget, |c.wire|)..]
    decreases budget
  {
    hide RouteLine, QueueUrc, IsTerminal, IsUrc, FirstTerminal;
    if budget > 0 && c.wire != [] {
      FirstTerminalStep(c.wire);
      var t, next := c.wire[0], StaleLine(c.(wire := c.wire[1..]), c.wire[0]);
      if IsTerminal(t.text) {
        TerminalIsNoPart(c.port, t);
        StopsWhenDone(next, budget - 1);
      } else {
        TerminalAwaited(next, budget - 1);
      }
    }
  }

  // ---- Waiting for a probe's answer ----

  /** Among the first `n` lines an OK comes behind the marker. */
  ghost predicate OkBehind(ws: seq<Line>, marker: string, saw: bool, n: nat)
    requires n <= |ws|
  {
    exists j :: 0 <= j < n && ws[j].text == "OK"
                && (saw || exists i :: 0 <= i < j && StartsWith(ws[i].text, marker))
  }

  lemma OkBehindStep(ws: seq<Line>, marker: string, saw: bool, n: nat)
    requires 0 < n <= |ws|
    ensures OkBehind(ws, marker, saw, n)
         == ((saw && ws[0].text == "OK") || OkBehind(ws[1..], marker, saw || StartsWith(ws[0].text, marker), n - 1))
  {
    hide StartsWith;
    var now := saw || StartsWith(ws[0].text, marker);
    if OkBehind(ws, marker, saw, n) && !(saw && ws[0].text == "OK") {
      var j :| 0 <= j < n && ws[j].text == "OK" && (saw || exists i :: 0 <= i < j && StartsWith(ws[i].text, marker));
      if !now {
        var i :| 0 <= i < j && StartsWith(ws[i].text, marker);
        assert StartsWith(ws[1..][i - 1].text, marker);
      }
      assert j > 0 && ws[1..][j - 1].text == "OK";
    }
    if OkBehind(ws[1..], marker, now, n - 1) {
      var j :| 0 <= j < n - 1 && ws[1..][j].text == "OK"
               && (now || exists i :: 0 <= i < j && StartsWith(ws[1..][i].text, marker));
      if !now {
        var i :| 0 <= i < j && StartsWith(ws[1..][i].text, marker);
        assert StartsWith(ws[i + 1].text, marker);
      }
      assert ws[j + 1].text == "OK";
    }
  }

  /** The probe is answered exactly when its marker and then an OK come within the budget. */
  lemma {:induction false} MarkerAwaited(c: Conn, marker: string, saw: bool, budget: nat)
    requires marker == "+CSQ:" || marker == "+CMGF:"
    ensures AwaitMarker(c, marker, saw, budget).1 <==> OkBehind(c.wire, marker, saw, Min(budget, |c.wire|))
    decreases budget
  {
    hide RouteLine, QueueUrc, IsUrc, StartsWith, OkBehind, IsTerminal;
    if budget > 0 && c.wire != [] {
      var t := c.wire[0];
      var (next, sawNow, done) := ProbeLine(c.(wire := c.wire[1..]), t, marker, saw);
      OkBehindStep(c.wire, marker, saw, Min(budget, |c.wire|));
      OkIsTerminal();
      OkIsNoMarker(marker);
      if t.text == "OK" || StartsWith(t.text, marker) { TerminalIsNoPart(c.port, t); }
      if !done {
        PartIsNoMarker(c.port, t, marker);
        MarkerAwaited(next, marker, sawNow, budget - 1);
      }
    } else {
      NothingBehind(c.wire, marker, saw);
    }
  }

  lemma OkIsNoMarker(marker: string)
    requires marker == "+CSQ:" || marker == "+CMGF:"
    ensures !StartsWith("OK", marker)
  {}

  lemma NothingBehind(ws: seq<Line>, marker: string, saw: bool)
    ensures !OkBehind(ws, marker, saw, 0)
  {}

  lemma PartIsNoMarker(p: Port, t: Line, marker: string)
    requires marker == "+CSQ:" || marker == "+CMGF:"
    ensures !RouteLine(p, t).1.NotPart? ==> !StartsWith(t.text, marker)
  {
    hide RouteLine, StartsWith, IsTerminal, IsUrc;
    if StartsWith(t.text, marker) { TerminalIsNoPart(p, t); }
  }

  /** Resynchronising succeeds exactly when the old reply's terminal comes in time, or else the
      probe's own answer does, behind whatever else is on the wire. */
  lemma ResyncSucceeds(c: Conn, answer: seq<Line>, budget: nat, probeReads: nat)
    requires c.pending
    ensures var behind := c.wire[Min(budget, |c.wire|)..] + answer;
      Resync(c, answer, budget, probeReads).1 <==>
      FirstTerminal(c.wire) < Min(budget, |c.wire|)
      || OkBehind(behind, Marker(c.cmgf), false, Min(probeReads, |behind|))
  {
    hide AwaitTerminal, AwaitMarker, FirstTerminal, OkBehind;
    TerminalAwaited(c, budget);
    AwaitedCmgf(c, budget);
    var waited := AwaitTerminal(c, budget);
    if waited.pending {
      MarkerAwaited(waited.(cmgf := !waited.cmgf, wire := waited.wire + answer), Marker(waited.cmgf), false,
                    probeReads);
    }
  }

  lemma {:induction false} AwaitedCmgf(c: Conn, budget: nat)
    ensures AwaitTerminal(c, budget).cmgf == c.cmgf
    decreases budget
  {
    hide RouteLine, QueueUrc, IsTerminal, IsUrc;
    if c.pending && budget > 0 && c.wire != [] {
      AwaitedCmgf(StaleLine(c.(wire := c.wire[1..]), c.wire[0]), budget - 1);
    }
  }

  /** A command is refused exactly when resynchronising fails; otherwise it goes out behind a
      drain of at most 32 lines. */
  lemma PreparedUnlessLost(c: Conn, answer: seq<Line>, w: Patience)
    ensures Prepare(c, answer, w).1 <==> !c.pending || Resync(c, answer, w.terminal, w.probe).1
    ensures var synced := if c.pending then Resync(c, answer, w.terminal, w.probe).0 else c;
      Prepare(c, answer, w).1 ==> Prepare(c, answer, w).0.wire == synced.wire[Min(Min(w.drain, 32), |synced.wire|)..]
  {
    hide Resync, DrainLines;
    var synced := if c.pending then Resync(c, answer, w.terminal, w.probe).0 else c;
    DrainedCount(synced, Min(w.drain, MAX_URC_DRAIN_LINES));
  }

  // ---- Waiting for the prompt ----

  /** The prompt is reached if no terminal comes before it and the time suffices; a terminal
      before it is the result. */
  lemma {:induction false} PromptAwaited(c: Conn, shown: bool, budget: nat)
    ensures var (d, prompt) := AwaitPrompt(c, shown, budget);
      var k := FirstTerminal(c.wire);
      if k < Min(budget, |c.wire|) then prompt == Ended(c.wire[k]) && d.wire == c.wire[k + 1..]
      else if shown && budget > |c.wire| then prompt == Shown && d.wire == []
      else prompt == Missed && d.wire == c.wire[Min(budget, |c.wire|)..]
    decreases budget
  {
    hide RouteLine, QueueUrc, IsTerminal, FirstTerminal;
    if budget > 0 && c.wire != [] {
      FirstTerminalStep(c.wire);
      var t, rest := c.wire[0], c.(wire := c.wire[1..]);
      if !IsTerminal(t.text) {
        PromptAwaited(DrainLine(rest, t), shown, budget - 1);
        var k := FirstTerminal(c.wire);
        if k < |c.wire| { assert c.wire[1..][k - 1] == c.wire[k] && c.wire[1..][k..] == c.wire[k + 1..]; }
      }
    }
  }

  // ---- The reply ----

  /** A reply that comes in time, mixed with other traffic, is the result of its command: its
      lines in order, its terminal, and the traffic in the queue. */
  lemma CommandAnswered(c: Conn, cmd: string, manner: Manner, reply: seq<Line>, answer: seq<Line>, w: Patience,
                        lines: seq<Line>, terminal: Line, rest: seq<Line>)
    requires Prepare(c, answer, w).1 && w.reply > |lines| && IsTerminal(terminal.text)
    requires Prepare(c, answer, w).0.wire + reply == lines + ([terminal] + rest)
    requires Orderly(Prepare(c, answer, w).0.port.header.Some?, lines, Interruptible(cmd, manner))
    ensures var (r, out) := SendAt(c, cmd, manner, reply, answer, w);
      var ready := Prepare(c, answer, w).0;
      && out == Completed(terminal)
      && r.conn == ready.(wire := rest, port := Hear(ready.port, lines + [terminal]))
      && r.truncated == (manner.Buffered? && !Within(Replies(lines)))
      && (!r.truncated ==> r.body == Replies(lines))
  {
    hide Prepare, Interruptible, Orderly, Within, Replies, Hear, CollectUntilOk, IsTerminal;
    var ready := Prepare(c, answer, w).0;
    var start := Reading(ready.(wire := ready.wire + reply), [], false);
    EmptyFits();
    assert [] + Replies(lines) == Replies(lines);
    ReplyCollected(start, lines, terminal, rest, manner, Interruptible(cmd, manner), w.reply);
  }

  lemma EmptyFits()
    ensures Within([])
  {}

  /** A message whose prompt comes and that can be written gets the reply that follows it. */
  lemma MessageAnswered(c: Conn, s: Stages, answer: seq<Line>, w: Patience, lines: seq<Line>, terminal: Line,
                        rest: seq<Line>)
    requires Prepare(c, answer, w).1 && s.shown && s.written && s.after == lines + ([terminal] + rest)
    requires w.prompt > |Prepare(c, answer, w).0.wire + s.before| && w.reply > |lines| && IsTerminal(terminal.text)
    requires forall i :: 0 <= i < |Prepare(c, answer, w).0.wire + s.before| ==>
               !IsTerminal((Prepare(c, answer, w).0.wire + s.before)[i].text)
    requires var ready := Prepare(c, answer, w).0;
      Orderly(AwaitPrompt(ready.(wire := ready.wire + s.before), true, w.prompt).0.port.header.Some?, lines, false)
    ensures var (r, out) := SendPdu(c, s, answer, w);
      && out == Completed(terminal) && r.conn.wire == rest
      && r.truncated == !Within(Replies(lines)) && (!r.truncated ==> r.body == Replies(lines))
  {
    hide Prepare, Orderly, Within, Replies, Hear, CollectUntilOk, AwaitPrompt;
    var ready := Prepare(c, answer, w).0;
    var asking := ready.(wire := ready.wire + s.before);
    PromptAwaited(asking, true, w.prompt);
    var asked := AwaitPrompt(asking, true, w.prompt).0;
    EmptyFits();
    assert [] + Replies(lines) == Replies(lines);
    ReplyCollected(Reading(asked.(wire := s.after), [], false), lines, terminal, rest, Buffered, false, w.reply);
  }

  // ---- Calls ----

  lemma CallIsPlain(p: Port, t: Line)
    requires IsCall(t.text)
    ensures RouteLine(p, t).1.NotPart? && IsUrc(t.text) && !IsTerminal(t.text)
  {
    assert t.text[0] == 'R' || (t.text[0] == '+' && t.text[2] == 'L');
    assert !IsHexDigit(t.text[0]);
  }

  lemma HearCall(p: Port, t: Line)
    requires IsCall(t.text)
    ensures Hear(p, [t]) == QueueUrc(RouteLine(p, t).0, t.text)
  {
    CallIsPlain(p, t);
    hide RouteLine, IsUrc, IsCall, QueueUrc;
    assert [t][1..] == [];
  }

  /** A call among the lines of a reply that may be interrupted ends it, and is queued. */
  lemma {:induction false} CallEnds(r: Reading, lines: seq<Line>, call: Line, rest: seq<Line>, manner: Manner,
                                    budget: nat)
    requires r.conn.wire == lines + ([call] + rest) && budget > |lines| && IsCall(call.text)
    requires Orderly(r.conn.port.header.Some?, lines, true)
    ensures var (s, out) := CollectUntilOk(r, manner, true, budget);
      out == Interrupted && s.conn == r.conn.(wire := rest, port := Hear(r.conn.port, lines + [call]))
    decreases |lines|
  {
    hide IsTerminal, IsUrc, IsCall, RouteLine, Fits, QueueUrc, Orderly, IsReply, Hear;
    if lines == [] {
      assert lines + ([call] + rest) == [call] + rest && lines + [call] == [call] && ([call] + rest)[1..] == rest;
      CallIsPlain(r.conn.port, call);
      HearCall(r.conn.port, call);
    } else {
      var t, more := lines[0], lines[1..];
      assert r.conn.wire[0] == t && r.conn.wire[1..] == more + ([call] + rest);
      OrderlyStep(r.conn.port, lines, true);
      QueueHeader(RouteLine(r.conn.port, t).0, t.text);
      assert (lines + [call])[1..] == more + [call];
      HearStep(r.conn.port, lines + [call]);
      LineHeard(r, manner);
      CallEnds(CollectLine(r, manner), more, call, rest, manner, budget - 1);
    }
  }

  lemma LineHeard(r: Reading, manner: Manner)
    requires r.conn.wire != []
    ensures CollectLine(r, manner).conn
         == r.conn.(wire := r.conn.wire[1..], port := HearLine(r.conn.port, r.conn.wire[0]))
    ensures HearLine(r.conn.port, r.conn.wire[0]).header == RouteLine(r.conn.port, r.conn.wire[0]).0.header
  {
    hide RouteLine, IsUrc, QueueUrc, Fits;
    QueueHeader(RouteLine(r.conn.port, r.conn.wire[0]).0, r.conn.wire[0].text);
  }

  /** Commands that touch the message storage give way to a call; the call is queued, and the
      rest of the reply is awaited before the next command. */
  lemma CallInterrupts(c: Conn, cmd: string, manner: Manner, reply: seq<Line>, answer: seq<Line>, w: Patience,
                       lines: seq<Line>, call: Line, rest: seq<Line>)
    requires if manner.Streamed? then "+CMGL=" <= cmd else "+CPMS" <= cmd || "+CMGR=" <= cmd || "+CMGD=" <= cmd
    requires Prepare(c, answer, w).1 && w.reply > |lines| && IsCall(call.text)
    requires Prepare(c, answer, w).0.wire + reply == lines + ([call] + rest)
    requires Orderly(Prepare(c, answer, w).0.port.header.Some?, lines, true)
    ensures var (r, out) := SendAt(c, cmd, manner, reply, answer, w);
      var ready := Prepare(c, answer, w).0;
      && out == Interrupted && r.conn.pending && r.conn.wire == rest
      && r.conn.port == Hear(ready.port, lines + [call])
  {
    hide Prepare, Orderly, Hear, CollectUntilOk, IsCall;
    var ready := Prepare(c, answer, w).0;
    CallEnds(Reading(ready.(wire := ready.wire + reply), [], false), lines, call, rest, manner, w.reply);
  }

  /** No other command does. */
  lemma OthersKeepOn(c: Conn, cmd: string, manner: Manner, reply: seq<Line>, answer: seq<Line>, w: Patience)
    requires SendAt(c, cmd, manner, reply, answer, w).1.Interrupted?
    ensures if manner.Streamed? then "+CMGL=" <= cmd else "+CPMS" <= cmd || "+CMGR=" <= cmd || "+CMGD=" <= cmd
  {
    hide Prepare, CollectUntilOk;
    var ready := Prepare(c, answer, w).0;
    if !Interruptible(cmd, manner) {
      Uninterrupted(Reading(ready.(wire := ready.wire + reply), [], false), manner, w.reply);
    }
  }

  lemma {:induction false} Uninterrupted(r: Reading, manner: Manner, budget: nat)
    ensures !CollectUntilOk(r, manner, false, budget).1.Interrupted?
    decreases budget
  {
    hide IsTerminal, IsUrc, IsCall, RouteLine, QueueUrc, BufferLine;
    if budget > 0 && r.conn.wire != [] { Uninterrupted(CollectLine(r, manner), manner, budget - 1); }
  }
}
