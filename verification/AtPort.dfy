/** Commands on the AT port: who gets which line, and how the port gets back in step with the
    modem after a command that timed out. */
module AtPort {
  import opened Common
  import opened UrcQueue

  const MAX_BODY_LINES: nat := 64
  const MAX_BODY_BYTES: nat := 16 * 1024
  const MAX_URC_DRAIN_LINES: nat := 32
  const MAX_LINE_LEN: nat := 1024

  predicate IsAtError(line: string) {
    StartsWith(line, "ERROR") || StartsWith(line, "+CME ERROR") || StartsWith(line, "+CMS ERROR")
  }

  predicate IsTerminal(line: string) {
    line == "OK" || IsAtError(line)
  }

  predicate IsCall(line: string) {
    StartsWith(line, "RING") || StartsWith(line, "+CLIP:")
  }

  predicate IsUrc(line: string) {
    IsCmti(line) || IsHeader(line) || StartsWith(line, "+CDSI:") || StartsWith(line, "+CDS:") || IsCgev(line)
    || IsCall(line) || StartsWith(line, "NO CARRIER") || StartsWith(line, "+CUSD:")
  }

  /** Whose line it is: unsolicited, or part of the reply to command number `n`. */
  datatype Owner = Unsolicited | ReplyTo(n: nat)

  /** A line on its way.  `late`: a +CMT header waiting when it is read has expired. */
  datatype Line = Line(owner: Owner, text: string, late: bool)

  /** The port and what the modem has yet to send for the commands it was given. */
  datatype Conn = Conn(port: Port, pending: bool, cmgf: bool, wire: seq<Line>)

  datatype Outcome = Completed(terminal: Line) | Interrupted | TimedOut | NotReady | WriteFailed

  /** The command was not sent, or not wholly. */
  predicate Stops(out: Outcome) {
    out.NotReady? || out.WriteFailed?
  }

  function RouteLine(p: Port, t: Line): (Port, Routed) {
    Route(if t.late then DropHeader(p) else p, t.text)
  }

  // ---- After a timeout ----

  /** One line while an old reply is awaited: everything but its terminal is passed over. */
  function StaleLine(c: Conn, t: Line): Conn {
    var (p, how) := RouteLine(c.port, t);
    if !how.NotPart? then c.(port := p)
    else if IsTerminal(t.text) then c.(port := p, pending := false)
    else if IsUrc(t.text) then c.(port := QueueUrc(p, t.text))
    else c.(port := p)
  }

  function AwaitTerminal(c: Conn, budget: nat): Conn
    decreases budget
  {
    if !c.pending || budget == 0 || c.wire == [] then c
    else AwaitTerminal(StaleLine(c.(wire := c.wire[1..]), c.wire[0]), budget - 1)
  }

  /** The answer that shows a probe was reached; the probe differs from the command that timed out. */
  function Marker(cmgf: bool): string {
    if cmgf then "+CSQ:" else "+CMGF:"
  }

  function ProbeLine(c: Conn, t: Line, marker: string, saw: bool): (Conn, bool, bool) {
    var (p, how) := RouteLine(c.port, t);
    var next := c.(port := p);
    if !how.NotPart? then (next, saw, false)
    else if StartsWith(t.text, marker) then (next, true, false)
    else if t.text == "OK" && saw then (next.(pending := false), saw, true)
    else if IsUrc(t.text) then (c.(port := QueueUrc(p, t.text)), saw, false)
    else (next, saw, false)
  }

  function AwaitMarker(c: Conn, marker: string, saw: bool, budget: nat): (Conn, bool)
    decreases budget
  {
    if budget == 0 || c.wire == [] then (c, false)
    else
      var (next, sawNow, done) := ProbeLine(c.(wire := c.wire[1..]), c.wire[0], marker, saw);
      if done then (next, true) else AwaitMarker(next, marker, sawNow, budget - 1)
  }

  /** Waits for the late terminal, then for a probe's own answer; `answer` is what the modem
      sends for the probe. */
  function Resync(c: Conn, answer: seq<Line>, budget: nat, probeReads: nat): (Conn, bool) {
    var waited := AwaitTerminal(c, budget);
    if !waited.pending then (waited, true)
    else
      AwaitMarker(waited.(cmgf := !waited.cmgf, wire := waited.wire + answer), Marker(waited.cmgf), false, probeReads)
  }

  function DrainLine(c: Conn, t: Line): Conn {
    var (p, how) := RouteLine(c.port, t);
    c.(port := if how.NotPart? then QueueUrc(p, t.text) else p)
  }

  function DrainLines(c: Conn, budget: nat): Conn
    decreases budget
  {
    if budget == 0 || c.wire == [] then c
    else DrainLines(DrainLine(c.(wire := c.wire[1..]), c.wire[0]), budget - 1)
  }

  // ---- One command ----

  /** Bytes of a line in UTF-8. */
  function ByteLen(line: string): nat {
    if line == "" then 0 else (if line[0] < '\U{80}' then 1 else 2) + ByteLen(line[1..])
  }

  /** Bytes of the lines joined by newlines. */
  function TextLen(body: seq<Line>): nat {
    if body == [] then 0
    else
      var n := |body| - 1;
      TextLen(body[..n]) + (if TextLen(body[..n]) > 0 then 1 else 0) + ByteLen(body[n].text)
  }

  predicate Fits(body: seq<Line>, line: string) {
    |body| < MAX_BODY_LINES && TextLen(body) + ByteLen(line) + (if TextLen(body) > 0 then 1 else 0) <= MAX_BODY_BYTES
  }

  datatype Reading = Reading(conn: Conn, body: seq<Line>, truncated: bool)

  /** A reply is kept up to the limits, or handed on line by line. */
  datatype Manner = Buffered | Streamed

  /** A line that neither ends the reply nor belongs to a pair. */
  function BufferLine(r: Reading, manner: Manner, t: Line): Reading {
    if IsUrc(t.text) then r.(conn := r.conn.(port := QueueUrc(r.conn.port, t.text)))
    else if manner.Streamed? || Fits(r.body, t.text) then r.(body := r.body + [t])
    else r.(truncated := true)
  }

  function CollectUntilOk(r: Reading, manner: Manner, interruptible: bool, budget: nat): (Reading, Outcome)
    decreases budget
  {
    if budget == 0 || r.conn.wire == [] then (r, TimedOut)
    else
      var t := r.conn.wire[0];
      var (p, how) := RouteLine(r.conn.port, t);
      var next := r.(conn := r.conn.(wire := r.conn.wire[1..], port := p));
      if !how.NotPart? then CollectUntilOk(next, manner, interruptible, budget - 1)
      else if IsTerminal(t.text) then (next, Completed(t))
      else if interruptible && IsCall(t.text) then
        (next.(conn := next.conn.(port := QueueUrc(p, t.text))), Interrupted)
      else CollectUntilOk(BufferLine(next, manner, t), manner, interruptible, budget - 1)
  }

  /** A call cuts short what touches the message storage. */
  predicate Interruptible(cmd: string, manner: Manner) {
    if manner.Streamed? then StartsWith(cmd, "+CMGL=")
    else StartsWith(cmd, "+CPMS") || StartsWith(cmd, "+CMGR=") || StartsWith(cmd, "+CMGD=")
  }

  /** How long each wait lasts, in lines that arrive before it ends. */
  datatype Patience = Patience(terminal: nat, probe: nat, drain: nat, prompt: nat, reply: nat)

  function Prepare(c: Conn, answer: seq<Line>, w: Patience): (Conn, bool) {
    var (synced, ok) := if c.pending then Resync(c, answer, w.terminal, w.probe) else (c, true);
    if !ok then (synced, false) else (DrainLines(synced, Min(w.drain, MAX_URC_DRAIN_LINES)), true)
  }

  function MarkTimedOut(c: Conn, cmd: string): Conn {
    c.(pending := true, cmgf := cmd == "+CMGF?")
  }

  /** Collects a reply; one that does not come to its end stays outstanding. */
  function Collect(c: Conn, cmd: string, manner: Manner, interruptible: bool, budget: nat): (Reading, Outcome) {
    var (r, out) := CollectUntilOk(Reading(c, [], false), manner, interruptible, budget);
    if out.TimedOut? || out.Interrupted? then (r.(conn := MarkTimedOut(r.conn, cmd)), out) else (r, out)
  }

  function SendAt(c: Conn, cmd: string, manner: Manner, reply: seq<Line>, answer: seq<Line>, w: Patience)
    : (Reading, Outcome)
  {
    var (ready, ok) := Prepare(c, answer, w);
    if !ok then (Reading(ready, [], false), NotReady)
    else Collect(ready.(wire := ready.wire + reply), cmd, manner, Interruptible(cmd, manner), w.reply)
  }

  /** An outbound message: the lines before the prompt, whether it is shown, whether the message
      can be written, and the lines that follow it or the abort. */
  datatype Stages = Stages(before: seq<Line>, shown: bool, written: bool, after: seq<Line>, aborted: seq<Line>)

  datatype Prompt = Shown | Ended(terminal: Line) | Missed

  function AwaitPrompt(c: Conn, shown: bool, budget: nat): (Conn, Prompt)
    decreases budget
  {
    if budget == 0 then (c, Missed)
    else if c.wire == [] then (c, if shown then Shown else Missed)
    else
      var t, rest := c.wire[0], c.(wire := c.wire[1..]);
      if IsTerminal(t.text) then (rest, Ended(t)) else AwaitPrompt(DrainLine(rest, t), shown, budget - 1)
  }

  function SendPdu(c: Conn, s: Stages, answer: seq<Line>, w: Patience): (Reading, Outcome) {
    var (ready, ok) := Prepare(c, answer, w);
    if !ok then (Reading(ready, [], false), NotReady)
    else
      var (asked, prompt) := AwaitPrompt(ready.(wire := ready.wire + s.before), s.shown, w.prompt);
      match prompt
      case Ended(t) => (Reading(asked, [], false), Completed(t))
      case Missed => (Reading(MarkTimedOut(asked.(wire := asked.wire + s.aborted), "+CMGS"), [], false), TimedOut)
      case Shown =>
        if s.written then Collect(asked.(wire := s.after), "+CMGS", Buffered, false, w.reply)
        else (Reading(asked.(wire := s.aborted), [], false), WriteFailed)
  }

  // ---- The reference of a sent message ----

  predicate IsDigit(c: char) {
    '0' <= c <= '9'
  }

  /** White space of the first 256 characters. */
  predicate IsSpace(c: char) {
    '\t' <= c <= '\r' || c == ' ' || c == '\U{85}' || c == '\U{A0}'
  }

  function TrimStart(s: string): string {
    if s != "" && IsSpace(s[0]) then TrimStart(s[1..]) else s
  }

  function TrimEnd(s: string): string {
    if s != "" && IsSpace(s[|s| - 1]) then TrimEnd(s[..|s| - 1]) else s
  }

  /** The value of decimal digits, none when there is anything else. */
  function DecimalValue(s: string): Option<nat> {
    if s == "" then Some(0)
    else
      var n := |s| - 1;
      match DecimalValue(s[..n])
      case None => None
      case Some(high) => if IsDigit(s[n]) then Some(10 * high + (s[n] - '0') as nat) else None
  }

  /** A number of eight bits; a leading plus is allowed, an overflow is not. */
  function ParseOctet(s: string): Option<nat> {
    var digits := if s != "" && s[0] == '+' then s[1..] else s;
    if digits == "" then None
    else match DecimalValue(digits)
      case None => None
      case Some(n) => if n < 256 then Some(n) else None
  }

  function IsReferenceLine(t: Line): bool { StartsWith(t.text, "+CMGS:") }

  /** The reference in the first line that has one, 0 when it cannot be read. */
  function MessageReference(body: seq<Line>): nat {
    var i := Position(body, IsReferenceLine);
    if i == |body| then 0
    else match ParseOctet(TrimEnd(TrimStart(body[i].text[6..])))
      case Some(n) => n
      case None => 0
  }

  function Decimal(n: nat): (s: string)
    ensures s != ""
  {
    if n < 10 then [('0' as int + n) as char] else Decimal(n / 10) + [('0' as int + n % 10) as char]
  }

  lemma {:induction false} DecimalRoundTrip(n: nat)
    ensures DecimalValue(Decimal(n)) == Some(n)
    ensures forall i :: 0 <= i < |Decimal(n)| ==> IsDigit(Decimal(n)[i])
    decreases n
  {
    var s := Decimal(n);
    if n < 10 {
      assert s[..0] == "";
    } else {
      DecimalRoundTrip(n / 10);
      assert s[..|s| - 1] == Decimal(n / 10);
    }
  }

  /** A reference that is sent, with spaces around it and behind whatever other lines, is read. */
  lemma ReferenceRead(body: seq<Line>, k: nat, left: string, right: string, n: nat)
    requires n < 256 && k < |body| && body[k].text == "+CMGS:" + (left + (Decimal(n) + right))
    requires forall i :: 0 <= i < k ==> !IsReferenceLine(body[i])
    requires forall i :: 0 <= i < |left| ==> IsSpace(left[i])
    requires forall i :: 0 <= i < |right| ==> IsSpace(right[i])
    ensures MessageReference(body) == n
  {
    hide TrimStart, TrimEnd, Decimal, DecimalValue, IsSpace;
    DecimalRoundTrip(n);
    assert IsReferenceLine(body[k]) && Position(body, IsReferenceLine) == k;
    assert body[k].text[6..] == left + (Decimal(n) + right);
    TrimmedStart(left, Decimal(n), right);
    TrimmedEnd(Decimal(n), right);
    assert IsDigit(Decimal(n)[0]);
  }

  /** Without such a line, or with a number that does not fit, the reference is 0. */
  lemma ReferenceMissing(body: seq<Line>)
    requires forall i :: 0 <= i < |body| ==> !IsReferenceLine(body[i])
    ensures MessageReference(body) == 0
  {}

  lemma ReferenceTooLarge(body: seq<Line>, k: nat, left: string, right: string, n: nat)
    requires n >= 256 && k < |body| && body[k].text == "+CMGS:" + (left + (Decimal(n) + right))
    requires forall i :: 0 <= i < k ==> !IsReferenceLine(body[i])
    requires forall i :: 0 <= i < |left| ==> IsSpace(left[i])
    requires forall i :: 0 <= i < |right| ==> IsSpace(right[i])
    ensures MessageReference(body) == 0
  {
    hide TrimStart, TrimEnd, Decimal, DecimalValue, IsSpace;
    DecimalRoundTrip(n);
    assert IsReferenceLine(body[k]) && Position(body, IsReferenceLine) == k;
    assert body[k].text[6..] == left + (Decimal(n) + right);
    TrimmedStart(left, Decimal(n), right);
    TrimmedEnd(Decimal(n), right);
    assert IsDigit(Decimal(n)[0]);
  }

  lemma DigitIsNoSpace(c: char)
    requires IsDigit(c)
    ensures !IsSpace(c)
  {}

  lemma {:induction false} TrimmedStart(left: string, core: string, right: string)
    requires forall i :: 0 <= i < |left| ==> IsSpace(left[i])
    requires core != "" && IsDigit(core[0])
    ensures TrimStart(left + (core + right)) == core + right
  {
    hide IsSpace, IsDigit;
    var s := left + (core + right);
    DigitIsNoSpace(core[0]);
    if left == "" {
      assert s == core + right && s[0] == core[0];
    } else {
      assert s[0] == left[0] && s[1..] == left[1..] + (core + right);
      TrimmedStart(left[1..], core, right);
    }
  }

  lemma {:induction false} TrimmedEnd(core: string, right: string)
    requires forall i :: 0 <= i < |right| ==> IsSpace(right[i])
    requires core != "" && IsDigit(core[|core| - 1])
    ensures TrimEnd(core + right) == core
  {
    hide IsSpace, IsDigit;
    var s := core + right;
    DigitIsNoSpace(core[|core| - 1]);
    if right == "" {
      assert s == core;
    } else {
      var n := |right| - 1;
      assert s[|s| - 1] == right[n] && s[..|s| - 1] == core + right[..n];
      TrimmedEnd(core, right[..n]);
    }
  }

  // ---- What the modem may send ----

  function IsReply(t: Line): bool { t.owner.ReplyTo? }

  function Replies(ws: seq<Line>): seq<Line> {
    Keep(ws, IsReply)
  }

  /** Unsolicited lines are no terminals and no probe answers. */
  ghost predicate CleanUrcs(ws: seq<Line>) {
    forall i :: 0 <= i < |ws| && ws[i].owner.Unsolicited? ==>
      !IsTerminal(ws[i].text) && !StartsWith(ws[i].text, "+CSQ:") && !StartsWith(ws[i].text, "+CMGF:")
  }

  /** At most the last line of a reply is a terminal. */
  ghost predicate EndsWithTerminal(rs: seq<Line>) {
    forall i :: 0 <= i < |rs| - 1 ==> !IsTerminal(rs[i].text)
  }

  ghost predicate Unmarked(rs: seq<Line>, marker: string) {
    forall i :: 0 <= i < |rs| ==> !StartsWith(rs[i].text, marker)
  }

  /** All of the reply belongs to command `n`. */
  ghost predicate OwnedBy(rs: seq<Line>, n: nat) {
    forall i :: 0 <= i < |rs| ==> rs[i].owner == ReplyTo(n)
  }

  /** In step: no reply is outstanding, or exactly the rest of the one that timed out. */
  ghost predicate InStep(c: Conn) {
    && CleanUrcs(c.wire)
    && if c.pending then EndsWithTerminal(Replies(c.wire)) && Unmarked(Replies(c.wire), Marker(c.cmgf))
       else Replies(c.wire) == []
  }

  // ---- Resynchronising consumes the old reply ----

  lemma RepliesStep(ws: seq<Line>)
    requires ws != []
    ensures Replies(ws) == (if IsReply(ws[0]) then [ws[0]] else []) + Replies(ws[1..])
  {}

  lemma TerminalIsPlain(s: string)
    requires IsTerminal(s)
    ensures !IsHexLine(s) && !IsHeader(s) && !IsUrc(s)
  {
    assert s[0] == 'O' || s[0] == 'E' || (s[0] == '+' && s[1] == 'C' && s[2] == 'M' && s[4] == ' ');
    assert !IsHexDigit(s[0]) || !IsHexDigit(s[1]);
  }

  lemma MarkerIsPlain(s: string)
    requires StartsWith(s, "+CSQ:") || StartsWith(s, "+CMGF:")
    ensures !IsHexLine(s) && !IsHeader(s) && !IsUrc(s)
  {
    assert s[0] == '+' && (s[2] == 'S' || s[3] == 'G');
    assert !IsHexDigit(s[0]);
  }

  lemma TerminalIsNoPart(p: Port, t: Line)
    requires IsTerminal(t.text) || StartsWith(t.text, "+CSQ:") || StartsWith(t.text, "+CMGF:")
    ensures RouteLine(p, t).1.NotPart? && !IsUrc(t.text)
  {
    hide IsTerminal, StartsWith, IsUrc, IsHexLine, IsHeader;
    if IsTerminal(t.text) { TerminalIsPlain(t.text); } else { MarkerIsPlain(t.text); }
  }

  lemma {:induction false} RepliesConcat(a: seq<Line>, b: seq<Line>)
    ensures Replies(a + b) == Replies(a) + Replies(b)
  {
    CountConcat(a, b, IsReply);
  }

  lemma CleanTail(ws: seq<Line>)
    requires CleanUrcs(ws) && ws != []
    ensures CleanUrcs(ws[1..])
  {
    hide IsTerminal, StartsWith;
  }

  lemma CleanConcat(a: seq<Line>, b: seq<Line>)
    requires CleanUrcs(a) && CleanUrcs(b)
    ensures CleanUrcs(a + b)
  {
    hide IsTerminal, StartsWith;
  }

  /** The reply loses its first line with the wire, or the line was unsolicited. */
  lemma ReplyTail(rs: seq<Line>, marker: string)
    requires rs != [] && EndsWithTerminal(rs) && Unmarked(rs, marker)
    ensures EndsWithTerminal(rs[1..]) && Unmarked(rs[1..], marker) && (IsTerminal(rs[0].text) ==> rs[1..] == [])
  {
    hide IsTerminal, StartsWith;
  }

  /** Waiting for the late terminal keeps step; giving up leaves the rest of the old reply. */
  lemma {:induction false} AwaitTerminalInStep(c: Conn, budget: nat)
    requires InStep(c) && c.pending
    ensures var d := AwaitTerminal(c, budget); InStep(d) && d.cmgf == c.cmgf
    decreases budget
  {
    hide CleanUrcs, EndsWithTerminal, Unmarked, Replies, IsTerminal, IsUrc, StartsWith, RouteLine, QueueUrc, IsReply;
    if budget > 0 && c.wire != [] {
      var t := c.wire[0];
      RepliesStep(c.wire);
      CleanTail(c.wire);
      CleanHead(c.wire);
      if IsReply(t) { ReplyTail(Replies(c.wire), Marker(c.cmgf)); ReplyHead(c.wire); }
      if IsTerminal(t.text) { TerminalIsNoPart(c.port, t); }
      assert [] + Replies(c.wire[1..]) == Replies(c.wire[1..]);
      var next := StaleLine(c.(wire := c.wire[1..]), t);
      assert InStep(next);
      if next.pending { AwaitTerminalInStep(next, budget - 1); } else { StopsWhenDone(next, budget - 1); }
    }
  }

  lemma StopsWhenDone(c: Conn, budget: nat)
    requires !c.pending
    ensures AwaitTerminal(c, budget) == c
  {}

  lemma ReplyHead(ws: seq<Line>)
    requires ws != [] && IsReply(ws[0])
    ensures Replies(ws) != [] && Replies(ws)[0] == ws[0] && Replies(ws)[1..] == Replies(ws[1..])
  {}

  lemma CleanHead(ws: seq<Line>)
    requires CleanUrcs(ws) && ws != []
    ensures IsTerminal(ws[0].text) || StartsWith(ws[0].text, "+CSQ:") || StartsWith(ws[0].text, "+CMGF:")
            ==> IsReply(ws[0])
  {}

  /** Old reply `a`, then the probe's answer `b`: once the marker was seen nothing of `a` is
      left, so the OK that follows ends `b`. */
  ghost predicate Probing(c: Conn, marker: string, saw: bool, a: seq<Line>, b: seq<Line>) {
    && CleanUrcs(c.wire) && Replies(c.wire) == a + b
    && EndsWithTerminal(b) && Unmarked(a, marker) && (saw ==> a == [])
  }

  lemma ProbeLineInStep(c: Conn, marker: string, saw: bool, a: seq<Line>, b: seq<Line>) returns (x: seq<Line>,
                        y: seq<Line>)
    requires Probing(c, marker, saw, a, b) && (marker == "+CSQ:" || marker == "+CMGF:") && c.wire != []
    ensures var (next, sawNow, done) := ProbeLine(c.(wire := c.wire[1..]), c.wire[0], marker, saw);
      if done then CleanUrcs(next.wire) && Replies(next.wire) == [] && !next.pending
      else Probing(next, marker, sawNow, x, y)
  {
    hide CleanUrcs, EndsWithTerminal, Unmarked, Replies, IsTerminal, IsUrc, StartsWith, RouteLine, QueueUrc, IsReply;
    var t := c.wire[0];
    x, y := a, b;
    RepliesStep(c.wire);
    CleanTail(c.wire);
    CleanHead(c.wire);
    OkIsTerminal();
    if IsTerminal(t.text) || StartsWith(t.text, marker) { TerminalIsNoPart(c.port, t); }
    if IsReply(t) {
      ReplyHead(c.wire);
      if a != [] {
        UnmarkedHead(a, marker);
        x := a[1..];
        assert (a + b)[0] == a[0] && (a + b)[1..] == x + b;
      } else {
        y := b[1..];
        assert a + b == b && a + y == y;
        EndsTail(b);
      }
    } else {
      assert [] + Replies(c.wire[1..]) == Replies(c.wire[1..]);
    }
  }

  lemma {:induction false} AwaitMarkerInStep(c: Conn, marker: string, saw: bool, budget: nat, a: seq<Line>,
                                             b: seq<Line>)
    requires Probing(c, marker, saw, a, b) && (marker == "+CSQ:" || marker == "+CMGF:")
    ensures var (d, ok) := AwaitMarker(c, marker, saw, budget);
      ok ==> CleanUrcs(d.wire) && Replies(d.wire) == [] && !d.pending
    decreases budget
  {
    hide Probing, ProbeLine, CleanUrcs, Replies;
    if budget > 0 && c.wire != [] {
      var x, y := ProbeLineInStep(c, marker, saw, a, b);
      var (next, sawNow, done) := ProbeLine(c.(wire := c.wire[1..]), c.wire[0], marker, saw);
      if !done { AwaitMarkerInStep(next, marker, sawNow, budget - 1, x, y); }
    }
  }

  lemma OkIsTerminal()
    ensures IsTerminal("OK")
  {}

  lemma UnmarkedHead(rs: seq<Line>, marker: string)
    requires rs != [] && Unmarked(rs, marker)
    ensures !StartsWith(rs[0].text, marker) && Unmarked(rs[1..], marker)
  {
    hide StartsWith;
  }

  lemma EndsTail(rs: seq<Line>)
    requires rs != [] && EndsWithTerminal(rs)
    ensures EndsWithTerminal(rs[1..]) && (IsTerminal(rs[0].text) ==> rs[1..] == [])
  {
    hide IsTerminal;
  }

  /** When resynchronising succeeds, nothing but unsolicited lines is left on the wire. */
  lemma ResyncInStep(c: Conn, answer: seq<Line>, budget: nat, probeReads: nat)
    requires InStep(c) && c.pending && CleanUrcs(answer) && EndsWithTerminal(Replies(answer))
    ensures var (d, ok) := Resync(c, answer, budget, probeReads); ok ==> InStep(d) && !d.pending
  {
    hide CleanUrcs, EndsWithTerminal, Unmarked, Replies, AwaitTerminal, AwaitMarker;
    AwaitTerminalInStep(c, budget);
    var waited := AwaitTerminal(c, budget);
    if waited.pending {
      CleanConcat(waited.wire, answer);
      RepliesConcat(waited.wire, answer);
      AwaitMarkerInStep(waited.(cmgf := !waited.cmgf, wire := waited.wire + answer), Marker(waited.cmgf), false,
                        probeReads,
                        Replies(waited.wire), Replies(answer));
    }
  }

  // ---- A command gets its own reply ----

  /** A line of reply `n`, or one that came unasked and that nothing tells from a reply line. */
  predicate OwnLine(t: Line, n: nat) {
    t.owner == ReplyTo(n) || (t.owner.Unsolicited? && !IsUrc(t.text))
  }

  ghost predicate BodyOf(body: seq<Line>, n: nat) {
    forall i :: 0 <= i < |body| ==> OwnLine(body[i], n)
  }

  /** What the modem may still send for command `n`: its own reply, ending in its only terminal,
      without the answer of the probe that would follow a timeout. */
  ghost predicate FairReply(ws: seq<Line>, n: nat, marker: string) {
    && CleanUrcs(ws) && EndsWithTerminal(Replies(ws)) && OwnedBy(Replies(ws), n)
    && Unmarked(Replies(ws), marker)
  }

  lemma FairTail(ws: seq<Line>, n: nat, marker: string)
    requires FairReply(ws, n, marker) && ws != []
    ensures FairReply(ws[1..], n, marker) && (IsReply(ws[0]) ==> ws[0].owner == ReplyTo(n))
    ensures IsTerminal(ws[0].text) ==> ws[0].owner == ReplyTo(n) && Replies(ws[1..]) == []
  {
    hide CleanUrcs, EndsWithTerminal, Unmarked, Replies, IsTerminal, StartsWith, OwnedBy;
    CleanTail(ws);
    CleanHead(ws);
    RepliesStep(ws);
    if IsReply(ws[0]) {
      ReplyHead(ws);
      OwnedTail(Replies(ws), n);
      ReplyTail(Replies(ws), marker);
    } else {
      assert [] + Replies(ws[1..]) == Replies(ws[1..]);
    }
  }

  lemma FairBehind(a: seq<Line>, b: seq<Line>, n: nat, marker: string)
    requires CleanUrcs(a) && Replies(a) == [] && FairReply(b, n, marker)
    ensures FairReply(a + b, n, marker)
  {
    hide CleanUrcs, EndsWithTerminal, Unmarked, Replies, OwnedBy;
    CleanConcat(a, b);
    RepliesConcat(a, b);
    assert [] + Replies(b) == Replies(b);
  }

  lemma OwnedTail(rs: seq<Line>, n: nat)
    requires OwnedBy(rs, n) && rs != []
    ensures rs[0].owner == ReplyTo(n) && OwnedBy(rs[1..], n)
  {}

  lemma BodyMore(body: seq<Line>, t: Line, n: nat)
    requires BodyOf(body, n) && OwnLine(t, n)
    ensures BodyOf(body + [t], n)
  {
    hide OwnLine;
  }

  /** What one collected line does. */
  function CollectLine(r: Reading, manner: Manner): Reading
    requires r.conn.wire != []
  {
    var t := r.conn.wire[0];
    var (p, how) := RouteLine(r.conn.port, t);
    var next := r.(conn := r.conn.(wire := r.conn.wire[1..], port := p));
    if how.NotPart? then BufferLine(next, manner, t) else next
  }

  lemma CollectLineKeeps(r: Reading, manner: Manner, n: nat)
    requires BodyOf(r.body, n) && r.conn.wire != [] && (IsReply(r.conn.wire[0]) ==> r.conn.wire[0].owner == ReplyTo(n))
    ensures var s := CollectLine(r, manner);
      BodyOf(s.body, n) && s.conn.pending == r.conn.pending && s.conn.wire == r.conn.wire[1..]
  {
    hide IsUrc, RouteLine, QueueUrc, Fits, BodyOf;
    var t := r.conn.wire[0];
    if !IsUrc(t.text) { BodyMore(r.body, t, n); }
  }

  /** The reply a command collects, body and terminal, is its own; nothing of it stays behind. */
  lemma {:induction false} CollectsOwn(r: Reading, n: nat, marker: string, manner: Manner, interruptible: bool,
                                       budget: nat)
    requires FairReply(r.conn.wire, n, marker) && BodyOf(r.body, n)
    ensures var (s, out) := CollectUntilOk(r, manner, interruptible, budget);
      && BodyOf(s.body, n) && FairReply(s.conn.wire, n, marker) && s.conn.pending == r.conn.pending
      && (out.Completed? ==>
            out.terminal.owner == ReplyTo(n) && IsTerminal(out.terminal.text) && Replies(s.conn.wire) == [])
    decreases budget
  {
    hide FairReply, Replies, IsTerminal, IsUrc, IsCall, RouteLine, QueueUrc, BufferLine, BodyOf;
    if budget > 0 && r.conn.wire != [] {
      var t := r.conn.wire[0];
      FairTail(r.conn.wire, n, marker);
      if IsTerminal(t.text) {
        TerminalIsNoPart(r.conn.port, t);
      } else {
        CollectLineKeeps(r, manner, n);
        CollectsOwn(CollectLine(r, manner), n, marker, manner, interruptible, budget - 1);
      }
    }
  }

  // ---- Whole commands, and any number of them ----

  lemma {:induction false} DrainInStep(c: Conn, budget: nat)
    requires InStep(c) && !c.pending
    ensures InStep(DrainLines(c, budget)) && !DrainLines(c, budget).pending
    decreases budget
  {
    hide CleanUrcs, IsTerminal, StartsWith, RouteLine, QueueUrc, Replies, EndsWithTerminal, Unmarked;
    if budget > 0 && c.wire != [] {
      CleanTail(c.wire);
      RepliesStep(c.wire);
      assert [] + Replies(c.wire[1..]) == Replies(c.wire[1..]);
      DrainInStep(DrainLine(c.(wire := c.wire[1..]), c.wire[0]), budget - 1);
    }
  }

  lemma PrepareInStep(c: Conn, answer: seq<Line>, w: Patience)
    requires InStep(c) && CleanUrcs(answer) && EndsWithTerminal(Replies(answer))
    ensures var (d, ok) := Prepare(c, answer, w); ok ==> InStep(d) && !d.pending
  {
    hide InStep, Resync, DrainLines, CleanUrcs, Replies, EndsWithTerminal;
    if c.pending { ResyncInStep(c, answer, w.terminal, w.probe); }
    var (synced, ok) := if c.pending then Resync(c, answer, w.terminal, w.probe) else (c, true);
    if ok { DrainInStep(synced, Min(w.drain, MAX_URC_DRAIN_LINES)); }
  }

  /** A probe's answer has one terminal, its last line. */
  ghost predicate FairAnswer(answer: seq<Line>) {
    CleanUrcs(answer) && EndsWithTerminal(Replies(answer))
  }

  ghost predicate FairStages(s: Stages, n: nat) {
    FairReply(s.before + s.after, n, "+CMGF:") && FairReply(s.before + s.aborted, n, "+CMGF:")
  }

  /** Nothing of another reply is in it, its end is its own, and the port is left in step. */
  ghost predicate OwnReply(r: (Reading, Outcome), n: nat) {
    && InStep(r.0.conn) && BodyOf(r.0.body, n)
    && (r.1.Completed? ==> r.1.terminal.owner == ReplyTo(n) && IsTerminal(r.1.terminal.text))
  }

  lemma NothingOf(n: nat)
    ensures BodyOf([], n)
  {}

  lemma FairWaits(c: Conn, n: nat)
    requires c.pending && FairReply(c.wire, n, Marker(c.cmgf))
    ensures InStep(c)
  {
    hide CleanUrcs, EndsWithTerminal, Unmarked, Replies, OwnedBy;
  }

  lemma FairIsClean(ws: seq<Line>, n: nat, marker: string)
    requires FairReply(ws, n, marker)
    ensures CleanUrcs(ws)
  {}

  lemma CollectOwn(c: Conn, cmd: string, n: nat, manner: Manner, interruptible: bool, budget: nat)
    requires !c.pending && FairReply(c.wire, n, Marker(cmd == "+CMGF?"))
    ensures OwnReply(Collect(c, cmd, manner, interruptible, budget), n)
  {
    hide FairReply, BodyOf, CollectUntilOk, Replies, CleanUrcs, IsTerminal, EndsWithTerminal, Unmarked;
    var marker := Marker(cmd == "+CMGF?");
    NothingOf(n);
    CollectsOwn(Reading(c, [], false), n, marker, manner, interruptible, budget);
    var (r, out) := CollectUntilOk(Reading(c, [], false), manner, interruptible, budget);
    FairIsClean(r.conn.wire, n, marker);
    if out.TimedOut? || out.Interrupted? { FairWaits(MarkTimedOut(r.conn, cmd), n); }
    CollectEnds(Reading(c, [], false), manner, interruptible, budget);
  }

  lemma {:induction false} CollectEnds(r: Reading, manner: Manner, interruptible: bool, budget: nat)
    ensures !Stops(CollectUntilOk(r, manner, interruptible, budget).1)
    decreases budget
  {
    hide IsTerminal, IsUrc, IsCall, RouteLine, QueueUrc, BufferLine;
    if budget > 0 && r.conn.wire != [] {
      CollectEnds(CollectLine(r, manner), manner, interruptible, budget - 1);
    }
  }

  /** A command that is not refused gets nothing but its own reply, whether it is kept or
      streamed, and leaves the port in step. */
  lemma SendAtOwn(c: Conn, cmd: string, n: nat, manner: Manner, reply: seq<Line>, answer: seq<Line>, w: Patience)
    requires InStep(c) && FairReply(reply, n, Marker(cmd == "+CMGF?")) && FairAnswer(answer)
    ensures var done := SendAt(c, cmd, manner, reply, answer, w); !Stops(done.1) ==> OwnReply(done, n)
  {
    hide Prepare, Collect, FairReply, CleanUrcs, Replies, EndsWithTerminal, OwnReply, Interruptible, StartsWith;
    PrepareInStep(c, answer, w);
    var (ready, ok) := Prepare(c, answer, w);
    if ok {
      FairBehind(ready.wire, reply, n, Marker(cmd == "+CMGF?"));
      CollectOwn(ready.(wire := ready.wire + reply), cmd, n, manner, Interruptible(cmd, manner), w.reply);
    }
  }

  /** Waiting for the prompt uses up what came before it. */
  lemma {:induction false} AwaitPromptFair(c: Conn, shown: bool, budget: nat, later: seq<Line>, n: nat, marker: string)
    requires FairReply(c.wire + later, n, marker)
    ensures var (d, prompt) := AwaitPrompt(c, shown, budget);
      && d.pending == c.pending && FairReply(d.wire + later, n, marker) && (prompt.Shown? ==> d.wire == [])
      && (prompt.Ended? ==>
            prompt.terminal.owner == ReplyTo(n) && IsTerminal(prompt.terminal.text) && Replies(d.wire + later) == [])
    decreases budget
  {
    hide FairReply, Replies, IsTerminal, RouteLine, QueueUrc;
    if budget > 0 && c.wire != [] {
      var t, rest := c.wire[0], c.(wire := c.wire[1..]);
      assert (c.wire + later)[0] == t && (c.wire + later)[1..] == rest.wire + later;
      FairTail(c.wire + later, n, marker);
      if !IsTerminal(t.text) { AwaitPromptFair(DrainLine(rest, t), shown, budget - 1, later, n, marker); }
    }
  }

  lemma EndedInStep(c: Conn, later: seq<Line>, n: nat, marker: string)
    requires !c.pending && FairReply(c.wire + later, n, marker) && Replies(c.wire + later) == []
    ensures InStep(c)
  {
    hide IsTerminal, StartsWith, EndsWithTerminal, Unmarked, OwnedBy, Replies;
    RepliesConcat(c.wire, later);
    forall i | 0 <= i < |c.wire| ensures (c.wire + later)[i] == c.wire[i] {}
  }

  /** The same of an outbound message, however far it comes: refused before the prompt, given
      up, timed out behind it, or complete. */
  lemma SendPduOwn(c: Conn, s: Stages, n: nat, answer: seq<Line>, w: Patience)
    requires InStep(c) && FairStages(s, n) && FairAnswer(answer)
    ensures var done := SendPdu(c, s, answer, w); !Stops(done.1) ==> OwnReply(done, n)
  {
    hide Prepare, Collect, AwaitPrompt, FairReply, CleanUrcs, Replies, EndsWithTerminal, IsTerminal, BodyOf, InStep;
    PrepareInStep(c, answer, w);
    var (ready, ok) := Prepare(c, answer, w);
    if ok {
      InStepQuiet(ready);
      var asking := ready.(wire := ready.wire + s.before);
      Associate(ready.wire, s.before, s.after);
      Associate(ready.wire, s.before, s.aborted);
      FairBehind(ready.wire, s.before + s.after, n, "+CMGF:");
      FairBehind(ready.wire, s.before + s.aborted, n, "+CMGF:");
      AwaitPromptFair(asking, s.shown, w.prompt, s.after, n, "+CMGF:");
      AwaitPromptFair(asking, s.shown, w.prompt, s.aborted, n, "+CMGF:");
      NothingOf(n);
      var (asked, prompt) := AwaitPrompt(asking, s.shown, w.prompt);
      match prompt {
        case Ended(t) => EndedInStep(asked, s.after, n, "+CMGF:");
        case Missed => FairWaits(MarkTimedOut(asked.(wire := asked.wire + s.aborted), "+CMGS"), n);
        case Shown =>
          assert [] + s.after == s.after;
          if s.written { CollectOwn(asked.(wire := s.after), "+CMGS", n, Buffered, false, w.reply); }
      }
    }
  }

  /** After a message that could not be written, the port is in step exactly when the modem
      sends no more of its reply: the failure does not mark it as outstanding. */
  lemma FailedWriteInStep(c: Conn, s: Stages, n: nat, answer: seq<Line>, w: Patience)
    requires InStep(c) && FairStages(s, n) && FairAnswer(answer)
    ensures var (r, out) := SendPdu(c, s, answer, w);
      out.WriteFailed? ==> (InStep(r.conn) <==> Replies(s.aborted) == [])
  {
    hide Prepare, Collect, AwaitPrompt, FairReply, CleanUrcs, Replies, EndsWithTerminal, Unmarked;
    PrepareInStep(c, answer, w);
    var (ready, ok) := Prepare(c, answer, w);
    if ok {
      var asking := ready.(wire := ready.wire + s.before);
      Associate(ready.wire, s.before, s.aborted);
      FairBehind(ready.wire, s.before + s.aborted, n, "+CMGF:");
      AwaitPromptFair(asking, s.shown, w.prompt, s.aborted, n, "+CMGF:");
      var (asked, prompt) := AwaitPrompt(asking, s.shown, w.prompt);
      if prompt.Shown? {
        assert [] + s.aborted == s.aborted;
        FairIsClean(s.aborted, n, "+CMGF:");
        CollectStops(asked.(wire := s.after), "+CMGS", Buffered, false, w.reply);
      }
    }
  }

  lemma CollectStops(c: Conn, cmd: string, manner: Manner, interruptible: bool, budget: nat)
    ensures !Stops(Collect(c, cmd, manner, interruptible, budget).1)
  {
    hide CollectUntilOk, MarkTimedOut;
    CollectEnds(Reading(c, [], false), manner, interruptible, budget);
  }

  lemma InStepQuiet(c: Conn)
    requires InStep(c) && !c.pending
    ensures CleanUrcs(c.wire) && Replies(c.wire) == []
  {}

  /** What the reading of a poll brings while no reply is due: lines until one is for the caller
      or completes a delivery. */
  function PollLines(c: Conn, budget: nat): (Conn, Option<string>)
    decreases budget
  {
    if budget == 0 || c.wire == [] then (c, None)
    else
      var (p, how) := RouteLine(c.port, c.wire[0]);
      var next := c.(wire := c.wire[1..], port := p);
      if how.NotPart? then (next, Some(c.wire[0].text))
      else if p.buf != [] then TakeFront(next)
      else PollLines(next, budget - 1)
  }

  function TakeFront(c: Conn): (Conn, Option<string>) {
    if c.port.buf == [] then (c, None)
    else (c.(port := c.port.(buf := c.port.buf[1..])), Some(c.port.buf[0]))
  }

  /** Between commands: a poll takes a queued line, or looks at the port for a moment.  `late`:
      the header waiting when the poll begins has expired. */
  function PollPort(c: Conn, late: bool, budget: nat): (Conn, Option<string>) {
    var now := if late then c.(port := DropHeader(c.port)) else c;
    if now.port.buf != [] then TakeFront(now)
    else if now.pending then TakeFront(AwaitTerminal(now, Min(budget, 1)))
    else PollLines(now, budget)
  }

  lemma {:induction false} PollLinesInStep(c: Conn, budget: nat)
    requires InStep(c) && !c.pending
    ensures InStep(PollLines(c, budget).0)
    decreases budget
  {
    hide CleanUrcs, IsTerminal, StartsWith, RouteLine, Replies, EndsWithTerminal, Unmarked;
    if budget > 0 && c.wire != [] {
      CleanTail(c.wire);
      RepliesStep(c.wire);
      assert [] + Replies(c.wire[1..]) == Replies(c.wire[1..]);
      var next := c.(wire := c.wire[1..], port := RouteLine(c.port, c.wire[0]).0);
      PollLinesInStep(next, budget - 1);
    }
  }

  lemma PollInStep(c: Conn, late: bool, budget: nat)
    requires InStep(c)
    ensures InStep(PollPort(c, late, budget).0)
  {
    hide CleanUrcs, IsTerminal, StartsWith, Replies, EndsWithTerminal, Unmarked, AwaitTerminal, PollLines;
    var now := if late then c.(port := DropHeader(c.port)) else c;
    if now.pending { AwaitTerminalInStep(now, Min(budget, 1)); } else { PollLinesInStep(now, budget); }
  }

  datatype Use =
    | Send(cmd: string, manner: Manner, reply: seq<Line>, answer: seq<Line>, patience: Patience)
    | Message(stages: Stages, answer: seq<Line>, patience: Patience)
    | PollOnce(late: bool, budget: nat)

  /** What a use that sends a command brings. */
  function Sent(c: Conn, u: Use): (Reading, Outcome)
    requires !u.PollOnce?
  {
    match u
    case Send(cmd, manner, reply, answer, w) => SendAt(c, cmd, manner, reply, answer, w)
    case Message(s, answer, w) => SendPdu(c, s, answer, w)
  }

  ghost predicate Fair(u: Use, n: nat) {
    match u
    case Send(cmd, _, reply, answer, _) => FairReply(reply, n, Marker(cmd == "+CMGF?")) && FairAnswer(answer)
    case Message(s, answer, _) => FairStages(s, n) && FairAnswer(answer)
    case PollOnce(_, _) => true
  }

  lemma SentOwn(c: Conn, u: Use, n: nat)
    requires InStep(c) && !u.PollOnce? && Fair(u, n)
    ensures !Stops(Sent(c, u).1) ==> OwnReply(Sent(c, u), n)
  {
    hide InStep, FairReply, FairStages, FairAnswer, OwnReply, SendAt, SendPdu;
    match u {
      case Send(cmd, manner, reply, answer, w) => SendAtOwn(c, cmd, n, manner, reply, answer, w);
      case Message(s, answer, w) => SendPduOwn(c, s, n, answer, w);
    }
  }

  /** Results of the commands in `uses`, up to the first that was not sent. */
  function Session(c: Conn, uses: seq<Use>): seq<(Reading, Outcome)>
    decreases |uses|
  {
    if uses == [] then []
    else if uses[0].PollOnce? then Session(PollPort(c, uses[0].late, uses[0].budget).0, uses[1..])
    else
      var done := Sent(c, uses[0]);
      [done] + if Stops(done.1) then [] else Session(done.0.conn, uses[1..])
  }

  /** The modem plays fair by every command, numbered from `n`. */
  ghost predicate FairSession(n: nat, uses: seq<Use>)
    decreases |uses|
  {
    uses == [] || (Fair(uses[0], n) && FairSession(if uses[0].PollOnce? then n else n + 1, uses[1..]))
  }

  ghost predicate AllOwn(results: seq<(Reading, Outcome)>, n: nat) {
    forall i :: 0 <= i < |results| && !Stops(results[i].1) ==> OwnReply(results[i], n + i)
  }

  /** Through any sequence of commands and polls, with timeouts and interrupted commands and
      the resynchronisations they cause, command number `n` is answered with reply `n` only. */
  lemma {:induction false} SessionOwn(c: Conn, n: nat, uses: seq<Use>)
    requires InStep(c) && FairSession(n, uses)
    ensures AllOwn(Session(c, uses), n)
    decreases |uses|
  {
    hide InStep, Fair, Sent, PollPort, BodyOf, IsTerminal, AllOwn;
    NoneOwn(n);
    if uses != [] {
      var u := uses[0];
      if u.PollOnce? {
        PollInStep(c, u.late, u.budget);
        SessionOwn(PollPort(c, u.late, u.budget).0, n, uses[1..]);
        assert Session(c, uses) == Session(PollPort(c, u.late, u.budget).0, uses[1..]);
      } else {
        SentOwn(c, u, n);
        var done := Sent(c, u);
        var rest := if Stops(done.1) then [] else Session(done.0.conn, uses[1..]);
        NoneOwn(n + 1);
        if !Stops(done.1) { SessionOwn(done.0.conn, n + 1, uses[1..]); }
        OwnBehind(done, rest, n);
      }
    }
  }

  lemma NoneOwn(n: nat)
    ensures AllOwn([], n)
  {}

  lemma OwnBehind(done: (Reading, Outcome), rest: seq<(Reading, Outcome)>, n: nat)
    requires !Stops(done.1) ==> OwnReply(done, n)
    requires AllOwn(rest, n + 1)
    ensures AllOwn([done] + rest, n)
  {
    hide OwnReply;
    var results := [done] + rest;
    forall i | 0 <= i < |results| && !Stops(results[i].1) ensures OwnReply(results[i], n + i) {
      if i > 0 { assert results[i] == rest[i - 1] && OwnReply(rest[i - 1], n + 1 + (i - 1)); }
    }
  }

  /** A probe that is given up at once. */
  lemma ProbeGivenUp(c: Conn, cmd: string, reply: seq<Line>, answer: seq<Line>)
    requires c.pending
    ensures SendAt(c, cmd, Buffered, reply, answer, Patience(0, 0, 0, 0, 0))
         == (Reading(c.(cmgf := !c.cmgf, wire := c.wire + answer), [], false), NotReady)
  {}

  /** The late terminal comes, and the command goes out. */
  lemma LateTerminal(c: Conn, rest: seq<Line>, budget: nat)
    requires c.pending && c.port.header.None? && c.wire == [Line(ReplyTo(0), "OK", false)] + rest
    ensures Prepare(c, [], Patience(1, 0, 0, 0, budget)) == (c.(pending := false, wire := rest), true)
  {
    OkIsTerminal();
    TerminalIsPlain("OK");
    PlainLine(c.port, c.wire[0]);
    assert c.wire[1..] == rest;
    hide RouteLine, IsUrc, IsHeader, DrainLine;
    assert StaleLine(c.(wire := rest), c.wire[0]) == c.(pending := false, wire := rest);
    StopsWhenDone(c.(pending := false, wire := rest), 0);
  }

  /** Two ordinary lines of whatever reply comes first. */
  lemma FirstReplyTaken(c: Conn, cmd: string, info: Line, done: Line, rest: seq<Line>)
    requires c.port.header.None? && c.wire == [info, done] + rest
    requires done.text == "OK" && !IsTerminal(info.text) && !IsHeader(info.text)
    ensures Collect(c, cmd, Buffered, false, 2).1 == Completed(done)
  {
    OkIsTerminal();
    TerminalIsPlain("OK");
    PlainLine(c.port, info);
    hide IsTerminal, IsUrc, IsHeader, RouteLine, QueueUrc, Fits, MarkTimedOut;
    var start := Reading(c, [], false);
    var next := CollectLine(start, Buffered);
    assert next.conn.wire == c.wire[1..] && next.conn.wire[0] == done;
    TerminalIsNoPart(next.conn.port, done);
    assert CollectUntilOk(next, Buffered, false, 1).1 == Completed(done);
    assert CollectUntilOk(start, Buffered, false, 2) == CollectUntilOk(next, Buffered, false, 1);
  }

  /** Why a session ends with its first refusal: the answer of a probe that was given up may
      still come, and then the next command can take it for its own. */
  lemma RefusedLosesStep() returns (c: Conn, first: (Reading, Outcome), second: (Reading, Outcome))
    ensures InStep(c)
    ensures var answer := [Line(ReplyTo(1), "+CMGF: 0", false), Line(ReplyTo(1), "OK", false)];
      var own := [Line(ReplyTo(2), "OK", false)];
      && FairAnswer(answer) && FairReply(own, 2, Marker(false))
      && first == SendAt(c, "+CSQ", Buffered, [], answer, Patience(0, 0, 0, 0, 0)) && first.1.NotReady?
      && second == SendAt(first.0.conn, "+CSQ", Buffered, own, [], Patience(1, 0, 0, 0, 2))
      && second.1 == Completed(Line(ReplyTo(1), "OK", false))
  {
    hide InStep, FairAnswer, FairReply, SendAt, Collect, Prepare;
    var late, info := Line(ReplyTo(0), "OK", false), Line(ReplyTo(1), "+CMGF: 0", false);
    var done, own := Line(ReplyTo(1), "OK", false), Line(ReplyTo(2), "OK", false);
    c := Conn(Port([], None, 0), true, false, [late]);
    first := SendAt(c, "+CSQ", Buffered, [], [info, done], Patience(0, 0, 0, 0, 0));
    second := SendAt(first.0.conn, "+CSQ", Buffered, [own], [], Patience(1, 0, 0, 0, 2));
    OneReply(late, 0, Marker(false));
    FairWaits(c, 0);
    OneReply(own, 2, Marker(false));
    FairProbeAnswer(info, done);
    ProbeGivenUp(c, "+CSQ", [], [info, done]);
    LateTerminal(first.0.conn, [info, done], 2);
    var ready := first.0.conn.(pending := false, wire := [info, done]);
    NotInterruptible();
    SentReady(first.0.conn, "+CSQ", [own], Patience(1, 0, 0, 0, 2), ready);
    NoTerminal(info.text);
    MarkerIsPlain(info.text);
    FirstReplyTaken(ready.(wire := [info, done] + [own]), "+CSQ", info, done, [own]);
  }

  lemma SentReady(c: Conn, cmd: string, reply: seq<Line>, w: Patience, ready: Conn)
    requires Prepare(c, [], w) == (ready, true)
    ensures SendAt(c, cmd, Buffered, reply, [], w)
         == Collect(ready.(wire := ready.wire + reply), cmd, Buffered, Interruptible(cmd, Buffered), w.reply)
  {
    hide Prepare, Collect, Interruptible;
  }

  lemma NotInterruptible()
    ensures !Interruptible("+CSQ", Buffered)
  {}

  lemma NoTerminal(s: string)
    requires s == "+CMGF: 0"
    ensures !IsTerminal(s) && StartsWith(s, "+CMGF:")
  {
    assert s[3] == 'G';
  }

  lemma FairProbeAnswer(info: Line, done: Line)
    requires info == Line(ReplyTo(1), "+CMGF: 0", false) && done == Line(ReplyTo(1), "OK", false)
    ensures FairAnswer([info, done])
  {
    NoTerminal(info.text);
    RepliesStep([info, done]);
    RepliesStep([done]);
    assert [info, done][1..] == [done] && [done][1..] == [];
    assert Replies([info, done]) == [info, done];
  }

  lemma OneReply(t: Line, n: nat, marker: string)
    requires t.owner == ReplyTo(n) && t.text == "OK" && (marker == "+CMGF:" || marker == "+CSQ:")
    ensures FairReply([t], n, marker)
  {
    RepliesStep([t]);
    assert [t][1..] == [] && Replies([]) == [] && Replies([t]) == [t];
  }

  lemma PlainLine(p: Port, t: Line)
    requires p.header.None? && !IsHeader(t.text)
    ensures RouteLine(p, t) == (p, NotPart)
  {}

  // ---- When every unsolicited line is known ----

  /** Every unsolicited line is recognised as such, or is the body of a +CMT header that is
      still waiting when it comes. */
  ghost predicate Recognised(waiting: bool, ws: seq<Line>)
    decreases |ws|
  {
    ws == [] ||
    var t, held := ws[0], waiting && !ws[0].late;
    if IsHeader(t.text) then Recognised(true, ws[1..])
    else if held && IsHexLine(t.text) then Recognised(false, ws[1..])
    else (t.owner.Unsolicited? ==> IsUrc(t.text)) && Recognised(held, ws[1..])
  }

  /** Reading never invents or drops the waiting header except as `Recognised` follows it. */
  lemma RoutedHeader(p: Port, t: Line)
    ensures var (q, how) := RouteLine(p, t);
      && q.header.Some? == (IsHeader(t.text) || (p.header.Some? && !t.late && !IsHexLine(t.text)))
      && how.NotPart? == !(IsHeader(t.text) || (p.header.Some? && !t.late && IsHexLine(t.text)))
  {
    hide Reserve, IsHeader, IsHexLine;
    ReserveHeader(p.(header := None), 2);
  }

  lemma {:induction false} ReserveHeader(p: Port, slots: nat)
    requires slots <= MAX_URC_BUF
    ensures Reserve(p, slots).0.header == p.header
    decreases |p.buf|
  {
    hide RemoveAt, IsCgev, IsCmti;
    if |p.buf| + slots > MAX_URC_BUF {
      var i, k := Position(p.buf, IsCgev), Position(p.buf, IsCmti);
      if i < |p.buf| {
        RemoveSize(p.buf, i);
        ReserveHeader(p.(buf := RemoveAt(p.buf, i)), slots);
      } else if k < |p.buf| {
        RemoveSize(p.buf, k);
        ReserveHeader(p.(buf := RemoveAt(p.buf, k), lost := p.lost + 1), slots);
      }
    }
  }

  lemma QueueHeader(p: Port, line: string)
    ensures QueueUrc(p, line).header == p.header
  {
    hide Reserve;
    ReserveHeader(p, 1);
  }

  lemma RecognisedStep(p: Port, ws: seq<Line>)
    requires ws != [] && Recognised(p.header.Some?, ws)
    ensures var (q, how) := RouteLine(p, ws[0]);
      Recognised(q.header.Some?, ws[1..]) && (how.NotPart? && ws[0].owner.Unsolicited? ==> IsUrc(ws[0].text))
  {
    RoutedHeader(p, ws[0]);
    hide IsHeader, IsHexLine, IsUrc, RouteLine;
    var (q, how) := RouteLine(p, ws[0]);
    if !IsHeader(ws[0].text) { assert q.header.Some? == (p.header.Some? && !ws[0].late && !IsHexLine(ws[0].text)); }
  }

  ghost predicate OnlyReplies(body: seq<Line>) {
    forall i :: 0 <= i < |body| ==> IsReply(body[i])
  }

  lemma {:induction false} CollectsReplies(r: Reading, manner: Manner, interruptible: bool, budget: nat)
    requires Recognised(r.conn.port.header.Some?, r.conn.wire) && OnlyReplies(r.body)
    ensures OnlyReplies(CollectUntilOk(r, manner, interruptible, budget).0.body)
    decreases budget
  {
    hide IsTerminal, IsUrc, IsCall, RouteLine, QueueUrc, Recognised, Fits;
    if budget > 0 && r.conn.wire != [] {
      var t := r.conn.wire[0];
      RecognisedStep(r.conn.port, r.conn.wire);
      QueueHeader(RouteLine(r.conn.port, t).0, t.text);
      CollectsReplies(CollectLine(r, manner), manner, interruptible, budget - 1);
    }
  }

  /** The port knows every unsolicited line that comes while the use's reply is collected. */
  ghost predicate Known(c: Conn, u: Use) {
    match u
    case Send(_, _, reply, answer, w) =>
      var ready := Prepare(c, answer, w).0;
      Recognised(ready.port.header.Some?, ready.wire + reply)
    case Message(s, answer, w) =>
      var ready := Prepare(c, answer, w).0;
      var asked := AwaitPrompt(ready.(wire := ready.wire + s.before), s.shown, w.prompt).0;
      Recognised(asked.port.header.Some?, s.after)
    case PollOnce(_, _) => true
  }

  lemma SentReplies(c: Conn, u: Use)
    requires !u.PollOnce? && Known(c, u)
    ensures OnlyReplies(Sent(c, u).0.body)
  {
    hide Prepare, AwaitPrompt, CollectUntilOk, Recognised;
    match u {
      case Send(cmd, manner, reply, answer, w) =>
        var ready := Prepare(c, answer, w).0;
        CollectsReplies(Reading(ready.(wire := ready.wire + reply), [], false), manner,
                         Interruptible(cmd, manner), w.reply);
      case Message(s, answer, w) =>
        var ready := Prepare(c, answer, w).0;
        var asked := AwaitPrompt(ready.(wire := ready.wire + s.before), s.shown, w.prompt).0;
        CollectsReplies(Reading(asked.(wire := s.after), [], false), Buffered, false, w.reply);
    }
  }

  ghost predicate KnownSession(c: Conn, uses: seq<Use>)
    decreases |uses|
  {
    uses == [] ||
    if uses[0].PollOnce? then KnownSession(PollPort(c, uses[0].late, uses[0].budget).0, uses[1..])
    else Known(c, uses[0]) && (Stops(Sent(c, uses[0]).1) || KnownSession(Sent(c, uses[0]).0.conn, uses[1..]))
  }

  lemma {:induction false} SessionReplies(c: Conn, uses: seq<Use>)
    requires KnownSession(c, uses)
    ensures forall i :: 0 <= i < |Session(c, uses)| ==> OnlyReplies(Session(c, uses)[i].0.body)
    decreases |uses|
  {
    hide Sent, PollPort, OnlyReplies, Known;
    if uses != [] {
      if uses[0].PollOnce? {
        SessionReplies(PollPort(c, uses[0].late, uses[0].budget).0, uses[1..]);
      } else {
        SentReplies(c, uses[0]);
        var done := Sent(c, uses[0]);
        if !Stops(done.1) { SessionReplies(done.0.conn, uses[1..]); }
      }
    }
  }

  /** If the port knows every unsolicited line it meets, a body is nothing but its own reply. */
  lemma SessionOwnOnly(c: Conn, n: nat, uses: seq<Use>)
    requires InStep(c) && FairSession(n, uses) && KnownSession(c, uses)
    ensures var results := Session(c, uses);
      forall i :: 0 <= i < |results| && !Stops(results[i].1) ==> OwnedBy(results[i].0.body, n + i)
  {
    hide InStep, FairSession, KnownSession, Session;
    SessionOwn(c, n, uses);
    SessionReplies(c, uses);
  }

  // ---- Nothing is lost of an ordinary reply ----

  lemma {:induction false} TextGrows(body: seq<Line>, lines: seq<Line>)
    ensures TextLen(body) <= TextLen(body + lines)
    decreases |lines|
  {
    if lines == [] {
      assert body + lines == body;
    } else {
      var n := |lines| - 1;
      assert (body + lines)[..|body| + n] == body + lines[..n];
      TextGrows(body, lines[..n]);
    }
  }

  /** How a reply mixed with other traffic should come: header and body lines of deliveries and
      lines the port knows are unsolicited, all others are the reply's, none is a terminal and
      none a call that would interrupt. */
  ghost predicate Orderly(waiting: bool, ws: seq<Line>, interruptible: bool)
    decreases |ws|
  {
    ws == [] ||
    var t, held := ws[0], waiting && !ws[0].late;
    && !IsTerminal(t.text) && !(interruptible && IsCall(t.text))
    && if IsHeader(t.text) then !IsReply(t) && Orderly(true, ws[1..], interruptible)
       else if held && IsHexLine(t.text) then !IsReply(t) && Orderly(false, ws[1..], interruptible)
       else IsReply(t) == !IsUrc(t.text) && Orderly(held, ws[1..], interruptible)
  }

  function HearLine(p: Port, t: Line): Port {
    var (q, how) := RouteLine(p, t);
    if how.NotPart? && IsUrc(t.text) then QueueUrc(q, t.text) else q
  }

  /** The port after hearing some lines: deliveries paired, known lines queued. */
  function Hear(p: Port, ws: seq<Line>): Port
    decreases |ws|
  {
    if ws == [] then p else Hear(HearLine(p, ws[0]), ws[1..])
  }

  predicate Within(body: seq<Line>) {
    |body| <= MAX_BODY_LINES && TextLen(body) <= MAX_BODY_BYTES
  }

  lemma OneMore(body: seq<Line>, t: Line)
    ensures Within(body + [t]) == (|body| < MAX_BODY_LINES && TextLen(body + [t]) <= MAX_BODY_BYTES)
    ensures TextLen(body + [t]) == TextLen(body) + (if TextLen(body) > 0 then 1 else 0) + ByteLen(t.text)
  {
    assert (body + [t])[..|body|] == body;
  }

  lemma WithinGrows(body: seq<Line>, lines: seq<Line>)
    requires Within(body + lines)
    ensures Within(body)
  {
    TextGrows(body, lines);
  }

  lemma OrderlyStep(p: Port, ws: seq<Line>, interruptible: bool)
    requires ws != [] && Orderly(p.header.Some?, ws, interruptible)
    ensures var (q, how) := RouteLine(p, ws[0]);
      && !IsTerminal(ws[0].text) && !(interruptible && IsCall(ws[0].text))
      && IsReply(ws[0]) == (how.NotPart? && !IsUrc(ws[0].text))
      && Orderly(q.header.Some?, ws[1..], interruptible)
  {
    RoutedHeader(p, ws[0]);
    hide IsHeader, IsHexLine, IsUrc, IsCall, IsTerminal, RouteLine;
    var (q, how) := RouteLine(p, ws[0]);
    if !IsHeader(ws[0].text) { assert q.header.Some? == (p.header.Some? && !ws[0].late && !IsHexLine(ws[0].text)); }
  }

  /** A reply is collected whole and in order up to its terminal and no further, and the traffic
      between its lines goes to the queue as if there were no reply; it is reported as too long
      exactly when it exceeds a limit. */
  lemma {:induction false} ReplyCollected(r: Reading, lines: seq<Line>, terminal: Line, rest: seq<Line>,
                                          manner: Manner, interruptible: bool, budget: nat)
    requires r.conn.wire == lines + ([terminal] + rest) && budget > |lines| && IsTerminal(terminal.text)
    requires Orderly(r.conn.port.header.Some?, lines, interruptible)
    requires manner.Streamed? || Within(r.body)
    ensures var (s, out) := CollectUntilOk(r, manner, interruptible, budget);
      var whole := r.body + Replies(lines);
      && out == Completed(terminal)
      && s.conn == r.conn.(wire := rest, port := Hear(r.conn.port, lines + [terminal]))
      && s.truncated == (r.truncated || (manner.Buffered? && !Within(whole)))
      && (manner.Streamed? || !s.truncated ==> s.body == whole)
    decreases |lines|
  {
    hide IsTerminal, IsUrc, IsCall, RouteLine, TextLen, QueueUrc, Replies, Orderly, IsReply, Within, BufferLine;
    if lines == [] {
      assert lines + ([terminal] + rest) == [terminal] + rest && lines + [terminal] == [terminal];
      assert ([terminal] + rest)[1..] == rest && r.body + Replies(lines) == r.body by { RepliesNone(r.body); }
      TerminalIsNoPart(r.conn.port, terminal);
      HearTerminal(r.conn.port, terminal);
    } else {
      var t, more := lines[0], lines[1..];
      assert r.conn.wire[0] == t && r.conn.wire[1..] == more + ([terminal] + rest);
      OrderlyStep(r.conn.port, lines, interruptible);
      LineCollected(r, lines, manner);
      assert (lines + [terminal])[1..] == more + [terminal];
      HearStep(r.conn.port, lines + [terminal]);
      ReplyCollected(CollectLine(r, manner), more, terminal, rest, manner, interruptible, budget - 1);
    }
  }

  lemma RepliesNone(body: seq<Line>)
    ensures body + Replies([]) == body
  {}

  /** One line of it. */
  lemma LineCollected(r: Reading, lines: seq<Line>, manner: Manner)
    requires lines != [] && r.conn.wire != [] && r.conn.wire[0] == lines[0]
    requires IsReply(lines[0]) == (RouteLine(r.conn.port, lines[0]).1.NotPart? && !IsUrc(lines[0].text))
    requires manner.Streamed? || Within(r.body)
    ensures var (next, p) := (CollectLine(r, manner), RouteLine(r.conn.port, lines[0]).0);
      var whole := r.body + Replies(lines);
      && (manner.Streamed? || Within(next.body))
      && next.conn.port.header.Some? == p.header.Some?
      && next.conn == r.conn.(wire := r.conn.wire[1..], port := HearLine(r.conn.port, lines[0]))
      && (next.truncated || next.body + Replies(lines[1..]) == whole)
      && (manner.Streamed? ==> next.truncated == r.truncated && next.body + Replies(lines[1..]) == whole)
      && (manner.Buffered? && next.truncated ==> r.truncated || !Within(whole))
      && (r.truncated ==> next.truncated)
  {
    hide IsUrc, RouteLine, TextLen, QueueUrc, Replies, Within, IsReply;
    var t, p := lines[0], RouteLine(r.conn.port, lines[0]).0;
    RepliesStep(lines);
    QueueHeader(p, t.text);
    Associate(r.body, [t], Replies(lines[1..]));
    assert [] + Replies(lines[1..]) == Replies(lines[1..]);
    OneMore(r.body, t);
    if IsReply(t) && Within((r.body + [t]) + Replies(lines[1..])) { WithinGrows(r.body + [t], Replies(lines[1..])); }
  }

  lemma HearStep(p: Port, ws: seq<Line>)
    requires ws != []
    ensures Hear(p, ws) == Hear(HearLine(p, ws[0]), ws[1..])
  {}

  lemma HearTerminal(p: Port, t: Line)
    requires IsTerminal(t.text)
    ensures Hear(p, [t]) == RouteLine(p, t).0
  {
    hide RouteLine, IsTerminal, IsUrc;
    TerminalIsNoPart(p, t);
    assert [t][1..] == [];
  }
}
