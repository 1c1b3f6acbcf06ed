/** Lines assembled from single UART bytes.  Bytes become characters of the same number, and a
    line is measured in UTF-8, where those from 0x80 up take two bytes. */
module LineAssembler {
  import opened Common

  const MAX_LINE_LEN: nat := 1024
  const LF: Byte := 10
  const CR: Byte := 13

  function Width(c: Byte): nat {
    if c < 0x80 then 1 else 2
  }

  /** `length` is the UTF-8 length of the partial line. */
  datatype Assembly = Assembly(partial: string, length: nat, discarding: bool)

  const EMPTY: Assembly := Assembly("", 0, false)

  datatype Effect = Nothing | Finished(line: string) | Overflowed

  function Consume(a: Assembly, c: Byte): (Assembly, Effect) {
    if c == LF then
      (if a.discarding then (a.(discarding := false), Nothing) else (EMPTY, Finished(a.partial)))
    else if c == CR || a.discarding then (a, Nothing)
    else if a.length + Width(c) > MAX_LINE_LEN then (Assembly("", 0, true), Overflowed)
    else (a.(partial := a.partial + [c as char], length := a.length + Width(c)), Nothing)
  }

  function ConsumeAll(a: Assembly, bytes: seq<Byte>): (Assembly, seq<Effect>)
    decreases |bytes|
  {
    if bytes == [] then (a, [])
    else
      var (next, e) := Consume(a, bytes[0]);
      var (end, es) := ConsumeAll(next, bytes[1..]);
      (end, [e] + es)
  }

  /** The text of a line and its length, carriage returns left out. */
  function LineText(bytes: seq<Byte>): string {
    if bytes == [] then ""
    else (if bytes[0] == CR then "" else [bytes[0] as char]) + LineText(bytes[1..])
  }

  function LineLen(bytes: seq<Byte>): nat {
    if bytes == [] then 0 else (if bytes[0] == CR then 0 else Width(bytes[0])) + LineLen(bytes[1..])
  }

  ghost predicate AllNothing(es: seq<Effect>) {
    forall i :: 0 <= i < |es| ==> es[i] == Nothing
  }

  /** Nothing comes of the bytes but the one overflow at `k`. */
  ghost predicate OverflowsOnceAt(es: seq<Effect>, k: nat) {
    k < |es| && es[k] == Overflowed && forall i :: 0 <= i < |es| && i != k ==> es[i] == Nothing
  }

  lemma {:induction false} ConsumeDiscarding(bytes: seq<Byte>)
    requires LF !in bytes
    ensures ConsumeAll(Assembly("", 0, true), bytes).0 == Assembly("", 0, true)
    ensures AllNothing(ConsumeAll(Assembly("", 0, true), bytes).1)
    decreases |bytes|
  {
    if bytes != [] { ConsumeDiscarding(bytes[1..]); }
  }

  /** A stretch without newline either fits and is kept, or overflows exactly once. */
  lemma {:induction false} ConsumeStretch(a: Assembly, bytes: seq<Byte>)
    requires LF !in bytes && !a.discarding && a.length <= MAX_LINE_LEN
    ensures var (end, es) := ConsumeAll(a, bytes);
      && |es| == |bytes|
      && if a.length + LineLen(bytes) <= MAX_LINE_LEN then
           AllNothing(es) && end == Assembly(a.partial + LineText(bytes), a.length + LineLen(bytes), false)
         else (exists k :: OverflowsOnceAt(es, k)) && end == Assembly("", 0, true)
    decreases |bytes|
  {
    if bytes == [] {
      assert a.partial + "" == a.partial;
    } else {
      var c := bytes[0];
      var (next, e) := Consume(a, c);
      var (end, es) := ConsumeAll(next, bytes[1..]);
      if next.discarding {
        ConsumeDiscarding(bytes[1..]);
        ConsumedCount(next, bytes[1..]);
        assert OverflowsOnceAt([e] + es, 0);
      } else {
        ConsumeStretch(next, bytes[1..]);
        if c != CR {
          Associate(a.partial, [c as char], LineText(bytes[1..]));
        } else {
          assert "" + LineText(bytes[1..]) == LineText(bytes[1..]);
        }
        if a.length + LineLen(bytes) > MAX_LINE_LEN {
          var k: nat :| OverflowsOnceAt(es, k);
          assert OverflowsOnceAt([e] + es, k + 1);
        }
      }
    }
  }

  lemma {:induction false} ConsumedCount(a: Assembly, bytes: seq<Byte>)
    ensures |ConsumeAll(a, bytes).1| == |bytes|
    decreases |bytes|
  {
    if bytes != [] { ConsumedCount(Consume(a, bytes[0]).0, bytes[1..]); }
  }

  lemma {:induction false} ConsumeConcat(a: Assembly, x: seq<Byte>, y: seq<Byte>)
    ensures var (mid, es) := ConsumeAll(a, x);
      var (end, fs) := ConsumeAll(mid, y);
      ConsumeAll(a, x + y) == (end, es + fs)
    decreases |x|
  {
    if x == [] {
      assert x + y == y && [] + ConsumeAll(a, y).1 == ConsumeAll(a, y).1;
    } else {
      assert (x + y)[1..] == x[1..] + y;
      var (next, e) := Consume(a, x[0]);
      ConsumeConcat(next, x[1..], y);
      var (mid, es) := ConsumeAll(next, x[1..]);
      var fs := ConsumeAll(mid, y).1;
      assert [e] + (es + fs) == ([e] + es) + fs;
    }
  }

  /** A whole line, from a fresh start: delivered once, at its newline, if it is at most 1024
      bytes; otherwise it overflows exactly once and is dropped.  Either way the next line
      starts afresh. */
  lemma LineDelivered(bytes: seq<Byte>)
    requires LF !in bytes
    ensures var (end, es) := ConsumeAll(EMPTY, bytes + [LF]);
      && end == EMPTY && |es| == |bytes| + 1
      && if LineLen(bytes) <= MAX_LINE_LEN then AllNothing(es[..|bytes|]) && es[|bytes|] == Finished(LineText(bytes))
         else (exists k :: OverflowsOnceAt(es[..|bytes|], k)) && es[|bytes|] == Nothing
  {
    ConsumeStretch(EMPTY, bytes);
    ConsumeConcat(EMPTY, bytes, [LF]);
    assert "" + LineText(bytes) == LineText(bytes);
    var (mid, es) := ConsumeAll(EMPTY, bytes);
    var (end, fs) := ConsumeAll(mid, [LF]);
    assert [LF][1..] == [];
    assert (es + fs)[..|bytes|] == es;
  }

  class Assembler {
    var partial: string
    var length: nat
    var discarding: bool
    var overlongLines: nat

    ghost function View(): Assembly
      reads this
    {
      Assembly(partial, length, discarding)
    }

    constructor ()
      ensures View() == EMPTY && overlongLines == 0
    {
      partial, length, discarding, overlongLines := "", 0, false, 0;
    }

    method ConsumeLineByte(c: Byte) returns (e: Effect)
      modifies this
      ensures (View(), e) == Consume(old(View()), c)
      ensures overlongLines == if e.Overflowed? then Min(old(overlongLines) + 1, 0xFFFF_FFFF) else old(overlongLines)
    {
      if c == LF {
        if discarding {
          discarding := false;
          return Nothing;
        }
        e := Finished(partial);
        partial, length := "", 0;
        return;
      }
      if c == CR || discarding {
        return Nothing;
      }
      if length + Width(c) > MAX_LINE_LEN {
        partial, length, discarding := "", 0, true;
        overlongLines := Min(overlongLines + 1, 0xFFFF_FFFF);
        return Overflowed;
      }
      partial, length := partial + [c as char], length + Width(c);
      return Nothing;
    }
  }
}
