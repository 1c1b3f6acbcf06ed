/** How many parts a body needs: the counter fills parts greedily, character by character. */
module PartCount {
  import opened Common
  import opened UserData
  import Gsm7
  import Septets
  import Ucs2
  import Message

  /** Parts begun after the current one, which holds `used` of `capacity`. */
  function Further(ws: seq<nat>, used: nat, capacity: nat): nat {
    if ws == [] then 0
    else if used + ws[0] > capacity then 1 + Further(ws[1..], ws[0], capacity)
    else Further(ws[1..], used + ws[0], capacity)
  }

  function Sum(ws: seq<nat>): nat {
    if ws == [] then 0 else ws[0] + Sum(ws[1..])
  }

  function Septets7(body: string): (ws: seq<nat>)
    ensures |ws| == |body|
  {
    seq(|body|, i requires 0 <= i < |body| => |Gsm7.EncodeChar(body[i])|)
  }

  function Units16(body: string): (ws: seq<nat>)
    ensures |ws| == |body|
  {
    seq(|body|, i requires 0 <= i < |body| => Ucs2.CharUnits(body[i]))
  }

  function CountGsm7(body: string): Option<nat> {
    if exists i :: 0 <= i < |body| && Septets7(body)[i] == 0 then None
    else if Sum(Septets7(body)) <= 160 then Some(1)
    else Some(1 + Further(Septets7(body), 0, 153))
  }

  function CountUcs2(body: string): nat {
    if Sum(Units16(body)) <= 70 then 1 else 1 + Further(Units16(body), 0, 67)
  }

  /** Parts `body` needs, 0 when that is none or too many. */
  function CountParts(body: string, maxParts: nat): nat {
    if body == [] then 0
    else
      var n := match CountGsm7(body) case Some(n) => n case None => CountUcs2(body);
      if n <= maxParts then n else 0
  }

  method CountGsm7Parts(body: string) returns (r: Option<nat>)
    ensures r == CountGsm7(body)
  {
    hide Gsm7.EncodeChar;
    var total := 0;
    for i := 0 to |body|
      invariant forall j :: 0 <= j < i ==> Septets7(body)[j] != 0
      invariant total + Sum(Septets7(body)[i..]) == Sum(Septets7(body))
    {
      var septets := |Gsm7.EncodeChar(body[i])|;
      assert Septets7(body)[i] == septets;
      if septets == 0 {
        return None;
      }
      SumStep(Septets7(body), i);
      total := total + septets;
    }
    if total <= 160 {
      return Some(1);
    }
    var parts := FillParts(Septets7(body), 153);
    return Some(parts);
  }

  /** The counting loop. */
  method FillParts(ws: seq<nat>, capacity: nat) returns (parts: nat)
    ensures parts == 1 + Further(ws, 0, capacity)
  {
    parts := 1;
    var used: nat := 0;
    for i := 0 to |ws|
      invariant parts + Further(ws[i..], used, capacity) == 1 + Further(ws, 0, capacity)
    {
      assert ws[i..][1..] == ws[i + 1..];
      if used + ws[i] > capacity {
        parts := parts + 1;
        used := 0;
      }
      used := used + ws[i];
    }
  }

  lemma SumStep(ws: seq<nat>, i: nat)
    requires i < |ws|
    ensures Sum(ws[i..]) == ws[i] + Sum(ws[i + 1..])
  {
    assert ws[i..][1..] == ws[i + 1..];
  }

  method CountUcs2Parts(body: string) returns (parts: nat)
    ensures parts == CountUcs2(body)
  {
    var total := 0;
    for i := 0 to |body|
      invariant total + Sum(Units16(body)[i..]) == Sum(Units16(body))
    {
      SumStep(Units16(body), i);
      total := total + Ucs2.CharUnits(body[i]);
    }
    if total <= 70 {
      return 1;
    }
    parts := FillParts(Units16(body), 67);
  }

  method CountSmsParts(body: string, maxParts: nat) returns (parts: nat)
    ensures parts == CountParts(body, maxParts)
  {
    if body == [] {
      return 0;
    }
    var gsm7 := CountGsm7Parts(body);
    if gsm7.Some? {
      return if gsm7.value <= maxParts then gsm7.value else 0;
    }
    parts := CountUcs2Parts(body);
    if parts > maxParts {
      parts := 0;
    }
  }

  // ---- Greedy is optimal ----

  /** Starting fuller costs at most one more part, and never saves one. */
  lemma {:induction false} FullerCostsAtMostOne(ws: seq<nat>, a: nat, b: nat, capacity: nat)
    requires a <= b && forall i :: 0 <= i < |ws| ==> ws[i] <= capacity
    ensures Further(ws, a, capacity) <= Further(ws, b, capacity) <= Further(ws, a, capacity) + 1
    decreases |ws|
  {
    if ws != [] {
      if b + ws[0] <= capacity {
        FullerCostsAtMostOne(ws[1..], a + ws[0], b + ws[0], capacity);
      } else if a + ws[0] <= capacity {
        FullerCostsAtMostOne(ws[1..], ws[0], a + ws[0], capacity);
      }
    }
  }

  /** What fits is added without opening a part. */
  lemma {:induction false} FitsInOne(a: seq<nat>, b: seq<nat>, used: nat, capacity: nat)
    requires used + Sum(a) <= capacity
    ensures Further(a + b, used, capacity) == Further(b, used + Sum(a), capacity)
    decreases |a|
  {
    if a == [] {
      assert a + b == b;
    } else {
      assert (a + b)[1..] == a[1..] + b;
      FitsInOne(a[1..], b, used + a[0], capacity);
    }
  }

  /** No division into pieces that fit the capacity uses fewer parts than the greedy one. */
  lemma {:induction false} GreedyIsLeast(pieces: seq<seq<nat>>, capacity: nat)
    requires pieces != [] && forall i :: 0 <= i < |pieces| ==> Sum(pieces[i]) <= capacity
    requires forall j :: 0 <= j < |Flatten(pieces)| ==> Flatten(pieces)[j] <= capacity
    ensures 1 + Further(Flatten(pieces), 0, capacity) <= |pieces|
    decreases |pieces|
  {
    var first, rest := pieces[0], Flatten(pieces[1..]);
    FitsInOne(first, rest, 0, capacity);
    if |pieces| == 1 {
      assert rest == [];
    } else {
      forall j | 0 <= j < |rest| ensures rest[j] <= capacity {
        assert Flatten(pieces)[|first| + j] == rest[j];
      }
      FullerCostsAtMostOne(rest, 0, Sum(first), capacity);
      GreedyIsLeast(pieces[1..], capacity);
    }
  }

  /** The greedy pieces themselves, the current part beginning with `open`. */
  function Greedy(ws: seq<nat>, open: seq<nat>, capacity: nat): (pieces: seq<seq<nat>>)
    ensures pieces != []
  {
    if ws == [] then [open]
    else if Sum(open) + ws[0] > capacity then [open] + Greedy(ws[1..], [ws[0]], capacity)
    else Greedy(ws[1..], open + [ws[0]], capacity)
  }

  lemma {:induction false} SumConcat(a: seq<nat>, b: seq<nat>)
    ensures Sum(a + b) == Sum(a) + Sum(b)
  {
    if a == [] {
      assert a + b == b;
    } else {
      assert (a + b)[1..] == a[1..] + b;
      SumConcat(a[1..], b);
    }
  }

  lemma SumAppend(a: seq<nat>, x: nat)
    ensures Sum(a + [x]) == Sum(a) + x
  {
    SumConcat(a, [x]);
    assert [x][1..] == [];
  }

  /** The greedy count is reached by a division into pieces that fit. */
  lemma {:induction false} GreedyFits(ws: seq<nat>, open: seq<nat>, capacity: nat)
    requires Sum(open) <= capacity && forall i :: 0 <= i < |ws| ==> ws[i] <= capacity
    ensures Flatten(Greedy(ws, open, capacity)) == open + ws
    ensures |Greedy(ws, open, capacity)| == 1 + Further(ws, Sum(open), capacity)
    ensures forall i :: 0 <= i < |Greedy(ws, open, capacity)| ==> Sum(Greedy(ws, open, capacity)[i]) <= capacity
    decreases |ws|
  {
    if ws == [] {
      assert [open][1..] == [];
    } else if Sum(open) + ws[0] > capacity {
      SumAppend([], ws[0]);
      assert [] + [ws[0]] == [ws[0]];
      GreedyFits(ws[1..], [ws[0]], capacity);
      assert ws == [ws[0]] + ws[1..];
    } else {
      SumAppend(open, ws[0]);
      GreedyFits(ws[1..], open + [ws[0]], capacity);
      Associate(open, [ws[0]], ws[1..]);
      assert ws == [ws[0]] + ws[1..];
    }
  }

  // ---- GSM-7: the counter, the best division, and the builder ----

  /** `pieces` are `body` cut at character boundaries, each fitting one part. */
  ghost predicate Divides(pieces: seq<string>, body: string) {
    && Flatten(pieces) == body
    && forall i :: 0 <= i < |pieces| ==> Sum(Septets7(pieces[i])) <= 153
  }

  function Weights(pieces: seq<string>): (ws: seq<seq<nat>>)
    ensures |ws| == |pieces|
  {
    seq(|pieces|, i requires 0 <= i < |pieces| => Septets7(pieces[i]))
  }

  lemma {:induction false} WeightsFlatten(pieces: seq<string>)
    ensures Flatten(Weights(pieces)) == Septets7(Flatten(pieces))
  {
    hide Gsm7.EncodeChar;
    if pieces != [] {
      WeightsFlatten(pieces[1..]);
      assert Weights(pieces)[1..] == Weights(pieces[1..]);
    }
  }

  /** Beyond one part, the count is at most that of any division at character boundaries. */
  lemma CountIsLeast(body: string, pieces: seq<string>)
    requires CountGsm7(body).Some? && Sum(Septets7(body)) > 160
    requires Divides(pieces, body)
    ensures CountGsm7(body).value <= |pieces|
  {
    hide Gsm7.EncodeChar;
    WeightsFlatten(pieces);
    GreedyIsLeast(Weights(pieces), 153);
  }

  /** ... and some division reaches it. */
  lemma CountIsReached(body: string) returns (pieces: seq<string>)
    requires CountGsm7(body).Some? && Sum(Septets7(body)) > 160
    ensures Divides(pieces, body) && |pieces| == CountGsm7(body).value
  {
    hide Gsm7.EncodeChar, Greedy, Further;
    var ws := Septets7(body);
    GreedyFits(ws, [], 153);
    assert [] + ws == ws;
    pieces := Regroup(body, Greedy(ws, [], 153));
  }

  /** Cutting a body where its weights are cut. */
  lemma {:induction false} Regroup(body: string, ws: seq<seq<nat>>) returns (pieces: seq<string>)
    requires Flatten(ws) == Septets7(body)
    ensures Flatten(pieces) == body && |pieces| == |ws|
    ensures forall i :: 0 <= i < |ws| ==> Septets7(pieces[i]) == ws[i]
    decreases |ws|
  {
    hide Gsm7.EncodeChar;
    if ws == [] {
      pieces := [];
    } else {
      var n := |ws[0]|;
      assert Septets7(body[..n]) == Septets7(body)[..n] == ws[0];
      assert Septets7(body[n..]) == Septets7(body)[n..] == Flatten(ws[1..]);
      var rest := Regroup(body[n..], ws[1..]);
      pieces := [body[..n]] + rest;
      assert pieces[1..] == rest;
      assert body == body[..n] + body[n..];
    }
  }

  lemma {:induction false} SumIsLength(body: string)
    requires Gsm7.EncodeBody(body).Some?
    ensures Sum(Septets7(body)) == |Gsm7.EncodeBody(body).value|
    ensures forall i :: 0 <= i < |body| ==> Septets7(body)[i] != 0
  {
    hide Gsm7.EncodeChar;
    if body != [] {
      SumIsLength(body[1..]);
      assert Septets7(body)[1..] == Septets7(body[1..]);
    }
  }

  /** A cut of the septets outside every escape is a cut of the body. */
  lemma {:induction false} CutBody(body: string, a: seq<Septets.Septet>, b: seq<Septets.Septet>) returns (n: nat)
    requires Gsm7.EncodeBody(body) == Some(a + b) && Gsm7.EscapesPaired(a)
    ensures n <= |body|
    ensures Gsm7.EncodeBody(body[..n]) == Some(a) && Gsm7.EncodeBody(body[n..]) == Some(b)
    decreases |body|
  {
    hide Gsm7.EncodeChar, Gsm7.Basic, Gsm7.Extension;
    if a == [] {
      n := 0;
      assert a + b == b;
    } else {
      var head := Gsm7.EncodeChar(body[0]);
      var rest := Gsm7.EncodeBody(body[1..]).value;
      Gsm7.CharDecodes(body[0]);
      assert (a + b)[0] == head[0] == a[0];
      assert |head| <= |a|;
      assert head == (head + rest)[..|head|] == a[..|head|];
      assert rest == (head + rest)[|head|..] == a[|head|..] + b;
      n := CutBody(body[1..], a[|head|..], b);
      assert body[..n + 1][1..] == body[1..][..n];
      assert body[n + 1..] == body[1..][n..];
      assert a == a[..|head|] + a[|head|..];
      n := n + 1;
    }
  }

  lemma {:induction false} ChunksDivide(body: string, chunks: seq<seq<Septets.Septet>>) returns (pieces: seq<string>)
    requires Gsm7.EncodeBody(body) == Some(Flatten(chunks))
    requires forall i :: 0 <= i < |chunks| ==> Gsm7.EscapesPaired(chunks[i]) && |chunks[i]| <= 153
    ensures |pieces| == |chunks| && Divides(pieces, body)
    decreases |chunks|
  {
    hide Gsm7.EncodeChar, Gsm7.EscapesPaired, Gsm7.EncodeBody, Septets7, Sum, Divides;
    if chunks == [] {
      pieces := [];
      NothingDivides(body);
    } else {
      var n := CutBody(body, chunks[0], Flatten(chunks[1..]));
      SumIsLength(body[..n]);
      var rest := ChunksDivide(body[n..], chunks[1..]);
      pieces := [body[..n]] + rest;
      OnePieceMore(body[..n], rest, body[n..]);
      assert body == body[..n] + body[n..];
    }
  }

  lemma NothingDivides(body: string)
    requires Gsm7.EncodeBody(body) == Some([])
    ensures Divides([], body)
  {
    hide Gsm7.EncodeChar;
  }

  lemma OnePieceMore(piece: string, rest: seq<string>, body: string)
    requires Divides(rest, body) && Sum(Septets7(piece)) <= 153
    ensures Divides([piece] + rest, piece + body)
  {
    hide Septets7, Sum;
    assert ([piece] + rest)[1..] == rest;
  }

  /** The counter never asks for more parts than the builder makes. */
  lemma CountAtMostBuilt(body: string)
    requires Gsm7.EncodeBody(body).Some? && |Gsm7.EncodeBody(body).value| > 160
    ensures CountGsm7(body).Some? && CountGsm7(body).value <= |Chunks(Gsm7.EncodeBody(body).value)|
  {
    hide Gsm7.EncodeChar, Gsm7.EscapesPaired, Chunks, Gsm7.EncodeBody, Divides;
    var s := Gsm7.EncodeBody(body).value;
    Gsm7.EncodedIsPaired(body);
    ChunksAreEscapeSafe(s);
    ChunkSizes(s);
    var pieces := ChunksDivide(body, Chunks(s));
    SumIsLength(body);
    CountIsLeast(body, pieces);
  }

  /** Septets left unused in the first `k` full parts, read off the escapes at their ends. */
  function Wasted(s: seq<Septets.Septet>, k: nat): (w: nat)
    decreases k
  {
    if k == 0 || |s| <= 153 then 0 else 153 - ChunkLen(s) + Wasted(s[ChunkLen(s)..], k - 1)
  }

  /** The chunks number at most `n` exactly when the body and what is wasted before the last
      of `n` parts fit into `n` parts. */
  lemma {:induction false} ChunksFitExactly(s: seq<Septets.Septet>, n: nat)
    requires s != [] && n >= 1
    ensures |Chunks(s)| <= n <==> |s| + Wasted(s, n - 1) <= 153 * n
    decreases n
  {
    hide Chunks;
    ChunksStep(s);
    var rest := s[ChunkLen(s)..];
    if |s| <= 153 {
      assert rest == [];
      NoChunks();
    } else {
      ChunksStep(rest);
      if n > 1 { ChunksFitExactly(rest, n - 1); }
    }
  }

  /** A long body is built under a limit exactly when it fits together with what is wasted. */
  lemma BuiltExactlyWhenFitting(s: seq<Septets.Septet>, maxParts: nat, refNum: Byte)
    requires |s| > 160 && 1 <= maxParts <= 255
    ensures BuildGsm7(s, maxParts, refNum) != [] <==> |s| + Wasted(s, maxParts - 1) <= 153 * maxParts
  {
    hide Chunks, Gsm7Part, Wasted;
    ChunksFitExactly(s, maxParts);
    ChunkSizes(s);
    ChunksStep(s);
    var total := |Chunks(s)|;
    assert total >= 1;
    if total <= maxParts { assert |BuildGsm7(s, maxParts, refNum)| == total; }
  }

  /** The counter is right exactly when nothing is wasted that the counted parts cannot spare. */
  lemma CountIsBuiltExactly(body: string)
    requires Gsm7.EncodeBody(body).Some? && |Gsm7.EncodeBody(body).value| > 160
    ensures CountGsm7(body).Some?
    ensures var s, n := Gsm7.EncodeBody(body).value, CountGsm7(body).value;
      n >= 1 && (n == |Chunks(s)| <==> |s| + Wasted(s, n - 1) <= 153 * n)
  {
    hide Gsm7.EncodeChar, Chunks, Gsm7.EncodeBody, Wasted, Further, Sum;
    CountAtMostBuilt(body);
    ChunksFitExactly(Gsm7.EncodeBody(body).value, CountGsm7(body).value);
  }

  /** No part but the last was cut short in front of an escape that would have fitted. */
  ghost predicate NoneCutAt151(chunks: seq<seq<Septets.Septet>>) {
    forall i :: 0 <= i < |chunks| - 1 ==> |chunks[i]| != 151
  }

  /** The two agree unless the builder cuts a part at 151 septets. */
  lemma CountIsBuilt(body: string)
    requires Gsm7.EncodeBody(body).Some? && |Gsm7.EncodeBody(body).value| > 160
    requires NoneCutAt151(Chunks(Gsm7.EncodeBody(body).value))
    ensures CountGsm7(body) == Some(|Chunks(Gsm7.EncodeBody(body).value)|)
  {
    hide Gsm7.EncodeChar, Chunks;
    var s := Gsm7.EncodeBody(body).value;
    SumIsLength(body);
    assert [] + s == s;
    FillIsChunks(body, []);
  }

  lemma {:induction false} FillIsChunks(body: string, open: seq<Septets.Septet>)
    requires Gsm7.EncodeBody(body).Some? && |open| <= 153 && Gsm7.EscapesPaired(open)
    requires open + Gsm7.EncodeBody(body).value != []
    requires NoneCutAt151(Chunks(open + Gsm7.EncodeBody(body).value))
    ensures 1 + Further(Septets7(body), |open|, 153) == |Chunks(open + Gsm7.EncodeBody(body).value)|
    decreases |body|
  {
    hide Gsm7.EncodeChar, Chunks, Gsm7.Basic, Gsm7.Extension;
    var s := open + Gsm7.EncodeBody(body).value;
    ChunksStep(s);
    NoChunks();
    if body == [] {
      assert s == open && s[|s|..] == [];
    } else {
      var head, rest := Gsm7.EncodeChar(body[0]), Gsm7.EncodeBody(body[1..]).value;
      Gsm7.CharDecodes(body[0]);
      assert Septets7(body)[1..] == Septets7(body[1..]);
      if |open| + |head| > 153 {
        assert s[|open|] == head[0];
        FullChunk(s, open, head, rest);
        assert s[|open|..] == head + rest;
        NoneCutLater(s);
        FillIsChunks(body[1..], head);
      } else {
        assert s == (open + head) + rest;
        PairedAppend(open, head);
        FillIsChunks(body[1..], open + head);
      }
    }
  }

  lemma PairedAppend(open: seq<Septets.Septet>, head: seq<Septets.Septet>)
    requires Gsm7.EscapesPaired(open) && Gsm7.EscapesPaired(head)
    ensures Gsm7.EscapesPaired(open + head)
  {
    var s := open + head;
    forall i | 0 <= i < |s| && s[i] == Gsm7.ESC ensures i + 1 < |s| && s[i + 1] != Gsm7.ESC {
      if i >= |open| { assert head[i - |open|] == Gsm7.ESC; } else { assert open[i] == Gsm7.ESC; }
    }
  }

  /** A full part ends where the counter ends it, unless the builder cuts at 151. */
  lemma FullChunk(s: seq<Septets.Septet>, open: seq<Septets.Septet>, head: seq<Septets.Septet>,
                  rest: seq<Septets.Septet>)
    requires s == open + (head + rest) && |open| <= 153 < |open| + |head| && Gsm7.EscapesPaired(open)
    requires |head| == 1 || (|head| == 2 && head[0] == Gsm7.ESC)
    requires NoneCutAt151(Chunks(s))
    ensures ChunkLen(s) == |open|
  {
    ChunksStep(s);
    assert |s| > 153;
    if |open| == 153 {
      assert s[152] == open[152];
      LaterChunk(s);
    } else {
      assert s[152] == head[0];
    }
  }

  lemma LaterChunk(s: seq<Septets.Septet>)
    requires s != [] && ChunkLen(s) < |s| && NoneCutAt151(Chunks(s))
    ensures ChunkLen(s) != 151
  {
    ChunksStep(s);
    assert Chunks(s)[0] == s[..ChunkLen(s)];
  }

  lemma NoneCutLater(s: seq<Septets.Septet>)
    requires s != [] && NoneCutAt151(Chunks(s))
    ensures NoneCutAt151(Chunks(s[ChunkLen(s)..]))
  {
    hide Chunks, ChunkLen;
    ChunksStep(s);
    var all, later := Chunks(s), Chunks(s[ChunkLen(s)..]);
    forall i | 0 <= i < |later| - 1 ensures |later[i]| != 151 {
      assert later[i] == all[i + 1];
    }
  }

  /** No extension characters, so no escape and no early cut. */
  lemma CountIsBuiltWithoutExtensions(body: string)
    requires Gsm7.EncodeBody(body).Some? && |Gsm7.EncodeBody(body).value| > 160
    requires forall i :: 0 <= i < |body| ==> |Gsm7.EncodeChar(body[i])| == 1
    ensures CountGsm7(body) == Some(|Chunks(Gsm7.EncodeBody(body).value)|)
  {
    hide Gsm7.EncodeChar, Chunks, Gsm7.EncodeBody;
    NoEscapes(body);
    FullChunksOnly(Gsm7.EncodeBody(body).value);
    CountIsBuilt(body);
  }

  lemma {:induction false} NoEscapes(body: string)
    requires Gsm7.EncodeBody(body).Some?
    requires forall i :: 0 <= i < |body| ==> |Gsm7.EncodeChar(body[i])| == 1
    ensures forall i :: 0 <= i < |Gsm7.EncodeBody(body).value| ==> Gsm7.EncodeBody(body).value[i] != Gsm7.ESC
  {
    hide Gsm7.EncodeChar, Gsm7.Basic, Gsm7.Extension;
    if body != [] {
      Gsm7.CharDecodes(body[0]);
      NoEscapes(body[1..]);
    }
  }

  lemma {:induction false} FullChunksOnly(s: seq<Septets.Septet>)
    requires forall i :: 0 <= i < |s| ==> s[i] != Gsm7.ESC
    ensures NoneCutAt151(Chunks(s))
    decreases |s|
  {
    if s != [] {
      ChunksStep(s);
      hide Chunks;
      FullChunksOnly(s[ChunkLen(s)..]);
      NoChunks();
    }
  }

  function Repeat<T>(n: nat, x: T): seq<T> {
    seq(n, _ => x)
  }

  lemma {:induction false} EncodeConcat(a: string, b: string)
    requires Gsm7.EncodeBody(a).Some? && Gsm7.EncodeBody(b).Some?
    ensures Gsm7.EncodeBody(a + b) == Some(Gsm7.EncodeBody(a).value + Gsm7.EncodeBody(b).value)
    ensures Septets7(a + b) == Septets7(a) + Septets7(b)
  {
    hide Gsm7.EncodeChar, Septets7;
    WeightsConcat(a, b);
    if a == [] {
      assert a + b == b && [] + Gsm7.EncodeBody(b).value == Gsm7.EncodeBody(b).value;
    } else {
      EncodeConcat(a[1..], b);
      assert (a + b)[1..] == a[1..] + b;
      var head, x, y := Gsm7.EncodeChar(a[0]), Gsm7.EncodeBody(a[1..]).value, Gsm7.EncodeBody(b).value;
      Associate(head, x, y);
    }
  }

  lemma WeightsConcat(a: string, b: string)
    ensures Septets7(a + b) == Septets7(a) + Septets7(b)
  {
    hide Gsm7.EncodeChar;
  }

  lemma LetterAndBracket()
    ensures Gsm7.EncodeChar('A') == [65] && Gsm7.EncodeChar('[') == [Gsm7.ESC, 0x3C]
  {}

  lemma {:induction false} EncodeLetters(n: nat)
    ensures Gsm7.EncodeBody(Repeat(n, 'A')) == Some(Repeat<Septets.Septet>(n, 65))
    ensures Septets7(Repeat(n, 'A')) == Repeat<nat>(n, 1)
  {
    hide Gsm7.EncodeChar;
    LetterAndBracket();
    if n == 0 {
      assert Repeat(n, 'A') == "" && Repeat<Septets.Septet>(n, 65) == [];
    } else {
      EncodeLetters(n - 1);
      assert Repeat(n, 'A')[1..] == Repeat(n - 1, 'A');
      assert Repeat<Septets.Septet>(n, 65) == [65] + Repeat<Septets.Septet>(n - 1, 65);
    }
    assert Septets7(Repeat(n, 'A')) == Repeat<nat>(n, 1);
  }

  lemma {:induction false} SumOfOnes(n: nat)
    ensures Sum(Repeat<nat>(n, 1)) == n
  {
    if n == 0 {
      assert Repeat<nat>(0, 1) == [];
    } else {
      assert Repeat<nat>(n, 1)[1..] == Repeat<nat>(n - 1, 1);
      SumOfOnes(n - 1);
    }
  }

  /** They do differ: 151 letters, a bracket and `n` more letters count two parts, but the cut
      in front of the bracket makes it three when more than 151 letters follow. */
  lemma BuiltExceedsCount(n: nat)
    requires 8 <= n <= 153
    ensures var body := Repeat(151, 'A') + ("[" + Repeat(n, 'A'));
      && CountGsm7(body) == Some(2)
      && Gsm7.EncodeBody(body).Some? && |Chunks(Gsm7.EncodeBody(body).value)| == if n <= 151 then 2 else 3
  {
    hide Chunks, Further, Sum, Gsm7.EncodeBody, Septets7;
    EncodeLetters(151);
    EncodeLetters(n);
    EncodeBracket();
    EncodeConcat("[", Repeat(n, 'A'));
    EncodeConcat(Repeat(151, 'A'), "[" + Repeat(n, 'A'));
    var body := Repeat(151, 'A') + ("[" + Repeat(n, 'A'));
    var s := Repeat<Septets.Septet>(151, 65) + ([Gsm7.ESC, 0x3C] + Repeat<Septets.Septet>(n, 65));
    assert Gsm7.EncodeBody(body) == Some(s);
    EarlyCutChunks(s, n);
    TwoFilled(n);
    assert Septets7(body) == Repeat<nat>(151, 1) + ([2] + Repeat<nat>(n, 1));
  }

  lemma EncodeBracket()
    ensures Gsm7.EncodeBody("[") == Some([Gsm7.ESC, 0x3C]) && Septets7("[") == [2]
  {
    hide Gsm7.EncodeChar;
    LetterAndBracket();
    assert "["[1..] == "" && "["[0] == '[';
    assert Gsm7.EncodeBody("") == Some([]) && [Gsm7.ESC, 0x3C] + [] == [Gsm7.ESC, 0x3C];
    assert Septets7("[") == [2];
  }

  lemma EarlyCutChunks(s: seq<Septets.Septet>, n: nat)
    requires 8 <= n <= 153
    requires s == Repeat<Septets.Septet>(151, 65) + ([Gsm7.ESC, 0x3C] + Repeat<Septets.Septet>(n, 65))
    ensures |Chunks(s)| == if n <= 151 then 2 else 3
  {
    hide Chunks;
    ChunksStep(s);
    assert ChunkLen(s) == 151;
    var t := s[151..];
    ChunksStep(t);
    NoChunks();
    if n <= 151 {
      assert t[|t|..] == [];
    } else {
      assert ChunkLen(t) == 153;
      var u := t[153..];
      ChunksStep(u);
      assert u[|u|..] == [];
    }
  }

  lemma TwoFilled(n: nat)
    requires 1 <= n <= 153
    ensures var ws := Repeat<nat>(151, 1) + ([2] + Repeat<nat>(n, 1)); Sum(ws) == 153 + n && Further(ws, 0, 153) == 1
  {
    hide Further, Sum;
    var a, b, c := Repeat<nat>(151, 1), Repeat<nat>(n, 1), Repeat<nat>(n - 1, 1);
    SumOfOnes(151);
    SumOfOnes(n - 1);
    SumOfOnes(n);
    SumOfOne(2);
    SumConcat(a, [2] + b);
    SumConcat([2], b);
    FitsInOne(a, [2] + b, 0, 153);
    FitsInOne([2], b, 151, 153);
    assert b == [1] + c && c + [] == c;
    OpensPart(1, c);
    FitsInOne(c, [], 1, 153);
    NoFurther(1 + Sum(c));
  }

  lemma NoFurther(used: nat)
    ensures Further([], used, 153) == 0
  {}

  lemma SumOfOne(x: nat)
    ensures Sum([x]) == x
  {
    assert [x][1..] == [];
  }

  lemma OpensPart(x: nat, ws: seq<nat>)
    requires 1 <= x
    ensures Further([x] + ws, 153, 153) == 1 + Further(ws, x, 153)
  {
    assert ([x] + ws)[1..] == ws;
  }

  // ---- UCS-2: the counter is the builder ----

  lemma {:induction false} UnitsAreLength(body: string)
    ensures 2 * Sum(Units16(body)) == |Ucs2.Encode(body)|
  {
    hide Ucs2.CharOctets;
    if body != [] {
      UnitsAreLength(body[1..]);
      assert Units16(body)[1..] == Units16(body[1..]);
    }
  }

  lemma FurtherStep(ws: seq<nat>, used: nat, capacity: nat)
    ensures Further(ws, used, capacity) ==
      if ws == [] then 0
      else if used + ws[0] > capacity then 1 + Further(ws[1..], ws[0], capacity)
      else Further(ws[1..], used + ws[0], capacity)
  {}

  lemma EncodeStep(body: string)
    ensures Ucs2.Encode(body) == if body == [] then [] else Ucs2.CharOctets(body[0]) + Ucs2.Encode(body[1..])
  {
    hide Ucs2.CharOctets;
  }

  lemma {:induction false} FillIsUcs2Chunks(body: string, open: seq<Byte>)
    requires |open| <= 134 && Ucs2.PairsWhole(open) && open + Ucs2.Encode(body) != []
    ensures |open| % 2 == 0
    ensures 1 + Further(Units16(body), |open| / 2, 67) == |Ucs2.Chunks(open + Ucs2.Encode(body))|
    decreases |body|
  {
    hide Ucs2.CharOctets, Ucs2.Chunks, Ucs2.ChunkLen, Ucs2.PairsWhole, Ucs2.Encode, Further;
    Ucs2.WholeIsEven(open);
    FurtherStep(Units16(body), |open| / 2, 67);
    EncodeStep(body);
    if body == [] {
      assert open + [] == open;
      LastUcs2Chunk(open);
    } else {
      var head, rest := Ucs2.CharOctets(body[0]), Ucs2.Encode(body[1..]);
      Ucs2.CharIsWhole(body[0]);
      Ucs2.WholeIsEven(head);
      Halves(|open|, |head|);
      assert Units16(body)[1..] == Units16(body[1..]);
      if |open| + |head| > 134 {
        FullUcs2Chunk(open + (head + rest), open, body[0], rest);
        Ucs2.ChunksStep(open + (head + rest));
        assert (open + (head + rest))[|open|..] == head + rest;
        FillIsUcs2Chunks(body[1..], head);
      } else {
        Associate(open, head, rest);
        Ucs2.WholeConcat(open, head);
        FillIsUcs2Chunks(body[1..], open + head);
      }
    }
  }

  lemma LastUcs2Chunk(open: seq<Byte>)
    requires open != [] && |open| <= 134
    ensures |Ucs2.Chunks(open)| == 1
  {
    Ucs2.NoChunks();
    assert open[|open|..] == [];
  }

  lemma Halves(a: nat, b: nat)
    requires a % 2 == 0 && b % 2 == 0
    ensures a / 2 + b / 2 == (a + b) / 2 && (a / 2 + b / 2 > 67 <==> a + b > 134)
  {}

  lemma FullUcs2Chunk(s: seq<Byte>, open: seq<Byte>, c: char, rest: seq<Byte>)
    requires s == open + (Ucs2.CharOctets(c) + rest) && Ucs2.PairsWhole(open)
    requires |open| <= 134 < |open| + |Ucs2.CharOctets(c)|
    ensures Ucs2.ChunkLen(s) == |open|
  {
    hide Ucs2.CharOctets, Ucs2.PairsWhole, IsHigh;
    Ucs2.WholeIsEven(open);
    if |open| == 134 {
      assert UnitAt(s, 132) == UnitAt(open, 132);
      LastIsNotHigh(open, 132);
    } else {
      assert UnitAt(s, 132) == UnitAt(Ucs2.CharOctets(c), 0);
      Ucs2.CharIsWhole(c);
    }
  }

  lemma {:induction false} LastIsNotHigh(b: seq<Byte>, k: nat)
    requires Ucs2.PairsWhole(b) && k % 2 == 0 && k + 2 == |b|
    ensures !IsHigh(UnitAt(b, k))
  {
    if k > 0 {
      assert UnitAt(b[2..], k - 2) == UnitAt(b, k);
      LastIsNotHigh(b[2..], k - 2);
    }
  }

  /** For a body outside the GSM alphabet the count is exactly what the builder makes, as long
      as that is at most 255 parts; above that nothing is built. */
  lemma Ucs2CountIsBuilt(body: string, maxParts: nat, refNum: Byte)
    requires Gsm7.EncodeBody(body).None?
    ensures |Message.Build(body, maxParts, refNum)|
         == if CountUcs2(body) <= 255 then CountParts(body, maxParts) else 0
  {
    hide Gsm7.EncodeChar, Ucs2.Encode, Ucs2.Chunks, Gsm7.EncodeBody;
    assert body != [] by { EmptyBody(); }
    UnitsAreLength(body);
    NotGsm7(body);
    var b := Ucs2.Encode(body);
    assert [] + b == b;
    FillIsUcs2Chunks(body, []);
  }

  lemma EmptyBody()
    ensures Gsm7.EncodeBody([]).Some?
  {}

  lemma {:induction false} NotGsm7(body: string)
    requires Gsm7.EncodeBody(body).None?
    ensures CountGsm7(body).None?
  {
    hide Gsm7.EncodeChar;
    assert body != [];
    if Gsm7.EncodeChar(body[0]) == [] {
      assert Septets7(body)[0] == 0;
    } else {
      NotGsm7(body[1..]);
      var i :| 0 <= i < |body[1..]| && Septets7(body[1..])[i] == 0;
      assert Septets7(body)[i + 1] == 0;
    }
  }

  // ---- One part, some parts, none ----

  lemma {:induction false} NothingFurther(ws: seq<nat>, used: nat, capacity: nat)
    requires used <= capacity && Further(ws, used, capacity) == 0
    ensures used + Sum(ws) <= capacity
  {
    if ws != [] { NothingFurther(ws[1..], used + ws[0], capacity); }
  }

  lemma ShortGsm7(body: string, maxParts: nat, refNum: Byte)
    requires body != [] && Gsm7.EncodeBody(body).Some? && |Gsm7.EncodeBody(body).value| <= 160
    ensures |Message.Build(body, maxParts, refNum)| == CountParts(body, maxParts) == if maxParts > 0 then 1 else 0
  {
    hide Gsm7.EncodeChar, Gsm7.EncodeBody, Septets.Pack;
    SumIsLength(body);
  }

  lemma LongGsm7(body: string, maxParts: nat, refNum: Byte)
    requires body != [] && Gsm7.EncodeBody(body).Some? && |Gsm7.EncodeBody(body).value| > 160
    ensures var built, counted := |Message.Build(body, maxParts, refNum)|, CountParts(body, maxParts);
      built != 1 && counted != 1 && (built > 0 ==> 1 < counted <= built)
  {
    hide Gsm7.EncodeChar, Gsm7.EncodeBody, Chunks, Gsm7Part, Further;
    var s := Gsm7.EncodeBody(body).value;
    SumIsLength(body);
    CountAtMostBuilt(body);
    if Further(Septets7(body), 0, 153) == 0 { NothingFurther(Septets7(body), 0, 153); }
    if maxParts > 0 { BuiltLength(s, maxParts, refNum); }
  }

  lemma BuiltLength(s: seq<Septets.Septet>, maxParts: nat, refNum: Byte)
    requires |s| > 160
    ensures |BuildGsm7(s, maxParts, refNum)|
         == if |Chunks(s)| > maxParts || |Chunks(s)| > 255 then 0 else |Chunks(s)|
  {
    hide Chunks, Gsm7Part;
    ChunkSizes(s);
  }

  /** Whatever the body and the limit: a message that is built was counted, with at most as many
      parts as it gets; and both agree on which bodies take one part and on the empty one. */
  lemma CountedWhenBuilt(body: string, maxParts: nat, refNum: Byte)
    ensures var built, counted := |Message.Build(body, maxParts, refNum)|, CountParts(body, maxParts);
      && (built > 0 ==> 0 < counted <= built <= Max(maxParts, 1)) && (built == 1 <==> counted == 1)
      && (body == [] ==> built == counted == 0)
  {
    hide Gsm7.EncodeChar, Gsm7.EncodeBody, Message.Build, CountParts, CountUcs2;
    if body == [] {
      NothingBuilt(maxParts, refNum);
    } else if Gsm7.EncodeBody(body).None? {
      Ucs2CountIsBuilt(body, maxParts, refNum);
      CountWithin(body, maxParts);
    } else if |Gsm7.EncodeBody(body).value| <= 160 {
      ShortGsm7(body, maxParts, refNum);
    } else {
      LongGsm7(body, maxParts, refNum);
      BuiltWithin(body, maxParts, refNum);
    }
  }

  lemma NothingBuilt(maxParts: nat, refNum: Byte)
    ensures Message.Build([], maxParts, refNum) == [] && CountParts([], maxParts) == 0
  {}

  lemma CountWithin(body: string, maxParts: nat)
    requires Gsm7.EncodeBody(body).None?
    ensures CountParts(body, maxParts) <= maxParts && (CountParts(body, maxParts) == 1 ==> CountUcs2(body) == 1)
  {
    hide Gsm7.EncodeChar, Gsm7.EncodeBody, CountUcs2;
    NotGsm7(body);
  }

  lemma BuiltWithin(body: string, maxParts: nat, refNum: Byte)
    requires Gsm7.EncodeBody(body).Some? && |Gsm7.EncodeBody(body).value| > 160
    ensures |Message.Build(body, maxParts, refNum)| <= maxParts
  {
    hide Gsm7.EncodeChar, Gsm7.EncodeBody, Chunks, Gsm7Part;
    BuiltLength(Gsm7.EncodeBody(body).value, maxParts, refNum);
  }
}
