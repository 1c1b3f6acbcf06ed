/** Chunked transfer coding (section 7.1 of RFC 9112) as the HTTP client reads it, from a
    connection that hands over bytes in pieces of any size. */
module ChunkedBody {
  import opened Common
  import Utf8

  const MAX_BODY_BYTES: nat := 24 * 1024
  const MAX_HEADER_BYTES: nat := 2 * 1024
  const MAX_CHUNK_HEADER: nat := 128
  const READ_BUFFER: nat := 1024
  const CR: Byte := 13
  const LF: Byte := 10
  const SEMICOLON: Byte := 0x3B
  const PLUS: Byte := 0x2B
  /** A chunk size is read as a 32-bit machine word. */
  const SIZE_LIMIT: nat := 0x1_0000_0000

  // ---- What is on the wire ----

  predicate CrlfAt(s: seq<Byte>, i: nat) {
    i + 1 < |s| && s[i] == CR && s[i + 1] == LF
  }

  /** Position of the first CRLF, or the length. */
  function FirstCrlf(s: seq<Byte>): (i: nat)
    ensures i <= |s|
    ensures i < |s| ==> CrlfAt(s, i)
    ensures forall j: nat :: j < i ==> !CrlfAt(s, j)
  {
    if s == [] || CrlfAt(s, 0) then 0
    else
      var i := 1 + FirstCrlf(s[1..]);
      assert forall j: nat :: 0 < j ==> CrlfAt(s, j) == CrlfAt(s[1..], j - 1);
      i
  }

  function HexValue(b: Byte): Option<nat> {
    if 0x30 <= b <= 0x39 then Some(b - 0x30)
    else if 0x41 <= b <= 0x46 then Some(b - 0x37)
    else if 0x61 <= b <= 0x66 then Some(b - 0x57)
    else None
  }

  /** Hexadecimal digits, most significant first. */
  function HexDigits(s: seq<Byte>): Option<nat> {
    if s == [] then Some(0)
    else
      var n := |s| - 1;
      match HexDigits(s[..n])
      case None => None
      case Some(hi) =>
        match HexValue(s[n])
        case None => None
        case Some(lo) => Some(hi * 16 + lo)
  }

  function UpToSemicolon(s: seq<Byte>): seq<Byte> {
    if s == [] || s[0] == SEMICOLON then [] else [s[0]] + UpToSemicolon(s[1..])
  }

  /** The size before any extension; a leading plus is allowed, an overflow is not. */
  function ParseSize(line: seq<Byte>): Option<nat> {
    if Utf8.Decode(line).None? then None
    else
      var field := UpToSemicolon(line);
      var digits := if field != [] && field[0] == PLUS then field[1..] else field;
      if digits == [] then None
      else match HexDigits(digits)
        case None => None
        case Some(n) => if n < SIZE_LIMIT then Some(n) else None
  }

  predicate HasHeaderEnd(s: seq<Byte>) {
    exists i: nat :: i < |s| && CrlfAt(s, i) && CrlfAt(s, i + 2)
  }

  predicate TrailersEnd(s: seq<Byte>) {
    CrlfAt(s, 0) || HasHeaderEnd(s)
  }

  /** The body a complete byte stream carries, if its framing is right. */
  ghost function WireBody(s: seq<Byte>): Option<seq<Byte>>
    decreases |s|
  {
    var p := FirstCrlf(s);
    if p == |s| then None
    else match ParseSize(s[..p])
      case None => None
      case Some(n) => WireRest(n, s[p + 2..])
  }

  /** ... from behind a size line that says `n`. */
  ghost function WireRest(n: nat, rest: seq<Byte>): Option<seq<Byte>>
    decreases |rest|
  {
    if n == 0 then (if TrailersEnd(rest) then Some([]) else None)
    else if !CrlfAt(rest, n) then None
    else Prepend(rest[..n], WireBody(rest[n + 2..]))
  }

  function Prepend(a: seq<Byte>, b: Option<seq<Byte>>): Option<seq<Byte>> {
    match b
    case None => None
    case Some(s) => Some(a + s)
  }

  // ---- Reading it piece by piece ----

  datatype ReadError = TimedOut | Closed | TooLong | BadSize | BadTerminator

  /** The rest of the stream, and how many bytes each coming read may hand over. */
  datatype Feed = Feed(pending: seq<Byte>, splits: seq<nat>)

  /** Bytes of the next read: at most the buffer, at most what has come. */
  function NextRead(f: Feed): (n: nat)
    requires f.splits != []
    ensures n <= |f.pending|
  {
    Min(Min(f.splits[0], READ_BUFFER), |f.pending|)
  }

  /** One read into `raw`; none when time is up, the peer has closed, or the limit is passed. */
  function More(raw: seq<Byte>, f: Feed, limit: nat): Result<(seq<Byte>, Feed), ReadError> {
    if f.splits == [] then Err(TimedOut)
    else
      var n := NextRead(f);
      if n == 0 then Err(Closed)
      else if |raw| + n > limit + READ_BUFFER then Err(TooLong)
      else Ok((raw + f.pending[..n], Feed(f.pending[n..], f.splits[1..])))
  }

  /** A read moves bytes from the stream to the buffer. */
  lemma MoreMoves(raw: seq<Byte>, f: Feed, limit: nat)
    requires More(raw, f, limit).Ok?
    ensures var (next, g) := More(raw, f, limit).value;
      && next + g.pending == raw + f.pending && |raw| < |next| && |g.splits| == |f.splits| - 1
  {}

  /** Reads until the size line is complete, and says where it ends. */
  function SizeLine(raw: seq<Byte>, f: Feed): Result<(seq<Byte>, nat, Feed), ReadError>
    decreases |f.splits|
  {
    var p := FirstCrlf(raw);
    if p < |raw| then Ok((raw, p, f))
    else if |raw| > MAX_CHUNK_HEADER then Err(TooLong)
    else match More(raw, f, MAX_BODY_BYTES)
      case Err(e) => Err(e)
      case Ok((next, g)) => SizeLine(next, g)
  }

  /** Reads until the trailers have ended. */
  function Trailers(raw: seq<Byte>, f: Feed): Result<(), ReadError>
    decreases |f.splits|
  {
    if TrailersEnd(raw) then Ok(())
    else if |raw| > MAX_HEADER_BYTES then Err(TooLong)
    else match More(raw, f, MAX_HEADER_BYTES)
      case Err(e) => Err(e)
      case Ok((next, g)) => Trailers(next, g)
  }

  /** Reads until a chunk and its terminator are complete. */
  function ChunkBytes(raw: seq<Byte>, f: Feed, size: nat): Result<(seq<Byte>, Feed), ReadError>
    decreases |f.splits|
  {
    if |raw| < size + 2 then
      match More(raw, f, MAX_BODY_BYTES)
      case Err(e) => Err(e)
      case Ok((next, g)) => ChunkBytes(next, g, size)
    else if !CrlfAt(raw, size) then Err(BadTerminator)
    else Ok((raw, f))
  }

  lemma {:induction false} SizeLineMoves(raw: seq<Byte>, f: Feed)
    requires SizeLine(raw, f).Ok?
    ensures var (held, p, g) := SizeLine(raw, f).value;
      held + g.pending == raw + f.pending && p == FirstCrlf(held) < |held|
    decreases |f.splits|
  {
    hide FirstCrlf, More;
    if FirstCrlf(raw) >= |raw| {
      MoreMoves(raw, f, MAX_BODY_BYTES);
      var (next, g) := More(raw, f, MAX_BODY_BYTES).value;
      SizeLineMoves(next, g);
    }
  }

  lemma {:induction false} ChunkMoves(raw: seq<Byte>, f: Feed, size: nat)
    requires ChunkBytes(raw, f, size).Ok?
    ensures var (held, g) := ChunkBytes(raw, f, size).value;
      held + g.pending == raw + f.pending && CrlfAt(held, size)
    decreases |f.splits|
  {
    hide More, CrlfAt;
    if |raw| < size + 2 {
      MoreMoves(raw, f, MAX_BODY_BYTES);
      var (next, g) := More(raw, f, MAX_BODY_BYTES).value;
      ChunkMoves(next, g, size);
    }
  }

  /** Everything behind `body` that has been read so far. */
  function ReadBody(raw: seq<Byte>, body: seq<Byte>, f: Feed): Result<seq<Byte>, ReadError>
    decreases |raw| + |f.pending|
  {
    match SizeLine(raw, f)
    case Err(e) => Err(e)
    case Ok((held, p, g)) =>
      SizeLineMoves(raw, f);
      assert |held| + |g.pending| == |held + g.pending| == |raw + f.pending|;
      match ParseSize(held[..p])
      case None => Err(BadSize)
      case Some(size) => AfterSizeLine(held[p + 2..], body, g, size)
  }

  /** ... from behind a size line. */
  function AfterSizeLine(raw: seq<Byte>, body: seq<Byte>, f: Feed, size: nat): Result<seq<Byte>, ReadError>
    decreases |raw| + |f.pending|
  {
    if size == 0 then
      match Trailers(raw, f)
      case Err(e) => Err(e)
      case Ok(_) => Ok(body)
    else if |body| + size > MAX_BODY_BYTES then Err(TooLong)
    else match ChunkBytes(raw, f, size)
      case Err(e) => Err(e)
      case Ok((held, g)) =>
        ChunkMoves(raw, f, size);
        assert |held| + |g.pending| == |held + g.pending| == |raw + f.pending|;
        ReadBody(held[size + 2..], body + held[..size], g)
  }

  // ---- The code ----

  class Connection {
    var pending: seq<Byte>
    var splits: seq<nat>

    function View(): Feed
      reads this
    {
      Feed(pending, splits)
    }

    constructor (pending: seq<Byte>, splits: seq<nat>)
      ensures View() == Feed(pending, splits)
    {
      this.pending, this.splits := pending, splits;
    }

    method Read() returns (chunk: seq<Byte>)
      requires splits != []
      modifies this
      ensures |chunk| == NextRead(old(View())) && chunk + pending == old(pending) && splits == old(splits[1..])
    {
      var n := Min(Min(splits[0], READ_BUFFER), |pending|);
      splits := splits[1..];
      chunk := pending[..n];
      pending := pending[n..];
    }
  }

  method ReadMore(c: Connection, raw: seq<Byte>, limit: nat) returns (r: Result<seq<Byte>, ReadError>)
    modifies c
    ensures match More(raw, old(c.View()), limit)
      case Err(e) => r == Err(e)
      case Ok((next, g)) => r == Ok(next) && c.View() == g
  {
    if c.splits == [] {
      return Err(TimedOut);
    }
    ghost var was := c.pending;
    var chunk := c.Read();
    assert chunk == was[..|chunk|] && c.pending == was[|chunk|..];
    if chunk == [] {
      return Err(Closed);
    }
    if |raw| + |chunk| > limit + READ_BUFFER {
      return Err(TooLong);
    }
    return Ok(raw + chunk);
  }

  method ReadSizeLine(c: Connection, start: seq<Byte>) returns (r: Result<(seq<Byte>, nat), ReadError>)
    modifies c
    ensures match SizeLine(start, old(c.View()))
      case Err(e) => r == Err(e)
      case Ok((held, p, g)) => r == Ok((held, p)) && c.View() == g
  {
    hide FirstCrlf, More;
    var raw := start;
    while true
      invariant SizeLine(raw, c.View()) == SizeLine(start, old(c.View()))
      decreases |c.splits|
    {
      var p := FirstCrlf(raw);
      if p < |raw| {
        return Ok((raw, p));
      }
      if |raw| > MAX_CHUNK_HEADER {
        return Err(TooLong);
      }
      ghost var before := c.View();
      var more := ReadMore(c, raw, MAX_BODY_BYTES);
      if more.Err? {
        return Err(more.error);
      }
      MoreMoves(raw, before, MAX_BODY_BYTES);
      raw := more.value;
    }
  }

  method FindHeaderEnd(s: seq<Byte>) returns (found: bool)
    ensures found == HasHeaderEnd(s)
  {
    var i := 0;
    while i < |s|
      invariant i <= |s|
      invariant forall j: nat :: j < i ==> !(CrlfAt(s, j) && CrlfAt(s, j + 2))
    {
      if CrlfAt(s, i) && CrlfAt(s, i + 2) {
        return true;
      }
      i := i + 1;
    }
    return false;
  }

  method SkipTrailers(c: Connection, start: seq<Byte>) returns (r: Result<(), ReadError>)
    modifies c
    ensures r == Trailers(start, old(c.View()))
  {
    hide More, HasHeaderEnd;
    var raw := start;
    while true
      invariant Trailers(raw, c.View()) == Trailers(start, old(c.View()))
      decreases |c.splits|
    {
      var found := FindHeaderEnd(raw);
      if CrlfAt(raw, 0) || found {
        return Ok(());
      }
      if |raw| > MAX_HEADER_BYTES {
        return Err(TooLong);
      }
      ghost var before := c.View();
      var more := ReadMore(c, raw, MAX_HEADER_BYTES);
      if more.Err? {
        return Err(more.error);
      }
      MoreMoves(raw, before, MAX_HEADER_BYTES);
      raw := more.value;
    }
  }

  method ReadChunk(c: Connection, start: seq<Byte>, size: nat) returns (r: Result<seq<Byte>, ReadError>)
    modifies c
    ensures match ChunkBytes(start, old(c.View()), size)
      case Err(e) => r == Err(e)
      case Ok((held, g)) => r == Ok(held) && c.View() == g
  {
    hide More;
    var raw := start;
    while |raw| < size + 2
      invariant ChunkBytes(raw, c.View(), size) == ChunkBytes(start, old(c.View()), size)
      decreases |c.splits|
    {
      ghost var before := c.View();
      var more := ReadMore(c, raw, MAX_BODY_BYTES);
      if more.Err? {
        return Err(more.error);
      }
      MoreMoves(raw, before, MAX_BODY_BYTES);
      raw := more.value;
    }
    if !CrlfAt(raw, size) {
      return Err(BadTerminator);
    }
    return Ok(raw);
  }

  method ReadChunkedBody(c: Connection, remainder: seq<Byte>) returns (r: Result<seq<Byte>, ReadError>)
    modifies c
    ensures r == ReadBody(remainder, [], old(c.View()))
    ensures r.Ok? ==> WireBody(remainder + old(c.pending)) == Some(r.value) && |r.value| <= MAX_BODY_BYTES
  {
    hide FirstCrlf, ParseSize, TrailersEnd, SizeLine, ChunkBytes, Trailers;
    var raw, body := remainder, [];
    ghost var feed := c.View();
    while true
      invariant ReadBody(raw, body, c.View()) == ReadBody(remainder, [], feed)
      decreases |raw| + |c.pending|
    {
      ghost var before, was := c.View(), raw;
      var line := ReadSizeLine(c, raw);
      if line.Err? {
        AcceptedIsCarried(remainder, [], feed);
        return Err(line.error);
      }
      var (held, lineEnd) := line.value;
      SizeLineMoves(was, before);
      assert |held| + |c.pending| == |held + c.pending| == |was + before.pending|;
      var size := ParseSize(held[..lineEnd]);
      if size.None? {
        AcceptedIsCarried(remainder, [], feed);
        return Err(BadSize);
      }
      raw := held[lineEnd + 2..];
      if size.value == 0 {
        var ended := SkipTrailers(c, raw);
        AcceptedIsCarried(remainder, [], feed);
        return if ended.Ok? then Ok(body) else Err(ended.error);
      }
      if size.value > MAX_BODY_BYTES - |body| {
        AcceptedIsCarried(remainder, [], feed);
        return Err(TooLong);
      }
      ghost var behind, start := c.View(), raw;
      var chunk := ReadChunk(c, raw, size.value);
      if chunk.Err? {
        AcceptedIsCarried(remainder, [], feed);
        return Err(chunk.error);
      }
      ChunkMoves(start, behind, size.value);
      assert |chunk.value| + |c.pending| == |chunk.value + c.pending| == |start + behind.pending|;
      body := body + chunk.value[..size.value];
      raw := chunk.value[size.value + 2..];
    }
  }

  // ---- What is accepted is what the stream carries ----

  /** What is found in the bytes read so far is found in the whole stream. */
  lemma TrailersStay(a: seq<Byte>, b: seq<Byte>)
    requires TrailersEnd(a)
    ensures TrailersEnd(a + b)
  {
    if !CrlfAt(a, 0) {
      var i: nat :| i < |a| && CrlfAt(a, i) && CrlfAt(a, i + 2);
      assert CrlfAt(a + b, i) && CrlfAt(a + b, i + 2);
    } else {
      assert CrlfAt(a + b, 0);
    }
  }

  lemma CrlfStays(a: seq<Byte>, b: seq<Byte>)
    requires FirstCrlf(a) < |a|
    ensures FirstCrlf(a + b) == FirstCrlf(a)
  {
    var p := FirstCrlf(a);
    assert CrlfAt(a + b, p);
    forall j: nat | j < p ensures !CrlfAt(a + b, j) {
      assert !CrlfAt(a, j);
    }
  }

  lemma {:induction false} TrailersCarried(raw: seq<Byte>, f: Feed)
    requires Trailers(raw, f).Ok?
    ensures TrailersEnd(raw + f.pending)
    decreases |f.splits|
  {
    hide TrailersEnd, More;
    if TrailersEnd(raw) {
      TrailersStay(raw, f.pending);
    } else {
      MoreMoves(raw, f, MAX_HEADER_BYTES);
      var (next, g) := More(raw, f, MAX_HEADER_BYTES).value;
      TrailersCarried(next, g);
    }
  }

  lemma PrependMore(a: seq<Byte>, x: seq<Byte>, b: Option<seq<Byte>>)
    ensures Prepend(a + x, b) == Prepend(a, Prepend(x, b))
  {
    if b.Some? { assert (a + x) + b.value == a + (x + b.value); }
  }

  lemma PrependNone(b: Option<seq<Byte>>)
    ensures Prepend([], b) == b
  {
    if b.Some? { assert [] + b.value == b.value; }
  }

  /** The stream behind its first size line. */
  lemma WireStep(s: seq<Byte>, n: nat)
    requires FirstCrlf(s) < |s| && ParseSize(s[..FirstCrlf(s)]) == Some(n)
    ensures WireBody(s) == WireRest(n, s[FirstCrlf(s) + 2..])
  {
    hide FirstCrlf, ParseSize, WireRest;
  }

  lemma ChunkTaken(held: seq<Byte>, pending: seq<Byte>, n: nat)
    requires CrlfAt(held, n)
    ensures var rest := held + pending;
      CrlfAt(rest, n) && rest[..n] == held[..n] && rest[n + 2..] == held[n + 2..] + pending
  {
    var rest := held + pending;
    assert rest[..|held|] == held;
    assert rest[n] == held[n] && rest[n + 1] == held[n + 1];
  }

  /** One size line off the front, in the buffer and in the stream alike. */
  lemma LineTaken(raw: seq<Byte>, f: Feed)
    requires SizeLine(raw, f).Ok?
    ensures var (held, p, g) := SizeLine(raw, f).value;
      var s := raw + f.pending;
      && p + 2 <= |held| && p == FirstCrlf(s) < |s| && s[..p] == held[..p] && s[p + 2..] == held[p + 2..] + g.pending
  {
    SizeLineMoves(raw, f);
    hide SizeLine, FirstCrlf;
    var (held, p, g) := SizeLine(raw, f).value;
    CrlfStays(held, g.pending);
    assert CrlfAt(held, p);
    ChunkTaken(held, g.pending, p);
  }

  /** Whenever a body is accepted it is what the stream carries, whatever part of the stream
      came with the headers and however the rest was split between reads. */
  lemma {:induction false} AcceptedIsCarried(raw: seq<Byte>, body: seq<Byte>, f: Feed)
    ensures var r := ReadBody(raw, body, f);
      r.Ok? ==> Prepend(body, WireBody(raw + f.pending)) == Some(r.value)
                && (|body| <= MAX_BODY_BYTES ==> |r.value| <= MAX_BODY_BYTES)
                && (body == [] ==> WireBody(raw + f.pending) == Some(r.value))
    decreases |raw| + |f.pending|
  {
    hide FirstCrlf, ParseSize, TrailersEnd, SizeLine, ChunkBytes, Trailers, WireBody;
    PrependNone(WireBody(raw + f.pending));
    if ReadBody(raw, body, f).Ok? {
      LineTaken(raw, f);
      var (held, p, g) := SizeLine(raw, f).value;
      var size := ParseSize(held[..p]).value;
      WireStep(raw + f.pending, size);
      var rest := held[p + 2..];
      assert ReadBody(raw, body, f) == AfterSizeLine(rest, body, g, size);
      if size == 0 {
        TrailersCarried(rest, g);
        assert body + [] == body;
      } else {
        ChunkMoves(rest, g, size);
        var (chunk, next) := ChunkBytes(rest, g, size).value;
        ChunkTaken(chunk, next.pending, size);
        assert |raw + f.pending| == |raw| + |f.pending| && |rest + g.pending| == |rest| + |g.pending|;
        AcceptedIsCarried(chunk[size + 2..], body + chunk[..size], next);
        PrependMore(body, chunk[..size], WireBody(chunk[size + 2..] + next.pending));
      }
    }
  }

  // ---- Which streams are accepted however they are split ----

  /** Reads that keep handing over bytes until there are none. */
  ghost predicate Generous(f: Feed) {
    |f.splits| >= |f.pending| && forall i :: 0 <= i < |f.splits| ==> f.splits[i] > 0
  }

  /** Size lines, chunks and trailers that no split can push over a limit: each size line ends
      within 129 bytes, the trailers within 2049, and a chunk of the full 24 KiB is not followed
      by so much that one read can overfill the buffer. */
  ghost predicate Moderate(s: seq<Byte>)
    decreases |s|
  {
    var p := FirstCrlf(s);
    p < |s| && p < MAX_CHUNK_HEADER
    && match ParseSize(s[..p])
       case None => false
       case Some(n) => ModerateRest(n, s[p + 2..])
  }

  ghost predicate ModerateRest(n: nat, rest: seq<Byte>)
    decreases |rest|
  {
    if n == 0 then TrailersEnd(Start(rest, MAX_HEADER_BYTES + 1))
    else n + 2 <= |rest| && (n < MAX_BODY_BYTES || |rest| <= MAX_BODY_BYTES + READ_BUFFER) && Moderate(rest[n + 2..])
  }

  function Start(s: seq<Byte>, n: nat): seq<Byte> {
    if |s| <= n then s else s[..n]
  }

  lemma MoreReached(raw: seq<Byte>, f: Feed, limit: nat)
    requires Generous(f) && f.pending != []
    requires |raw| <= limit || |raw| + |f.pending| <= limit + READ_BUFFER
    ensures More(raw, f, limit).Ok? && Generous(More(raw, f, limit).value.1)
  {}

  lemma CrlfIn(raw: seq<Byte>, pending: seq<Byte>, p: nat)
    requires CrlfAt(raw + pending, p) && p + 2 <= |raw|
    ensures CrlfAt(raw, p)
  {
    assert (raw + pending)[p] == raw[p] && (raw + pending)[p + 1] == raw[p + 1];
  }

  lemma {:induction false} SizeLineReached(raw: seq<Byte>, f: Feed)
    requires Generous(f) && FirstCrlf(raw + f.pending) < |raw + f.pending|
             && FirstCrlf(raw + f.pending) < MAX_CHUNK_HEADER
    ensures SizeLine(raw, f).Ok? && Generous(SizeLine(raw, f).value.2)
    decreases |f.splits|
  {
    hide Generous, More;
    var s, p := raw + f.pending, FirstCrlf(raw + f.pending);
    if FirstCrlf(raw) == |raw| {
      assert CrlfAt(s, p);
      if |raw| >= p + 2 { CrlfIn(raw, f.pending, p); }
      MoreReached(raw, f, MAX_BODY_BYTES);
      MoreMoves(raw, f, MAX_BODY_BYTES);
      var (next, g) := More(raw, f, MAX_BODY_BYTES).value;
      SizeLineReached(next, g);
    }
  }

  lemma {:induction false} ChunkReached(raw: seq<Byte>, f: Feed, size: nat)
    requires Generous(f) && CrlfAt(raw + f.pending, size) && size <= MAX_BODY_BYTES
    requires size < MAX_BODY_BYTES || |raw + f.pending| <= MAX_BODY_BYTES + READ_BUFFER
    ensures ChunkBytes(raw, f, size).Ok? && Generous(ChunkBytes(raw, f, size).value.1)
    decreases |f.splits|
  {
    hide Generous, More;
    if |raw| < size + 2 {
      MoreReached(raw, f, MAX_BODY_BYTES);
      MoreMoves(raw, f, MAX_BODY_BYTES);
      var (next, g) := More(raw, f, MAX_BODY_BYTES).value;
      ChunkReached(next, g, size);
    } else {
      assert (raw + f.pending)[size] == raw[size] && (raw + f.pending)[size + 1] == raw[size + 1];
    }
  }

  lemma {:induction false} TrailersReached(raw: seq<Byte>, f: Feed)
    requires Generous(f) && TrailersEnd(Start(raw + f.pending, MAX_HEADER_BYTES + 1))
    ensures Trailers(raw, f).Ok?
    decreases |f.splits|
  {
    hide Generous, More, TrailersEnd, Start;
    if |raw| > MAX_HEADER_BYTES {
      StartIn(raw, f.pending, MAX_HEADER_BYTES + 1);
      TrailersStay(Start(raw + f.pending, MAX_HEADER_BYTES + 1), raw[MAX_HEADER_BYTES + 1..]);
    } else if !TrailersEnd(raw) {
      if f.pending == [] { StartAll(raw, f.pending, MAX_HEADER_BYTES + 1); }
      MoreReached(raw, f, MAX_HEADER_BYTES);
      MoreMoves(raw, f, MAX_HEADER_BYTES);
      var (next, g) := More(raw, f, MAX_HEADER_BYTES).value;
      TrailersReached(next, g);
    }
  }

  lemma StartIn(raw: seq<Byte>, pending: seq<Byte>, n: nat)
    requires |raw| >= n
    ensures Start(raw + pending, n) + raw[n..] == raw
  {}

  lemma StartAll(raw: seq<Byte>, pending: seq<Byte>, n: nat)
    requires pending == [] && |raw| <= n
    ensures Start(raw + pending, n) == raw
  {}

  lemma CarriedChunk(n: nat, rest: seq<Byte>)
    requires WireRest(n, rest).Some?
    ensures n > 0 ==> CrlfAt(rest, n) && |WireRest(n, rest).value| >= n
    ensures n > 0 ==> WireBody(rest[n + 2..]).Some?
    ensures n > 0 ==> WireRest(n, rest).value == rest[..n] + WireBody(rest[n + 2..]).value
  {
    hide TrailersEnd, WireBody;
    if n > 0 && CrlfAt(rest, n) { assert |rest[..n]| == n; }
  }

  /** A moderate stream is accepted, whatever has been read and however the rest is split. */
  lemma {:induction false} ModerateAccepted(raw: seq<Byte>, body: seq<Byte>, f: Feed)
    requires Generous(f) && Moderate(raw + f.pending)
    requires WireBody(raw + f.pending).Some? && |body| + |WireBody(raw + f.pending).value| <= MAX_BODY_BYTES
    ensures ReadBody(raw, body, f) == Ok(body + WireBody(raw + f.pending).value)
    decreases |raw| + |f.pending|, 1
  {
    hide FirstCrlf, ParseSize, SizeLine, AfterSizeLine, WireBody, WireRest, Generous, ModerateRest;
    SizeLineReached(raw, f);
    LineTaken(raw, f);
    var (held, p, g) := SizeLine(raw, f).value;
    var size := ParseSize(held[..p]).value;
    WireStep(raw + f.pending, size);
    assert |raw + f.pending| == |raw| + |f.pending| && |held[p + 2..] + g.pending| == |held[p + 2..]| + |g.pending|;
    ModerateRestAccepted(held[p + 2..], body, g, size);
  }

  lemma {:induction false} ModerateRestAccepted(raw: seq<Byte>, body: seq<Byte>, f: Feed, size: nat)
    requires Generous(f) && ModerateRest(size, raw + f.pending)
    requires var b := WireRest(size, raw + f.pending); b.Some? && |body| + |b.value| <= MAX_BODY_BYTES
    ensures AfterSizeLine(raw, body, f, size) == Ok(body + WireRest(size, raw + f.pending).value)
    decreases |raw| + |f.pending|, 0
  {
    hide TrailersEnd, ChunkBytes, Trailers, WireBody, WireRest, Generous, ReadBody, CrlfAt;
    CarriedChunk(size, raw + f.pending);
    if size == 0 {
      TrailersReached(raw, f);
      assert body + [] == body;
      EmptyRest(raw + f.pending);
    } else {
      ChunkReached(raw, f, size);
      ChunkMoves(raw, f, size);
      var (chunk, next) := ChunkBytes(raw, f, size).value;
      ChunkTaken(chunk, next.pending, size);
      assert |raw + f.pending| == |raw| + |f.pending| && |chunk + next.pending| == |chunk| + |next.pending|;
      ChunkSize(chunk, size);
      ModerateAccepted(chunk[size + 2..], body + chunk[..size], next);
      Associate(body, chunk[..size], WireBody(chunk[size + 2..] + next.pending).value);
    }
  }

  lemma ChunkSize(chunk: seq<Byte>, size: nat)
    requires CrlfAt(chunk, size)
    ensures size + 2 <= |chunk|
  {}

  lemma EmptyRest(rest: seq<Byte>)
    requires WireRest(0, rest).Some?
    ensures WireRest(0, rest) == Some([])
  {}

  // ---- Splits that make every other stream fail ----

  function Ones(k: nat): (splits: seq<nat>)
    ensures |splits| == k
  {
    seq(k, _ => 1)
  }

  /** One byte at a time. */
  lemma OneByte(raw: seq<Byte>, pending: seq<Byte>, k: nat, tail: seq<nat>, limit: nat)
    requires pending != [] && k > 0 && |raw| < limit + READ_BUFFER
    ensures More(raw, Feed(pending, Ones(k) + tail), limit)
         == Ok((raw + [pending[0]], Feed(pending[1..], Ones(k - 1) + tail)))
  {
    var splits := Ones(k) + tail;
    assert splits[1..] == Ones(k - 1) + tail;
    assert pending[..1] == [pending[0]];
  }

  lemma NotYet(raw: seq<Byte>, pending: seq<Byte>)
    requires |raw| <= FirstCrlf(raw + pending) + 1
    ensures FirstCrlf(raw) == |raw|
  {
    if FirstCrlf(raw) < |raw| {
      CrlfStays(raw, pending);
      FirstFits(raw);
    }
  }

  lemma {:induction false} SizeLineByBytes(raw: seq<Byte>, pending: seq<Byte>, k: nat, tail: seq<nat>)
    requires FirstCrlf(raw + pending) < |raw + pending| && |raw| <= FirstCrlf(raw + pending) + 1
    requires k >= FirstCrlf(raw + pending) + 2 - |raw|
    ensures var s, p := raw + pending, FirstCrlf(raw + pending);
      SizeLine(raw, Feed(pending, Ones(k) + tail)) ==
        if p < MAX_CHUNK_HEADER then Ok((s[..p + 2], p, Feed(s[p + 2..], Ones(k - (p + 2 - |raw|)) + tail)))
        else Err(TooLong)
    decreases |pending|
  {
    hide More, Ones, FirstCrlf, CrlfAt, SizeLine;
    var s, p := raw + pending, FirstCrlf(raw + pending);
    NotYet(raw, pending);
    FirstFits(s);
    if |raw| > MAX_CHUNK_HEADER {
      LineTooLong(raw, Feed(pending, Ones(k) + tail));
    } else {
      LineByte(raw, pending, k, tail);
      var next := raw + [pending[0]];
      assert next + pending[1..] == s;
      if |next| == p + 2 {
        assert next == s[..p + 2] && pending[1..] == s[p + 2..];
        LineEnds(s, p, Feed(pending[1..], Ones(k - 1) + tail));
      } else {
        SizeLineByBytes(next, pending[1..], k - 1, tail);
      }
    }
  }

  lemma LineTooLong(raw: seq<Byte>, f: Feed)
    requires FirstCrlf(raw) == |raw| > MAX_CHUNK_HEADER
    ensures SizeLine(raw, f) == Err(TooLong)
  {
    hide FirstCrlf, More;
  }

  lemma LineByte(raw: seq<Byte>, pending: seq<Byte>, k: nat, tail: seq<nat>)
    requires FirstCrlf(raw) == |raw| <= MAX_CHUNK_HEADER && pending != [] && k > 0
    ensures SizeLine(raw, Feed(pending, Ones(k) + tail))
         == SizeLine(raw + [pending[0]], Feed(pending[1..], Ones(k - 1) + tail))
  {
    hide FirstCrlf, More, Ones;
    OneByte(raw, pending, k, tail, MAX_BODY_BYTES);
  }

  lemma LineEnds(s: seq<Byte>, p: nat, f: Feed)
    requires p == FirstCrlf(s) && p + 2 <= |s|
    ensures SizeLine(s[..p + 2], f) == Ok((s[..p + 2], p, f))
  {
    hide FirstCrlf, More;
    FirstIn(s, p);
  }

  lemma FirstIn(s: seq<Byte>, p: nat)
    requires p == FirstCrlf(s) < |s|
    ensures p + 2 <= |s| && FirstCrlf(s[..p + 2]) == p
  {
    var t := s[..p + 2];
    assert CrlfAt(s, p) && CrlfAt(t, p);
    forall j: nat | j < p ensures !CrlfAt(t, j) {
      assert !CrlfAt(s, j);
    }
  }

  lemma {:induction false} ChunkByBytes(raw: seq<Byte>, pending: seq<Byte>, k: nat, tail: seq<nat>, size: nat)
    requires CrlfAt(raw + pending, size) && |raw| <= size + 2 && size <= MAX_BODY_BYTES && k >= size + 2 - |raw|
    ensures var s := raw + pending;
      ChunkBytes(raw, Feed(pending, Ones(k) + tail), size)
      == Ok((s[..size + 2], Feed(s[size + 2..], Ones(k - (size + 2 - |raw|)) + tail)))
    decreases |pending|
  {
    hide More, Ones;
    var s := raw + pending;
    if |raw| < size + 2 {
      OneByte(raw, pending, k, tail, MAX_BODY_BYTES);
      assert (raw + [pending[0]]) + pending[1..] == s;
      ChunkByBytes(raw + [pending[0]], pending[1..], k - 1, tail, size);
    } else {
      assert raw == s[..size + 2] && pending == s[size + 2..];
    }
  }

  lemma {:induction false} TrailersByBytes(raw: seq<Byte>, pending: seq<Byte>, k: nat)
    requires TrailersEnd(raw + pending) && !TrailersEnd(Start(raw + pending, MAX_HEADER_BYTES + 1))
    requires |raw| <= MAX_HEADER_BYTES + 1 && k >= |pending|
    ensures Trailers(raw, Feed(pending, Ones(k) + [])) == Err(TooLong)
    decreases |pending|
  {
    hide More, Ones, TrailersEnd;
    var s := raw + pending;
    assert |s| > MAX_HEADER_BYTES + 1;
    var start := Start(s, MAX_HEADER_BYTES + 1);
    assert start == raw + start[|raw|..];
    if TrailersEnd(raw) { TrailersStay(raw, start[|raw|..]); }
    if |raw| <= MAX_HEADER_BYTES {
      OneByte(raw, pending, k, [], MAX_HEADER_BYTES);
      assert (raw + [pending[0]]) + pending[1..] == s;
      TrailersByBytes(raw + [pending[0]], pending[1..], k - 1);
    }
  }

  /** The first chunk fills the whole 24 KiB and is followed by more than one read may bring. */
  ghost predicate Overfull(s: seq<Byte>) {
    var p := FirstCrlf(s);
    p < |s| && p < MAX_CHUNK_HEADER && ParseSize(s[..p]) == Some(MAX_BODY_BYTES)
    && |s[p + 2..]| > MAX_BODY_BYTES + READ_BUFFER
  }

  lemma {:induction false} FullChunkOverfills(raw: seq<Byte>, pending: seq<Byte>, k: nat, tail: seq<nat>)
    requires |raw| + k == MAX_BODY_BYTES + 1 && |raw| + |pending| > MAX_BODY_BYTES + READ_BUFFER
    ensures ChunkBytes(raw, Feed(pending, Ones(k) + ([READ_BUFFER] + tail)), MAX_BODY_BYTES) == Err(TooLong)
    decreases k
  {
    if k == 0 {
      assert Ones(0) + ([READ_BUFFER] + tail) == [READ_BUFFER] + tail;
    } else {
      hide More, Ones;
      OneByte(raw, pending, k, [READ_BUFFER] + tail, MAX_BODY_BYTES);
      FullChunkOverfills(raw + [pending[0]], pending[1..], k - 1, tail);
    }
  }

  lemma FoundInside(s: seq<Byte>)
    requires FirstCrlf(s) < |s|
    ensures FirstCrlf(s) + 2 <= |s|
  {}

  /** Byte by byte up to the last but one of the chunk and its terminator, then a full read. */
  lemma OverfullFails(s: seq<Byte>) returns (splits: seq<nat>)
    requires Overfull(s)
    ensures Generous(Feed(s, splits)) && ReadBody([], [], Feed(s, splits)) == Err(TooLong)
  {
    hide FirstCrlf, ParseSize, SizeLine, ChunkBytes, More, CrlfAt;
    var p := FirstCrlf(s);
    FoundInside(s);
    var k, tail := p + 2 + MAX_BODY_BYTES + 1, [READ_BUFFER] + Ones(|s|);
    splits := Ones(k) + tail;
    assert [] + s == s;
    SizeLineByBytes([], s, k, tail);
    var rest := s[p + 2..];
    assert s[..p + 2][..p] == s[..p] && s[..p + 2][p + 2..] == [];
    FullChunkOverfills([], rest, MAX_BODY_BYTES + 1, Ones(|s|));
    hide Ones;
    assert ReadBody([], [], Feed(s, splits)) ==
              AfterSizeLine([], [], Feed(rest, Ones(k - (p + 2)) + tail), MAX_BODY_BYTES);
  }

  /** Every other immoderate stream fails when it comes byte by byte. */
  lemma {:induction false} ImmoderateFails(s: seq<Byte>, body: seq<Byte>, k: nat)
    requires WireBody(s).Some? && |body| + |WireBody(s).value| <= MAX_BODY_BYTES
    requires !Moderate(s) && !Overfull(s) && k >= |s|
    ensures ReadBody([], body, Feed(s, Ones(k) + [])) == Err(TooLong)
    decreases |s|, 1
  {
    hide FirstCrlf, ParseSize, SizeLine, AfterSizeLine, ModerateRest, WireBody, WireRest, Ones;
    FramedStart(s);
    FirstFits(s);
    assert [] + s == s;
    SizeLineByBytes([], s, k, []);
    var p := FirstCrlf(s);
    if p < MAX_CHUNK_HEADER {
      var n := ParseSize(s[..p]).value;
      assert s[..p + 2][..p] == s[..p] && s[..p + 2][p + 2..] == [];
      WireStep(s, n);
      CarriedChunk(n, s[p + 2..]);
      ImmoderateRestFails(n, s[p + 2..], body, k - (p + 2));
    }
  }

  lemma {:induction false} ImmoderateRestFails(n: nat, rest: seq<Byte>, body: seq<Byte>, k: nat)
    requires WireRest(n, rest).Some? && |body| + |WireRest(n, rest).value| <= MAX_BODY_BYTES
    requires !ModerateRest(n, rest) && (n < MAX_BODY_BYTES || |rest| <= MAX_BODY_BYTES + READ_BUFFER) && k >= |rest|
    ensures AfterSizeLine([], body, Feed(rest, Ones(k) + []), n) == Err(TooLong)
    decreases |rest|, 0
  {
    hide FirstCrlf, ParseSize, ChunkBytes, Trailers, TrailersEnd, WireBody, WireRest, Ones, ReadBody, Moderate, Start;
    CarriedChunk(n, rest);
    assert [] + rest == rest;
    if n == 0 {
      EndedRest(rest);
      TrailersByBytes([], rest, k);
    } else {
      ChunkByBytes([], rest, k, [], n);
      var chunk, later := rest[..n + 2], rest[n + 2..];
      assert chunk[..n] == rest[..n] && chunk[n + 2..] == [];
      assert |body + chunk[..n]| == |body| + n;
      NotOverfull(later, body + chunk[..n]);
      ImmoderateFails(later, body + chunk[..n], k - (n + 2));
    }
  }

  lemma FirstFits(s: seq<Byte>)
    requires FirstCrlf(s) < |s|
    ensures FirstCrlf(s) + 2 <= |s|
  {
    assert CrlfAt(s, FirstCrlf(s));
  }

  lemma EndedRest(rest: seq<Byte>)
    requires WireRest(0, rest).Some?
    ensures TrailersEnd(rest)
  {}

  /** Behind a chunk there is no room left for one of the full 24 KiB. */
  lemma NotOverfull(s: seq<Byte>, body: seq<Byte>)
    requires WireBody(s).Some? && body != [] && |body| + |WireBody(s).value| <= MAX_BODY_BYTES
    ensures !Overfull(s)
  {
    hide FirstCrlf, ParseSize, WireBody, WireRest;
    if Overfull(s) {
      WireStep(s, MAX_BODY_BYTES);
      CarriedChunk(MAX_BODY_BYTES, s[FirstCrlf(s) + 2..]);
    }
  }

  /** A stream that carries a body begins with a complete size line. */
  lemma FramedStart(s: seq<Byte>)
    requires WireBody(s).Some?
    ensures FirstCrlf(s) < |s| && ParseSize(s[..FirstCrlf(s)]).Some?
  {}

  /** The first `k` bytes came with the headers, the rest in reads of these sizes. */
  ghost predicate Accepts(s: seq<Byte>, k: nat, splits: seq<nat>)
    requires k <= |s| && WireBody(s).Some?
  {
    ReadBody(s[..k], [], Feed(s[k..], splits)) == Ok(WireBody(s).value)
  }

  /** A stream with a body of at most 24 KiB is accepted for every split, however much of it
      came with the headers, exactly when it is moderate. */
  lemma AcceptedForEverySplit(s: seq<Byte>)
    requires WireBody(s).Some? && |WireBody(s).value| <= MAX_BODY_BYTES
    ensures Moderate(s) <==>
      forall k: nat, splits :: k <= |s| && Generous(Feed(s[k..], splits)) ==> Accepts(s, k, splits)
  {
    hide WireBody, Moderate, Generous, ReadBody, Overfull;
    if Moderate(s) {
      forall k: nat, splits | k <= |s| && Generous(Feed(s[k..], splits)) ensures Accepts(s, k, splits) {
        assert s[..k] + s[k..] == s;
        ModerateAccepted(s[..k], [], Feed(s[k..], splits));
        assert [] + WireBody(s).value == WireBody(s).value;
      }
    } else {
      var splits := RefusingSplit(s);
      assert s[0..] == s && s[..0] == [];
      assert !Accepts(s, 0, splits);
    }
  }

  /** Splits that refuse an immoderate stream although every byte of it arrives. */
  lemma RefusingSplit(s: seq<Byte>) returns (splits: seq<nat>)
    requires WireBody(s).Some? && |WireBody(s).value| <= MAX_BODY_BYTES && !Moderate(s)
    ensures Generous(Feed(s, splits)) && ReadBody([], [], Feed(s, splits)) == Err(TooLong)
  {
    hide WireBody, Moderate, ReadBody, Overfull;
    if Overfull(s) {
      splits := OverfullFails(s);
    } else {
      splits := Ones(|s|) + [];
      ImmoderateFails(s, [], |s|);
    }
  }

  /** A single chunk of exactly 24 KiB is such a stream when 1018 or more bytes follow the
      message: it carries its body, and some split refuses it. */
  lemma FullChunkRefused(data: seq<Byte>, after: seq<Byte>) returns (splits: seq<nat>)
    requires |data| == MAX_BODY_BYTES && |after| >= 1018
    ensures var s := Encoded([data]) + after;
      WireBody(s) == Some(data) && Generous(Feed(s, splits)) && ReadBody([], [], Feed(s, splits)) == Err(TooLong)
  {
    hide FirstCrlf, ParseSize, WireBody, ReadBody, ToHex, Generous, SizeLine;
    var s := Encoded([data]) + after;
    WireCarriesChunks([data], after);
    OneChunk(data);
    var digits, rest := ToHex(MAX_BODY_BYTES), data + CRLF + ([0x30] + CRLF + CRLF + after);
    assert s == digits + CRLF + rest;
    SizeRoundTrip(MAX_BODY_BYTES);
    LineFound(digits, rest);
    FourDigits();
    splits := OverfullFails(s);
  }

  lemma OneChunk(data: seq<Byte>)
    ensures Joined([data]) == data
    ensures Encoded([data]) == ToHex(|data|) + CRLF + data + CRLF + ([0x30] + CRLF + CRLF)
  {
    hide ToHex, Encoded, Joined;
    EncodedOne([data]);
    EncodedNone([data][1..]);
  }

  lemma EncodedOne(chunks: seq<seq<Byte>>)
    requires chunks != []
    ensures Joined(chunks) == chunks[0] + Joined(chunks[1..])
    ensures Encoded(chunks) == ToHex(|chunks[0]|) + CRLF + chunks[0] + CRLF + Encoded(chunks[1..])
  {
    hide ToHex;
  }

  lemma EncodedNone(chunks: seq<seq<Byte>>)
    requires chunks == []
    ensures Joined(chunks) == [] && Encoded(chunks) == [0x30] + CRLF + CRLF
  {}

  lemma FourDigits()
    ensures |ToHex(MAX_BODY_BYTES)| == 4
  {
    assert ToHex(MAX_BODY_BYTES / 16) == ToHex(96) + [HexDigit(0)];
    assert ToHex(96) == ToHex(6) + [HexDigit(0)];
  }

  // ---- The coding itself ----

  function HexDigit(d: nat): Byte
    requires d < 16
  {
    if d < 10 then 0x30 + d else 0x57 + d
  }

  function ToHex(n: nat): (s: seq<Byte>)
    ensures s != []
  {
    if n < 16 then [HexDigit(n)] else ToHex(n / 16) + [HexDigit(n % 16)]
  }

  const CRLF: seq<Byte> := [CR, LF]

  /** A chunked message: each chunk with its size in front, then the empty one. */
  function Encoded(chunks: seq<seq<Byte>>): seq<Byte> {
    if chunks == [] then [0x30] + CRLF + CRLF
    else ToHex(|chunks[0]|) + CRLF + chunks[0] + CRLF + Encoded(chunks[1..])
  }

  function Joined(chunks: seq<seq<Byte>>): seq<Byte> {
    if chunks == [] then [] else chunks[0] + Joined(chunks[1..])
  }

  lemma {:induction false} HexRoundTrip(n: nat)
    ensures HexDigits(ToHex(n)) == Some(n)
    ensures forall i :: 0 <= i < |ToHex(n)| ==> HexValue(ToHex(n)[i]).Some?
    decreases n
  {
    var s := ToHex(n);
    if n < 16 {
      assert s[..0] == [];
    } else {
      HexRoundTrip(n / 16);
      assert s[..|s| - 1] == ToHex(n / 16);
    }
  }

  lemma {:induction false} DigitsArePlain(s: seq<Byte>)
    requires forall i :: 0 <= i < |s| ==> HexValue(s[i]).Some?
    ensures UpToSemicolon(s) == s && Utf8.Decode(s).Some?
  {
    if s != [] {
      assert HexValue(s[0]).Some? && s[0] < 0x80;
      assert Utf8.DecodeOne(s) == Some((s[0] as char, 1));
      DigitsArePlain(s[1..]);
    }
  }

  lemma SizeRoundTrip(n: nat)
    requires n < SIZE_LIMIT
    ensures ParseSize(ToHex(n)) == Some(n)
    ensures forall i :: 0 <= i < |ToHex(n)| ==> ToHex(n)[i] != CR
  {
    hide HexDigits, Utf8.Decode, UpToSemicolon;
    HexRoundTrip(n);
    DigitsArePlain(ToHex(n));
    assert HexValue(ToHex(n)[0]).Some?;
  }

  lemma {:induction false} AllDigits(s: seq<Byte>)
    requires HexDigits(s).Some?
    ensures forall i :: 0 <= i < |s| ==> HexValue(s[i]).Some?
  {
    if s != [] { AllDigits(s[..|s| - 1]); }
  }

  lemma {:induction false} FieldEnds(digits: seq<Byte>, ext: seq<Byte>)
    requires forall i :: 0 <= i < |digits| ==> digits[i] != SEMICOLON
    requires ext == [] || ext[0] == SEMICOLON
    ensures UpToSemicolon(digits + ext) == digits
  {
    var s := digits + ext;
    if digits == [] {
      assert s == ext;
    } else {
      assert s[1..] == digits[1..] + ext;
      FieldEnds(digits[1..], ext);
    }
  }

  lemma {:induction false} FieldSplits(s: seq<Byte>) returns (ext: seq<Byte>)
    ensures s == UpToSemicolon(s) + ext && (ext == [] || ext[0] == SEMICOLON)
  {
    if s == [] || s[0] == SEMICOLON {
      ext := s;
    } else {
      ext := FieldSplits(s[1..]);
      Associate([s[0]], UpToSemicolon(s[1..]), ext);
      assert s == [s[0]] + s[1..];
    }
  }

  /** The forms of a size line: hex digits of either case, a plus in front of them allowed, an
      extension behind a semicolon allowed. */
  ghost predicate SizeForm(line: seq<Byte>, digits: seq<Byte>, ext: seq<Byte>) {
    && (line == digits + ext || line == [PLUS] + digits + ext)
    && digits != [] && (ext == [] || ext[0] == SEMICOLON)
  }

  lemma FormRead(line: seq<Byte>, digits: seq<Byte>, ext: seq<Byte>)
    requires SizeForm(line, digits, ext) && HexDigits(digits).Some? && Utf8.Decode(line).Some?
    ensures ParseSize(line) == if HexDigits(digits).value < SIZE_LIMIT then HexDigits(digits) else None
  {
    hide HexDigits, Utf8.Decode, UpToSemicolon;
    AllDigits(digits);
    assert HexValue(digits[0]).Some?;
    if line == digits + ext {
      FieldEnds(digits, ext);
    } else {
      var field := [PLUS] + digits;
      assert forall i :: 1 <= i < |field| ==> field[i] == digits[i - 1];
      FieldEnds(field, ext);
      assert field[1..] == digits;
    }
  }

  /** A size line is accepted exactly in these forms, with a size the machine can hold. */
  lemma SizeExactly(line: seq<Byte>, n: nat)
    ensures ParseSize(line) == Some(n) <==>
            n < SIZE_LIMIT && Utf8.Decode(line).Some?
            && exists digits, ext :: SizeForm(line, digits, ext) && HexDigits(digits) == Some(n)
  {
    hide HexDigits, Utf8.Decode, UpToSemicolon, SizeForm;
    if ParseSize(line) == Some(n) {
      var ext := FieldSplits(line);
      var field := UpToSemicolon(line);
      var digits := if field != [] && field[0] == PLUS then field[1..] else field;
      assert SizeForm(line, digits, ext) by { FormOf(line, field, digits, ext); }
    }
    if n < SIZE_LIMIT && Utf8.Decode(line).Some? {
      forall digits, ext | SizeForm(line, digits, ext) && HexDigits(digits) == Some(n)
        ensures ParseSize(line) == Some(n)
      {
        FormRead(line, digits, ext);
      }
    }
  }

  lemma FormOf(line: seq<Byte>, field: seq<Byte>, digits: seq<Byte>, ext: seq<Byte>)
    requires line == field + ext && (ext == [] || ext[0] == SEMICOLON) && digits != []
    requires digits == if field != [] && field[0] == PLUS then field[1..] else field
    ensures SizeForm(line, digits, ext)
  {
    if field != [] && field[0] == PLUS { assert field == [PLUS] + digits; }
  }

  /** Letters of either case mean the same digit. */
  lemma {:induction false} CaseIgnored(s: seq<Byte>, t: seq<Byte>)
    requires |s| == |t|
    requires forall i :: 0 <= i < |s| ==> t[i] == s[i] || (0x61 <= s[i] <= 0x66 && t[i] == s[i] - 0x20)
    ensures HexDigits(t) == HexDigits(s)
  {
    if s != [] { CaseIgnored(s[..|s| - 1], t[..|t| - 1]); }
  }

  lemma LineFound(digits: seq<Byte>, rest: seq<Byte>)
    requires forall i :: 0 <= i < |digits| ==> digits[i] != CR
    ensures var s := digits + CRLF + rest;
      FirstCrlf(s) == |digits| < |s| && s[..|digits|] == digits && s[|digits| + 2..] == rest
  {
    var s := digits + CRLF + rest;
    assert CrlfAt(s, |digits|);
    forall j: nat | j < |digits| ensures !CrlfAt(s, j) {
      assert s[j] == digits[j];
    }
  }

  /** The framing carries its chunks: what was coded is read back joined, whatever bytes the
      chunks hold and whatever follows the message. */
  lemma {:induction false} WireCarriesChunks(chunks: seq<seq<Byte>>, after: seq<Byte>)
    requires forall i :: 0 <= i < |chunks| ==> 0 < |chunks[i]| < SIZE_LIMIT
    ensures WireBody(Encoded(chunks) + after) == Some(Joined(chunks))
    decreases |chunks|
  {
    hide WireBody, FirstCrlf, ParseSize, ToHex, Encoded, Joined;
    if chunks == [] {
      EncodedNone(chunks);
      ZeroChunk(after);
    } else {
      EncodedOne(chunks);
      var data, n := chunks[0], |chunks[0]|;
      var digits, later := ToHex(n), Encoded(chunks[1..]) + after;
      var rest := data + CRLF + later;
      SizeRoundTrip(n);
      LineFound(digits, rest);
      assert Encoded(chunks) + after == digits + CRLF + rest;
      assert rest[n..n + 2] == CRLF && CrlfAt(rest, n) && rest[..n] == data && rest[n + 2..] == later;
      WireStep(digits + CRLF + rest, n);
      WireCarriesChunks(chunks[1..], after);
    }
  }

  lemma ZeroChunk(after: seq<Byte>)
    ensures WireBody([0x30] + CRLF + CRLF + after) == Some([])
  {
    hide WireBody;
    SizeRoundTrip(0);
    assert ToHex(0) == [0x30];
    LineFound([0x30], CRLF + after);
    assert [0x30] + CRLF + CRLF + after == [0x30] + CRLF + (CRLF + after);
    assert CrlfAt(CRLF + after, 0);
    WireStep([0x30] + CRLF + (CRLF + after), 0);
  }
}
