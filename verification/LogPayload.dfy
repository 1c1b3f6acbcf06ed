/** Text form of one event-log entry, its byte budget, and the record checksum. */
module LogPayload {
  import opened Common
  import Bits
  import Utf8

  datatype LogKind = Sms | Call | System | Network | User | Ota

  datatype LogEntry = LogEntry(kind: LogKind, sender: string, body: string, timestamp: string, forwarded: bool)

  const PAYLOAD_SIZE: nat := 240

  function KindName(k: LogKind): string {
    match k
    case Sms => "sms"
    case Call => "call"
    case System => "system"
    case Network => "network"
    case User => "user"
    case Ota => "ota"
  }

  function ParseKind(s: string): Option<LogKind> {
    if s == "sms" then Some(Sms)
    else if s == "call" then Some(Call)
    else if s == "system" then Some(System)
    else if s == "network" then Some(Network)
    else if s == "user" then Some(User)
    else if s == "ota" then Some(Ota)
    else None
  }

  // ---- Escaping ----

  function EscapeChar(c: char): string {
    if c == '\\' then "\\\\"
    else if c == '\t' then "\\t"
    else if c == '\n' then "\\n"
    else if c == '\r' then "\\r"
    else [c]
  }

  function EscapedLen(c: char): nat {
    if c == '\\' || c == '\t' || c == '\n' || c == '\r' then 2 else Utf8.CharLen(c)
  }

  function EscapeField(s: string): string {
    if s == [] then [] else EscapeChar(s[0]) + EscapeField(s[1..])
  }

  function EscapedFieldLen(s: string): nat {
    if s == [] then 0 else EscapedLen(s[0]) + EscapedFieldLen(s[1..])
  }

  function UnescapeField(s: string): string {
    if s == [] then []
    else if s[0] != '\\' then [s[0]] + UnescapeField(s[1..])
    else if |s| == 1 then "\\"
    else
      (if s[1] == '\\' then "\\"
       else if s[1] == 't' then "\t"
       else if s[1] == 'n' then "\n"
       else if s[1] == 'r' then "\r"
       else ['\\', s[1]]) + UnescapeField(s[2..])
  }

  /** Number of leading characters of `s` whose escaped bytes fit `budget`. */
  function FitLen(s: string, budget: nat): (n: nat)
    ensures n <= |s|
  {
    if s == [] || EscapedLen(s[0]) > budget then 0
    else 1 + FitLen(s[1..], budget - EscapedLen(s[0]))
  }

  // ---- Payload ----

  function BaseLen(e: LogEntry): nat {
    1 + 1 + |KindName(e.kind)| + 1 + 1 + 1 + EscapedFieldLen(e.timestamp) + 1 + 1
  }

  function SenderBudget(e: LogEntry): nat
    requires BaseLen(e) <= PAYLOAD_SIZE
  {
    Min(EscapedFieldLen(e.sender), PAYLOAD_SIZE - BaseLen(e))
  }

  function BodyBudget(e: LogEntry): nat
    requires BaseLen(e) <= PAYLOAD_SIZE
  {
    PAYLOAD_SIZE - BaseLen(e) - SenderBudget(e)
  }

  /** The entry a reader gets back: the same fields, sender and body cut to what fits. */
  function Stored(e: LogEntry): LogEntry
    requires BaseLen(e) <= PAYLOAD_SIZE
  {
    e.(sender := e.sender[..FitLen(e.sender, SenderBudget(e))],
       body := e.body[..FitLen(e.body, BodyBudget(e))])
  }

  function Fields(e: LogEntry): (f: seq<string>)
    ensures |f| == 6
  {
    ["1", KindName(e.kind), if e.forwarded then "1" else "0",
     EscapeField(e.timestamp), EscapeField(e.sender), EscapeField(e.body)]
  }

  function JoinTabs(fields: seq<string>): string {
    if |fields| == 0 then ""
    else if |fields| == 1 then fields[0]
    else fields[0] + "\t" + JoinTabs(fields[1..])
  }

  function Text(e: LogEntry): string {
    JoinTabs(Fields(e))
  }

  function EncodePayload(e: LogEntry): Result<seq<Byte>, nat> {
    if BaseLen(e) > PAYLOAD_SIZE then Err(BaseLen(e)) else Ok(Utf8.Encode(Text(Stored(e))))
  }

  /** `payload.split('\t')`. */
  function Split(s: string): (parts: seq<string>)
    ensures |parts| >= 1
  {
    if s == [] then [""]
    else if s[0] == '\t' then [""] + Split(s[1..])
    else
      var rest := Split(s[1..]);
      [[s[0]] + rest[0]] + rest[1..]
  }

  function DecodePayload(bytes: seq<Byte>): Option<LogEntry> {
    match Utf8.Decode(bytes)
    case None => None
    case Some(text) =>
      var parts := Split(text);
      if |parts| != 6 || parts[0] != "1" then None
      else match ParseKind(parts[1])
        case None => None
        case Some(kind) =>
          Some(LogEntry(kind, UnescapeField(parts[4]), UnescapeField(parts[5]),
                        UnescapeField(parts[3]), parts[2] == "1"))
  }

  function PayloadKind(bytes: seq<Byte>): Option<LogKind> {
    match Utf8.Decode(bytes)
    case None => None
    case Some(text) =>
      var parts := Split(text);
      if |parts| < 2 || parts[0] != "1" then None else ParseKind(parts[1])
  }

  // ---- The loops of the encoder ----

  method PushEscaped(prefix: string, input: string) returns (out: string)
    ensures out == prefix + EscapeField(input)
  {
    hide EscapeChar;
    out := prefix;
    for i := 0 to |input|
      invariant out + EscapeField(input[i..]) == prefix + EscapeField(input)
    {
      assert input[i..][1..] == input[i + 1..];
      Associate(out, EscapeChar(input[i]), EscapeField(input[i + 1..]));
      out := out + EscapeChar(input[i]);
    }
  }

  lemma NothingEscaped(s: string, prefix: string)
    ensures prefix + EscapeField(s[..0]) == prefix
  {}

  method PushEscapedTruncated(prefix: string, input: string, budget: nat) returns (out: string)
    ensures out == prefix + EscapeField(input[..FitLen(input, budget)])
  {
    out := prefix;
    var used, i := 0, 0;
    hide EscapeField, EscapeChar, EscapedLen;
    NothingEscaped(input, prefix);
    while i < |input|
      invariant i <= |input| && used <= budget
      invariant FitLen(input, budget) == i + FitLen(input[i..], budget - used)
      invariant out == prefix + EscapeField(input[..i])
    {
      var len := EscapedLen(input[i]);
      if used + len > budget {
        break;
      }
      assert input[i..][1..] == input[i + 1..];
      EscapeFieldSnoc(input[..i], input[i]);
      assert input[..i + 1] == input[..i] + [input[i]];
      out := out + EscapeChar(input[i]);
      used, i := used + len, i + 1;
    }
  }

  method EncodeEntry(e: LogEntry) returns (r: Result<seq<Byte>, nat>)
    ensures r == EncodePayload(e)
  {
    var baseLen := BaseLen(e);
    if baseLen > PAYLOAD_SIZE {
      return Err(baseLen);
    }
    var available := PAYLOAD_SIZE - baseLen;
    var senderLen := EscapedFieldLen(e.sender);
    var senderBudget, bodyBudget := available, 0;
    if senderLen <= available {
      senderBudget, bodyBudget := senderLen, available - senderLen;
    }
    assert senderBudget == SenderBudget(e) && bodyBudget == BodyBudget(e);
    var flag := if e.forwarded then "1" else "0";
    var payload := "1" + "\t" + KindName(e.kind);
    payload := payload + "\t" + flag;
    payload := PushEscaped(payload + "\t", e.timestamp);
    payload := PushEscapedTruncated(payload + "\t", e.sender, senderBudget);
    payload := PushEscapedTruncated(payload + "\t", e.body, bodyBudget);
    JoinSix(Fields(Stored(e)));
    return Ok(Utf8.Encode(payload));
  }

  lemma JoinSix(f: seq<string>)
    requires |f| == 6
    ensures JoinTabs(f) == f[0] + "\t" + f[1] + "\t" + f[2] + "\t" + f[3] + "\t" + f[4] + "\t" + f[5]
  {
    hide JoinTabs;
    JoinOne(f);
    JoinUpTo(f, 1);
    JoinUpTo(f, 2);
    JoinUpTo(f, 3);
    JoinUpTo(f, 4);
    JoinUpTo(f, 5);
    assert f[..6] == f;
  }

  lemma JoinOne(f: seq<string>)
    requires |f| >= 1
    ensures JoinTabs(f[..1]) == f[0]
  {}

  lemma JoinUpTo(f: seq<string>, k: nat)
    requires 1 <= k < |f|
    ensures JoinTabs(f[..k + 1]) == JoinTabs(f[..k]) + "\t" + f[k]
  {
    hide JoinTabs;
    assert f[..k] + [f[k]] == f[..k + 1];
    JoinSnoc(f[..k], f[k]);
  }

  lemma {:induction false} JoinSnoc(f: seq<string>, x: string)
    requires |f| >= 1
    ensures JoinTabs(f + [x]) == JoinTabs(f) + "\t" + x
  {
    assert (f + [x])[1..] == f[1..] + [x];
    if |f| > 1 {
      JoinSnoc(f[1..], x);
      assert f[0] + "\t" + (JoinTabs(f[1..]) + "\t" + x) == f[0] + "\t" + JoinTabs(f[1..]) + "\t" + x;
    }
  }

  // ---- What the payload format promises ----

  lemma {:induction false} EscapeFieldSnoc(s: string, c: char)
    ensures EscapeField(s + [c]) == EscapeField(s) + EscapeChar(c)
  {
    if s == [] {
      assert EscapeField([c]) == EscapeChar(c) + EscapeField([]);
    } else {
      assert (s + [c])[1..] == s[1..] + [c];
      EscapeFieldSnoc(s[1..], c);
    }
  }

  lemma {:induction false} UnescapeEscape(s: string)
    ensures UnescapeField(EscapeField(s)) == s
  {
    if s != [] {
      UnescapeEscape(s[1..]);
      hide EscapeField;
      UnescapeOne(s[0], EscapeField(s[1..]));
      assert s == [s[0]] + s[1..];
      EscapeFirst(s);
    }
  }

  lemma EscapeFirst(s: string)
    requires s != []
    ensures EscapeField(s) == EscapeChar(s[0]) + EscapeField(s[1..])
  {}

  lemma UnescapeOne(c: char, rest: string)
    ensures UnescapeField(EscapeChar(c) + rest) == [c] + UnescapeField(rest)
  {
    var e := EscapeChar(c);
    assert (e + rest)[|e|..] == rest;
  }

  lemma {:induction false} EscapedFieldBytes(s: string)
    ensures |Utf8.Encode(EscapeField(s))| == EscapedFieldLen(s)
  {
    if s != [] {
      Utf8.EncodeConcat(EscapeChar(s[0]), EscapeField(s[1..]));
      EscapedFieldBytes(s[1..]);
      var e := EscapeChar(s[0]);
      if |e| == 2 {
        assert Utf8.Encode(e) == Utf8.EncodeChar(e[0]) + Utf8.Encode(e[1..]);
        assert Utf8.Encode(e[1..]) == Utf8.EncodeChar(e[1]) + Utf8.Encode([]);
      } else {
        assert Utf8.Encode(e) == Utf8.EncodeChar(e[0]) + Utf8.Encode([]);
      }
    }
  }

  predicate TabFree(s: string) {
    forall i :: 0 <= i < |s| ==> s[i] != '\t'
  }

  lemma {:induction false} EscapedIsTabFree(s: string)
    ensures TabFree(EscapeField(s))
  {
    if s != [] { EscapedIsTabFree(s[1..]); }
  }

  lemma {:induction false} SplitField(field: string, rest: string)
    requires TabFree(field)
    ensures Split(field) == [field]
    ensures Split(field + "\t" + rest) == [field] + Split(rest)
  {
    var s := field + "\t" + rest;
    if field == [] {
      assert s[1..] == rest;
    } else {
      assert s[1..] == field[1..] + "\t" + rest;
      SplitField(field[1..], rest);
      assert [field[0]] + field[1..] == field;
    }
  }

  lemma {:induction false} SplitJoin(f: seq<string>)
    requires |f| >= 1
    requires forall i :: 0 <= i < |f| ==> TabFree(f[i])
    ensures Split(JoinTabs(f)) == f
  {
    if |f| == 1 {
      SplitField(f[0], "");
    } else {
      SplitJoin(f[1..]);
      SplitField(f[0], JoinTabs(f[1..]));
    }
  }

  lemma SplitText(e: LogEntry)
    ensures Split(Text(e)) == Fields(e)
  {
    EscapedIsTabFree(e.timestamp);
    EscapedIsTabFree(e.sender);
    EscapedIsTabFree(e.body);
    SplitJoin(Fields(e));
  }

  lemma ParseKindName(k: LogKind)
    ensures ParseKind(KindName(k)) == Some(k)
  {}

  /** Every entry that encodes decodes to itself, up to the two truncated fields. */
  lemma PayloadRoundTrip(e: LogEntry)
    requires EncodePayload(e).Ok?
    ensures DecodePayload(EncodePayload(e).value) == Some(Stored(e))
    ensures PayloadKind(EncodePayload(e).value) == Some(e.kind)
  {
    var stored := Stored(e);
    var text := Text(stored);
    Utf8.RoundTrip(text);
    SplitText(stored);
    ParseKindName(e.kind);
    UnescapeEscape(stored.timestamp);
    UnescapeEscape(stored.sender);
    UnescapeEscape(stored.body);
  }

  /** An entry can be stored exactly when it can without its sender and body. */
  lemma EncodesExactly(e: LogEntry)
    ensures EncodePayload(e).Ok? <==> |Utf8.Encode(Text(e.(sender := "", body := "")))| <= 240
  {
    hide Utf8.Encode, Text;
    var bare := e.(sender := "", body := "");
    TextBytes(bare);
    assert BaseLen(bare) == BaseLen(e);
    assert EscapedFieldLen("") == 0;
  }

  lemma {:induction false} JoinSplit(s: string)
    ensures JoinTabs(Split(s)) == s && forall i :: 0 <= i < |Split(s)| ==> TabFree(Split(s)[i])
  {
    if s != [] {
      var rest := Split(s[1..]);
      JoinSplit(s[1..]);
      assert s == [s[0]] + s[1..];
      if s[0] == '\t' {
        assert ([""] + rest)[1..] == rest && |[""] + rest| > 1;
        assert "" + "\t" + JoinTabs(rest) == "\t" + JoinTabs(rest);
      } else {
        var parts := [[s[0]] + rest[0]] + rest[1..];
        assert parts[1..] == rest[1..];
        if |rest| > 1 { Associate([s[0]], rest[0], "\t" + JoinTabs(rest[1..])); JoinHead(rest); JoinHead(parts); }
      }
    }
  }

  lemma JoinHead(parts: seq<string>)
    requires |parts| > 1
    ensures JoinTabs(parts) == parts[0] + ("\t" + JoinTabs(parts[1..]))
  {
    Associate(parts[0], "\t", JoinTabs(parts[1..]));
  }

  /** A payload is an entry exactly when it is the text of six fields between tabs, the first
      the version and the second a known kind; the other four are the entry's, unescaped. */
  lemma DecodesExactly(bytes: seq<Byte>, e: LogEntry)
    ensures DecodePayload(bytes) == Some(e) <==>
            exists f: seq<string> :: FieldsOf(f, e) && Utf8.Decode(bytes) == Some(JoinTabs(f))
  {
    hide Utf8.Decode, UnescapeField, ParseKind, Split, JoinTabs;
    if DecodePayload(bytes) == Some(e) {
      var text := Utf8.Decode(bytes).value;
      JoinSplit(text);
      assert FieldsOf(Split(text), e);
    }
    forall f: seq<string> | FieldsOf(f, e) && Utf8.Decode(bytes) == Some(JoinTabs(f))
      ensures DecodePayload(bytes) == Some(e)
    {
      SplitJoin(f);
    }
  }

  predicate FieldsOf(f: seq<string>, e: LogEntry) {
    && |f| == 6 && (forall i :: 0 <= i < |f| ==> TabFree(f[i]))
    && f[0] == "1" && ParseKind(f[1]) == Some(e.kind) && e.forwarded == (f[2] == "1")
    && e.timestamp == UnescapeField(f[3]) && e.sender == UnescapeField(f[4]) && e.body == UnescapeField(f[5])
  }

  /** The kind is read of every payload that is an entry, and only behind the version. */
  lemma KindExactly(bytes: seq<Byte>, kind: LogKind)
    ensures DecodePayload(bytes).Some? ==> PayloadKind(bytes) == Some(DecodePayload(bytes).value.kind)
    ensures PayloadKind(bytes) == Some(kind) <==>
            exists f: seq<string> :: KindIn(f, kind) && Utf8.Decode(bytes) == Some(JoinTabs(f))
  {
    hide Utf8.Decode, UnescapeField, ParseKind, Split, JoinTabs;
    if PayloadKind(bytes) == Some(kind) {
      var text := Utf8.Decode(bytes).value;
      JoinSplit(text);
      assert KindIn(Split(text), kind);
    }
    forall f: seq<string> | KindIn(f, kind) && Utf8.Decode(bytes) == Some(JoinTabs(f))
      ensures PayloadKind(bytes) == Some(kind)
    {
      SplitJoin(f);
    }
  }

  predicate KindIn(f: seq<string>, kind: LogKind) {
    |f| >= 2 && (forall i :: 0 <= i < |f| ==> TabFree(f[i])) && f[0] == "1" && ParseKind(f[1]) == Some(kind)
  }

  /** Text that holds no escape sequence, lone backslashes among it, is kept as it is. */
  lemma {:induction false} UnescapedKept(s: string)
    requires forall i :: 0 <= i < |s| - 1 && s[i] == '\\' ==> s[i + 1] !in "\\tnr"
    ensures UnescapeField(s) == s
    decreases |s|
  {
    if s == [] {
    } else if s[0] != '\\' || |s| == 1 {
      assert s == [s[0]] + s[1..];
      forall i | 0 <= i < |s[1..]| - 1 && s[1..][i] == '\\' ensures s[1..][i + 1] !in "\\tnr" {
        assert s[i + 1] == '\\';
      }
      if |s| > 1 { UnescapedKept(s[1..]); }
    } else {
      assert s == [s[0], s[1]] + s[2..];
      assert s[1] !in "\\tnr";
      NotSpecial(s[1]);
      forall i | 0 <= i < |s[2..]| - 1 && s[2..][i] == '\\' ensures s[2..][i + 1] !in "\\tnr" {
        assert s[i + 2] == '\\';
      }
      UnescapedKept(s[2..]);
    }
  }

  lemma NotSpecial(c: char)
    requires c !in "\\tnr"
    ensures c != '\\' && c != 't' && c != 'n' && c != 'r'
  {
    var special := "\\tnr";
    assert special[0] == '\\' && special[1] == 't' && special[2] == 'n' && special[3] == 'r';
  }

  lemma {:induction false} FitLenFits(s: string, budget: nat)
    ensures EscapedFieldLen(s[..FitLen(s, budget)]) <= budget
  {
    if s != [] && EscapedLen(s[0]) <= budget {
      FitLenFits(s[1..], budget - EscapedLen(s[0]));
      var n := FitLen(s, budget);
      assert s[..n][1..] == s[1..][..n - 1];
    }
  }

  lemma {:induction false} FitLenMaximal(s: string, budget: nat, n: nat)
    requires FitLen(s, budget) < n <= |s|
    ensures EscapedFieldLen(s[..n]) > budget
  {
    assert s[..n][1..] == s[1..][..n - 1];
    if EscapedLen(s[0]) <= budget {
      FitLenMaximal(s[1..], budget - EscapedLen(s[0]), n - 1);
    }
  }

  lemma {:induction false} FitLenAll(s: string, budget: nat)
    requires EscapedFieldLen(s) <= budget
    ensures FitLen(s, budget) == |s|
  {
    if s != [] { FitLenAll(s[1..], budget - EscapedLen(s[0])); }
  }

  /** What a reader may rely on about truncation: nothing but sender and body
      changes, and each of them keeps its longest prefix that fits. */
  lemma StoredIsLongestPrefix(e: LogEntry)
    requires BaseLen(e) <= PAYLOAD_SIZE
    ensures var s := Stored(e);
            && s.kind == e.kind && s.timestamp == e.timestamp && s.forwarded == e.forwarded
            && s.sender <= e.sender && EscapedFieldLen(s.sender) <= PAYLOAD_SIZE - BaseLen(e)
            && s.body <= e.body
            && EscapedFieldLen(s.body) <= BodyBudget(e)
    ensures EscapedFieldLen(e.sender) <= PAYLOAD_SIZE - BaseLen(e) ==> Stored(e).sender == e.sender
    ensures EscapedFieldLen(e.body) <= BodyBudget(e) ==> Stored(e).body == e.body
    ensures forall n :: |Stored(e).sender| < n <= |e.sender| ==>
              EscapedFieldLen(e.sender[..n]) > PAYLOAD_SIZE - BaseLen(e)
    ensures forall n :: |Stored(e).body| < n <= |e.body| ==> EscapedFieldLen(e.body[..n]) > BodyBudget(e)
  {
    FitLenFits(e.sender, SenderBudget(e));
    FitLenFits(e.body, BodyBudget(e));
    if EscapedFieldLen(e.sender) <= PAYLOAD_SIZE - BaseLen(e) {
      FitLenAll(e.sender, SenderBudget(e));
      assert Stored(e).sender == e.sender;
    }
    if EscapedFieldLen(e.body) <= BodyBudget(e) {
      FitLenAll(e.body, BodyBudget(e));
      assert Stored(e).body == e.body;
    }
    forall n | |Stored(e).sender| < n <= |e.sender|
      ensures EscapedFieldLen(e.sender[..n]) > PAYLOAD_SIZE - BaseLen(e)
    {
      FitLenMaximal(e.sender, SenderBudget(e), n);
    }
    forall n | |Stored(e).body| < n <= |e.body|
      ensures EscapedFieldLen(e.body[..n]) > BodyBudget(e)
    {
      FitLenMaximal(e.body, BodyBudget(e), n);
    }
  }

  /** As much of the entry as its payload has room for: no longer sender would fit even without
      a body, no longer body would fit behind a whole sender, and behind a cut one there is none. */
  lemma StoredKeepsMost(e: LogEntry)
    requires BaseLen(e) <= PAYLOAD_SIZE
    ensures |Utf8.Encode(Text(Stored(e)))| <= PAYLOAD_SIZE
    ensures Stored(e) == e.(sender := Stored(e).sender, body := Stored(e).body)
    ensures Stored(e).sender <= e.sender && Stored(e).body <= e.body
    ensures forall n :: |Stored(e).sender| < n <= |e.sender| ==>
              |Utf8.Encode(Text(e.(sender := e.sender[..n], body := "")))| > PAYLOAD_SIZE
    ensures Stored(e).sender == e.sender ==>
              forall n :: |Stored(e).body| < n <= |e.body| ==>
                |Utf8.Encode(Text(e.(body := e.body[..n])))| > PAYLOAD_SIZE
    ensures Stored(e).sender != e.sender ==> Stored(e).body == ""
  {
    hide Utf8.Encode, Text, Stored, EscapedFieldLen;
    StoredIsLongestPrefix(e);
    TextBytes(Stored(e));
    SameBase(e, Stored(e));
    NothingEscapes();
    forall n | |Stored(e).sender| < n <= |e.sender|
      ensures |Utf8.Encode(Text(e.(sender := e.sender[..n], body := "")))| > PAYLOAD_SIZE
    {
      TextBytes(e.(sender := e.sender[..n], body := ""));
      SameBase(e, e.(sender := e.sender[..n], body := ""));
    }
    if Stored(e).sender == e.sender {
      forall n | |Stored(e).body| < n <= |e.body| ensures |Utf8.Encode(Text(e.(body := e.body[..n])))| > PAYLOAD_SIZE {
        TextBytes(e.(body := e.body[..n]));
        SameBase(e, e.(body := e.body[..n]));
      }
    } else if EscapedFieldLen(e.sender) > PAYLOAD_SIZE - BaseLen(e) {
      EscapedAtLeast(Stored(e).body);
    }
  }

  lemma SameBase(e: LogEntry, f: LogEntry)
    requires f == e.(sender := f.sender, body := f.body)
    ensures BaseLen(f) == BaseLen(e)
  {}

  lemma NothingEscapes()
    ensures EscapedFieldLen("") == 0
  {}

  lemma {:induction false} EscapedAtLeast(s: string)
    ensures EscapedFieldLen(s) >= |s|
  {
    if s != "" { EscapedAtLeast(s[1..]); }
  }

  lemma PayloadFits(e: LogEntry)
    requires EncodePayload(e).Ok?
    ensures |EncodePayload(e).value| <= PAYLOAD_SIZE
    ensures forall i :: 0 <= i < |EncodePayload(e).value| ==> EncodePayload(e).value[i] != 0xFF
  {
    StoredIsLongestPrefix(e);
    Utf8.NoErasedByte(Text(Stored(e)));
    TextBytes(Stored(e));
  }

  lemma TextBytes(e: LogEntry)
    ensures |Utf8.Encode(Text(e))| == BaseLen(e) + EscapedFieldLen(e.sender) + EscapedFieldLen(e.body)
  {
    hide JoinTabs, EscapeField, EscapedFieldLen, Utf8.Encode;
    JoinSixBytes(Fields(e));
    PlainBytes(e);
    EscapedFieldBytes(e.timestamp);
    EscapedFieldBytes(e.sender);
    EscapedFieldBytes(e.body);
  }

  lemma PlainBytes(e: LogEntry)
    ensures var f := Fields(e);
      |Utf8.Encode(f[0])| == 1 && |Utf8.Encode(f[1])| == |KindName(e.kind)| && |Utf8.Encode(f[2])| == 1
  {
    hide EscapeField, Utf8.Encode;
    var f := Fields(e);
    AsciiBytes(f[0]);
    AsciiBytes(f[1]);
    AsciiBytes(f[2]);
  }

  lemma JoinSixBytes(f: seq<string>)
    requires |f| == 6
    ensures |Utf8.Encode(JoinTabs(f))|
         == |Utf8.Encode(f[0])| + |Utf8.Encode(f[1])| + |Utf8.Encode(f[2])|
          + |Utf8.Encode(f[3])| + |Utf8.Encode(f[4])| + |Utf8.Encode(f[5])| + 5
  {
    hide JoinTabs, Utf8.Encode;
    var f1, f2, f3 := f[1..], f[2..], f[3..];
    var f4, f5 := f[4..], f[5..];
    assert f1[1..] == f2 && f2[1..] == f3 && f3[1..] == f4 && f4[1..] == f5;
    JoinBytes(f);
    JoinBytes(f1);
    JoinBytes(f2);
    JoinBytes(f3);
    JoinBytes(f4);
    JoinBytes(f5);
  }

  lemma JoinBytes(f: seq<string>)
    requires |f| >= 1
    ensures |Utf8.Encode(JoinTabs(f))| == |Utf8.Encode(f[0])| +
         (if |f| == 1 then 0 else 1 + |Utf8.Encode(JoinTabs(f[1..]))|)
  {
    if |f| > 1 { FieldBytes(f[0], JoinTabs(f[1..])); }
  }

  lemma FieldBytes(field: string, rest: string)
    ensures |Utf8.Encode(field + "\t" + rest)| == |Utf8.Encode(field)| + 1 + |Utf8.Encode(rest)|
  {
    Utf8.EncodeConcat(field + "\t", rest);
    Utf8.EncodeConcat(field, "\t");
    AsciiBytes("\t");
  }

  lemma {:induction false} AsciiBytes(s: string)
    requires forall i :: 0 <= i < |s| ==> s[i] as int < 0x80
    ensures |Utf8.Encode(s)| == |s|
  {
    if s != [] { AsciiBytes(s[1..]); }
  }

  // ---- Checksum (32-bit FNV-1a) ----

  const WORD: nat := 0x1_0000_0000

  function ChecksumStep(h: nat, b: Byte): (r: nat)
    ensures r < WORD
  {
    Bits.BitXor(h, b) * 0x0100_0193 % WORD
  }

  function ChecksumFrom(h: nat, bytes: seq<Byte>): (r: nat)
    ensures h < WORD ==> r < WORD
    decreases |bytes|
  {
    if bytes == [] then h else ChecksumFrom(ChecksumStep(h, bytes[0]), bytes[1..])
  }

  function Checksum(bytes: seq<Byte>): (r: nat)
    ensures r < WORD
  {
    ChecksumFrom(0x811C_9DC5, bytes)
  }

  method ComputeChecksum(bytes: seq<Byte>) returns (hash: nat)
    ensures hash == Checksum(bytes)
  {
    hash := 0x811C_9DC5;
    for i := 0 to |bytes|
      invariant Checksum(bytes) == ChecksumFrom(hash, bytes[i..])
    {
      hash := Bits.BitXor(hash, bytes[i]);
      hash := hash * 0x0100_0193 % WORD;
      assert bytes[i..][1..] == bytes[i + 1..];
    }
  }

  /** The published value of the 32-bit FNV-1a hash of "a"; hashing with the multiplication
      first, or without it, gives another one. */
  lemma ChecksumVector()
    ensures Checksum([]) == 0x811C_9DC5 && Checksum([0x61]) == 0xE40C_292C
  {
    hide ChecksumStep;
    assert [0x61 as Byte][1..] == [];
    Xored();
    VectorStep();
    assert ChecksumFrom(0x811C_9DC5, [0x61]) == ChecksumFrom(ChecksumStep(0x811C_9DC5, 0x61), []);
  }

  lemma VectorStep()
    requires Bits.BitXor(0x811C_9DC5, 0x61) == 0x811C_9DA4
    ensures ChecksumStep(0x811C_9DC5, 0x61) == 0xE40C_292C
  {
    hide Bits.BitXor;
  }

  lemma Xored()
    ensures Bits.BitXor(0x811C_9DC5, 0x61) == 0x811C_9DA4
  {
    hide Bits.BitXor;
    Bits.XorOne(0x811C_9DC5, 0x61);
    Bits.XorOne(0x408E_4EE2, 0x30);
    Bits.XorOne(0x2047_2771, 0x18);
    Bits.XorOne(0x1023_93B8, 0x0C);
    Bits.XorOne(0x0811_C9DC, 0x06);
    Bits.XorOne(0x0408_E4EE, 0x03);
    Bits.XorOne(0x0204_7277, 0x01);
    Bits.XorSymmetric(0x0102_393B, 0);
    Bits.XorOne(0, 0x0102_393B);
  }

  /** The multiplier has the inverse 0x359C449B modulo 2^32, so multiplication by it is injective. */
  lemma MultiplyInjective(x: nat, y: nat)
    requires x < WORD && y < WORD
    requires x * 0x0100_0193 % WORD == y * 0x0100_0193 % WORD
    ensures x == y
  {
    var kx, ky := x * 0x0100_0193 / WORD, y * 0x0100_0193 / WORD;
    SplitProduct(x * 0x0100_0193);
    SplitProduct(y * 0x0100_0193);
    Undone(x - y, kx - ky);
    OnlyZeroIsSmall(x - y, (kx - ky) * 0x359C_449B - (x - y) * 3_513_497);
  }

  lemma SplitProduct(p: nat)
    ensures p == p / WORD * 0x1_0000_0000 + p % WORD
  {}

  /** 0x01000193 * 0x359C449B is 3513497 * 2^32 + 1. */
  lemma Undone(u: int, k: int)
    requires u * 0x0100_0193 == k * 0x1_0000_0000
    ensures u == (k * 0x359C_449B - u * 3_513_497) * 0x1_0000_0000
  {
    assert u * 0x0100_0193 * 0x359C_449B == k * 0x1_0000_0000 * 0x359C_449B;
  }

  lemma OnlyZeroIsSmall(u: int, d: int)
    requires u == d * 0x1_0000_0000 && -0x1_0000_0000 < u < 0x1_0000_0000
    ensures u == 0
  {}

  lemma StepInjective(g: nat, h: nat, b: Byte, c: Byte)
    requires g < WORD && h < WORD
    ensures ChecksumStep(g, b) == ChecksumStep(h, b) ==> g == h
    ensures ChecksumStep(g, b) == ChecksumStep(g, c) ==> b == c
  {
    WordIsPow2();
    Bits.XorBound(32, g, b);
    Bits.XorBound(32, h, b);
    Bits.XorBound(32, g, c);
    if ChecksumStep(g, b) == ChecksumStep(h, b) {
      MultiplyInjective(Bits.BitXor(g, b), Bits.BitXor(h, b));
    }
    if ChecksumStep(g, b) == ChecksumStep(g, c) {
      MultiplyInjective(Bits.BitXor(g, b), Bits.BitXor(g, c));
    }
    Bits.XorInjective(g, h, b, c);
  }

  lemma WordIsPow2()
    ensures Bits.Pow2(32) == WORD
  {
    assert Bits.Pow2(8) == 256;
    assert Bits.Pow2(16) == 65536;
    assert Bits.Pow2(24) == 16777216;
  }

  lemma {:induction false} ChecksumFromInjective(g: nat, h: nat, bytes: seq<Byte>)
    requires g < WORD && h < WORD && g != h
    ensures ChecksumFrom(g, bytes) != ChecksumFrom(h, bytes)
    decreases |bytes|
  {
    if bytes != [] {
      StepInjective(g, h, bytes[0], 0);
      ChecksumFromInjective(ChecksumStep(g, bytes[0]), ChecksumStep(h, bytes[0]), bytes[1..]);
    }
  }

  lemma {:induction false} OneByteChangesChecksum(h: nat, bytes: seq<Byte>, i: nat, b: Byte)
    requires h < WORD && i < |bytes| && bytes[i] != b
    ensures ChecksumFrom(h, bytes[i := b]) != ChecksumFrom(h, bytes)
    decreases i
  {
    var changed := bytes[i := b];
    if i == 0 {
      StepInjective(h, h, bytes[0], b);
      assert changed[1..] == bytes[1..];
      ChecksumFromInjective(ChecksumStep(h, b), ChecksumStep(h, bytes[0]), bytes[1..]);
    } else {
      assert changed[1..] == bytes[1..][i - 1 := b];
      OneByteChangesChecksum(ChecksumStep(h, bytes[0]), bytes[1..], i - 1, b);
    }
  }
}
