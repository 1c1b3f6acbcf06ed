/** One outbound Telegram request: the reconnect inside `post` and the retries around it, on a
    transport that may fail at any call. */
module SendOnce {
  import opened Common

  datatype Write = Head | Body

  /** What comes back once the body was written. */
  datatype Answer = MessageId(id: int) | Limited | Refused | Garbled | Unreadable

  /** The surroundings, asked by call number: whether a transport call succeeds, whether the
      connection has been idle too long, and what the response is. */
  datatype Oracle = Oracle(works: nat -> bool, idle: nat -> bool, answer: nat -> Answer)

  /** `messenger`: the worker has a client.  `usable`: its connection may still be used. */
  datatype World = World(step: nat, messenger: bool, usable: bool, writes: seq<Write>)

  datatype Posted = Answered(answer: Answer) | NotSent | OutcomeUnknown

  datatype SendResult = Delivered(id: int) | Http | Unknown | Json | RateLimited | Api | Timeout | Disconnected

  function Ticked(w: World): World {
    w.(step := w.step + 1)
  }

  // ---- One POST ----

  function EnsureConnected(o: Oracle, w: World): (World, bool) {
    if w.usable && !o.idle(w.step) then (w, true)
    else (Ticked(w).(usable := o.works(w.step)), o.works(w.step))
  }

  function DoPost(o: Oracle, w: World, emptyBody: bool): (World, Posted) {
    var headed := Ticked(w).(writes := w.writes + [Head]);
    if !o.works(w.step) then (headed, if emptyBody then OutcomeUnknown else NotSent)
    else
      var bodied := Ticked(headed).(writes := headed.writes + [Body]);
      if !o.works(headed.step) || o.answer(bodied.step).Unreadable? then (bodied, OutcomeUnknown)
      else (Ticked(bodied), Answered(o.answer(bodied.step)))
  }

  /** At most one more try, and only if the first never reached its body. */
  function Post(o: Oracle, w: World, emptyBody: bool): (World, Posted) {
    var (c, connected) := EnsureConnected(o, w);
    if !connected then (c, NotSent)
    else
      var (first, r) := DoPost(o, c, emptyBody);
      if r.Answered? then (first, r)
      else
        var closed := first.(usable := false);
        if !r.NotSent? then (closed, r)
        else
          var (again, reconnected) := EnsureConnected(o, closed);
          if !reconnected then (again, NotSent)
          else
            var (second, s) := DoPost(o, again, emptyBody);
            (if s.Answered? then second else second.(usable := false), s)
  }

  function ResultOf(p: Posted): SendResult {
    match p
    case NotSent => Http
    case OutcomeUnknown => Unknown
    case Answered(MessageId(id)) => if id > 0 then Delivered(id) else Json
    case Answered(Limited) => RateLimited
    case Answered(Refused) => Api
    case Answered(_) => Json
  }

  predicate Retryable(r: SendResult) {
    r.Http? || r.Disconnected?
  }

  // ---- The worker's retries ----

  /** One attempt; a client that failed to send is thrown away. */
  function Attempt(o: Oracle, w: World, emptyBody: bool): (World, SendResult) {
    var m := if w.messenger then w else Ticked(w).(messenger := o.works(w.step), usable := o.works(w.step));
    if !m.messenger then (m, Disconnected)
    else
      var (after, p) := Post(o, m, emptyBody);
      (if Retryable(ResultOf(p)) then after.(messenger := false) else after, ResultOf(p))
  }

  /** `more` retries fit before the time after which the device restarts instead. */
  function RunWithRetries(o: Oracle, w: World, emptyBody: bool, retry: bool, more: nat): (World, SendResult)
    decreases more
  {
    var (after, r) := Attempt(o, w, emptyBody);
    if !retry || !Retryable(r) then (after, r)
    else if more == 0 then (after, Timeout)
    else RunWithRetries(o, after, emptyBody, retry, more - 1)
  }

  // ---- At most once ----

  function Bodies(writes: seq<Write>): nat {
    if writes == [] then 0 else Bodies(writes[..|writes| - 1]) + (if writes[|writes| - 1].Body? then 1 else 0)
  }

  lemma BodiesAppend(writes: seq<Write>, x: Write)
    ensures Bodies(writes + [x]) == Bodies(writes) + if x.Body? then 1 else 0
  {
    assert (writes + [x])[..|writes|] == writes;
  }

  /** `NotSent` means the body was not touched; anything else touched it at most once. */
  lemma DoPostOnce(o: Oracle, w: World, emptyBody: bool)
    ensures var (after, p) := DoPost(o, w, emptyBody);
      && Bodies(w.writes) <= Bodies(after.writes) <= Bodies(w.writes) + 1
      && (p.NotSent? ==> Bodies(after.writes) == Bodies(w.writes))
      && (p.Answered? ==> Bodies(after.writes) == Bodies(w.writes) + 1)
  {
    BodiesAppend(w.writes, Head);
    BodiesAppend(w.writes + [Head], Body);
  }

  lemma PostOnce(o: Oracle, w: World, emptyBody: bool)
    ensures var (after, p) := Post(o, w, emptyBody);
      && Bodies(w.writes) <= Bodies(after.writes) <= Bodies(w.writes) + 1
      && (p.NotSent? ==> Bodies(after.writes) == Bodies(w.writes))
      && (p.Answered? ==> Bodies(after.writes) == Bodies(w.writes) + 1)
  {
    hide DoPost, Bodies;
    var (c, connected) := EnsureConnected(o, w);
    if connected {
      DoPostOnce(o, c, emptyBody);
      var (first, r) := DoPost(o, c, emptyBody);
      if r.NotSent? {
        var (again, reconnected) := EnsureConnected(o, first.(usable := false));
        if reconnected { DoPostOnce(o, again, emptyBody); }
      }
    }
  }

  /** Whatever the transport does and however often the send is retried, writing of the body
      starts at most once; exactly once when a message id comes back, and not at all when the
      send ends in an error that could be retried or in the restart deadline. */
  lemma {:induction false} AtMostOneBody(o: Oracle, w: World, emptyBody: bool, retry: bool, more: nat)
    ensures var (after, r) := RunWithRetries(o, w, emptyBody, retry, more);
      && Bodies(w.writes) <= Bodies(after.writes) <= Bodies(w.writes) + 1
      && (r.Delivered? ==> Bodies(after.writes) == Bodies(w.writes) + 1)
      && (Retryable(r) || r.Timeout? ==> Bodies(after.writes) == Bodies(w.writes))
    decreases more
  {
    hide Post, Bodies;
    var m := if w.messenger then w else Ticked(w).(messenger := o.works(w.step), usable := o.works(w.step));
    PostOnce(o, m, emptyBody);
    var (after, r) := Attempt(o, w, emptyBody);
    if retry && Retryable(r) && more > 0 { AtMostOneBody(o, after, emptyBody, retry, more - 1); }
  }

  lemma DoPostTouches(o: Oracle, w: World)
    ensures var (after, p) := DoPost(o, w, false);
      Bodies(after.writes) == Bodies(w.writes) + if p.NotSent? then 0 else 1
  {
    BodiesAppend(w.writes, Head);
    BodiesAppend(w.writes + [Head], Body);
  }

  lemma PostTouches(o: Oracle, w: World)
    ensures var (after, p) := Post(o, w, false);
      Bodies(after.writes) == Bodies(w.writes) + if p.NotSent? then 0 else 1
  {
    hide DoPost, Bodies;
    var (c, connected) := EnsureConnected(o, w);
    if connected {
      DoPostTouches(o, c);
      var (first, r) := DoPost(o, c, false);
      if r.NotSent? {
        var (again, reconnected) := EnsureConnected(o, first.(usable := false));
        if reconnected { DoPostTouches(o, again); }
      }
    }
  }

  /** An attempt to send a request with a body may be repeated exactly when the body was not
      begun: what can be repeated is, and nothing else. */
  lemma RetryableIffUntouched(o: Oracle, w: World)
    ensures var (after, r) := Attempt(o, w, false); Retryable(r) <==> Bodies(after.writes) == Bodies(w.writes)
  {
    hide Post, Bodies;
    PostTouches(o, if w.messenger then w else Ticked(w).(messenger := o.works(w.step), usable := o.works(w.step)));
  }

  function Heads(writes: seq<Write>): nat {
    if writes == [] then 0 else Heads(writes[..|writes| - 1]) + (if writes[|writes| - 1].Head? then 1 else 0)
  }

  lemma HeadsAppend(writes: seq<Write>, x: Write)
    ensures Heads(writes + [x]) == Heads(writes) + if x.Head? then 1 else 0
  {
    assert (writes + [x])[..|writes|] == writes;
  }

  lemma EmptyPostOnce(o: Oracle, w: World)
    ensures var (after, p) := Post(o, w, true);
      && Heads(w.writes) <= Heads(after.writes) <= Heads(w.writes) + 1
      && (p.NotSent? ==> after.writes == w.writes)
  {
    hide Heads;
    var (c, connected) := EnsureConnected(o, w);
    HeadsAppend(c.writes, Head);
    HeadsAppend(c.writes + [Head], Body);
  }

  /** A request without a body is complete with its head: however often the send is retried, not
      even the head is written twice. */
  lemma {:induction false} AtMostOneHead(o: Oracle, w: World, retry: bool, more: nat)
    ensures var (after, r) := RunWithRetries(o, w, true, retry, more);
      && Heads(w.writes) <= Heads(after.writes) <= Heads(w.writes) + 1
      && (Retryable(r) || r.Timeout? ==> Heads(after.writes) == Heads(w.writes))
    decreases more
  {
    hide Post, Heads;
    var m := if w.messenger then w else Ticked(w).(messenger := o.works(w.step), usable := o.works(w.step));
    EmptyPostOnce(o, m);
    var (after, r) := Attempt(o, w, true);
    if retry && Retryable(r) && more > 0 { AtMostOneHead(o, after, retry, more - 1); }
  }

  // ---- Retried until it is settled ----

  /** Attempt number `k`, each on what the one before it left. */
  function Tried(o: Oracle, w: World, emptyBody: bool, k: nat): (World, SendResult) {
    Attempt(o, if k == 0 then w else Tried(o, w, emptyBody, k - 1).0, emptyBody)
  }

  lemma {:induction false} TriedNext(o: Oracle, w: World, emptyBody: bool, k: nat)
    ensures Tried(o, w, emptyBody, k + 1) == Tried(o, Attempt(o, w, emptyBody).0, emptyBody, k)
    decreases k
  {
    hide Attempt;
    if k > 0 { TriedNext(o, w, emptyBody, k - 1); }
  }

  /** The first attempt that cannot be retried settles the send, if the deadline leaves room for
      it: every one before it was followed by another. */
  lemma {:induction false} RetriedUntilSettled(o: Oracle, w: World, emptyBody: bool, more: nat, k: nat)
    requires k <= more && !Retryable(Tried(o, w, emptyBody, k).1)
    requires forall j :: 0 <= j < k ==> Retryable(Tried(o, w, emptyBody, j).1)
    ensures RunWithRetries(o, w, emptyBody, true, more) == Tried(o, w, emptyBody, k)
    decreases k
  {
    hide Attempt;
    if k > 0 {
      var next := Attempt(o, w, emptyBody).0;
      assert Retryable(Tried(o, w, emptyBody, 0).1);
      TriedNext(o, w, emptyBody, k - 1);
      forall j | 0 <= j < k - 1 ensures Retryable(Tried(o, next, emptyBody, j).1) {
        TriedNext(o, w, emptyBody, j);
        assert Retryable(Tried(o, w, emptyBody, j + 1).1);
      }
      RetriedUntilSettled(o, next, emptyBody, more - 1, k - 1);
    }
  }

  /** When every attempt up to the deadline could be retried, the send ends in the deadline. */
  lemma {:induction false} ExhaustedTimesOut(o: Oracle, w: World, emptyBody: bool, more: nat)
    requires forall j :: 0 <= j <= more ==> Retryable(Tried(o, w, emptyBody, j).1)
    ensures RunWithRetries(o, w, emptyBody, true, more) == (Tried(o, w, emptyBody, more).0, Timeout)
    decreases more
  {
    hide Attempt;
    var next := Attempt(o, w, emptyBody).0;
    assert Retryable(Tried(o, w, emptyBody, 0).1);
    if more > 0 {
      TriedNext(o, w, emptyBody, more - 1);
      forall j | 0 <= j <= more - 1 ensures Retryable(Tried(o, next, emptyBody, j).1) {
        TriedNext(o, w, emptyBody, j);
        assert Retryable(Tried(o, w, emptyBody, j + 1).1);
      }
      ExhaustedTimesOut(o, next, emptyBody, more - 1);
    }
  }

  /** Without retries the first attempt is the result, whatever it is. */
  lemma UnretriedOnce(o: Oracle, w: World, emptyBody: bool, more: nat)
    ensures RunWithRetries(o, w, emptyBody, false, more) == Attempt(o, w, emptyBody)
  {}

  /** From call `n` on, every transport call succeeds and every answer is this message id. */
  ghost predicate WorksFrom(o: Oracle, n: nat, id: int) {
    (forall k :: k >= n ==> o.works(k)) && forall k :: k >= n ==> o.answer(k) == MessageId(id)
  }

  /** Wherever the transport starts to work, the next attempt delivers: the connection is made
      anew when it is gone or idle, or when it turns out dead under the request's head. */
  lemma AttemptDelivers(o: Oracle, w: World, emptyBody: bool, id: int)
    requires id > 0 && WorksFrom(o, w.step, id)
    ensures var (after, r) := Attempt(o, w, emptyBody); r == Delivered(id) && after.messenger && after.usable
  {}

  /** A connection that dies under the head of a request is replaced, and the request still goes
      out, once the body is not yet under way. */
  lemma DeadConnectionReplaced(o: Oracle, w: World, id: int)
    requires w.usable && !o.idle(w.step) && !o.works(w.step) && WorksFrom(o, w.step + 1, id)
    ensures var (after, p) := Post(o, w, false);
      && p == Answered(MessageId(id)) && after.usable
      && after.writes == w.writes + [Head] + [Head] + [Body]
  {}

  /** Nothing is written on a connection that has been idle too long: without a new one the
      request is not sent. */
  lemma IdleIsReplaced(o: Oracle, w: World, emptyBody: bool)
    requires (w.usable ==> o.idle(w.step)) && !o.works(w.step)
    ensures var (after, p) := Post(o, w, emptyBody); p == NotSent && after.writes == w.writes && !after.usable
  {}

  /** A send counts as delivered only with a positive message id the server gave. */
  lemma {:induction false} DeliveredHasId(o: Oracle, w: World, emptyBody: bool, retry: bool, more: nat)
    ensures var r := RunWithRetries(o, w, emptyBody, retry, more).1;
      r.Delivered? ==> r.id > 0 && exists n :: o.answer(n) == MessageId(r.id)
    decreases more
  {
    hide Attempt;
    AttemptHasId(o, w, emptyBody);
    var (after, r) := Attempt(o, w, emptyBody);
    if retry && Retryable(r) && more > 0 { DeliveredHasId(o, after, emptyBody, retry, more - 1); }
  }

  lemma AttemptHasId(o: Oracle, w: World, emptyBody: bool)
    ensures var r := Attempt(o, w, emptyBody).1; r.Delivered? ==> r.id > 0 && exists n :: o.answer(n) == MessageId(r.id)
  {}

  /** The send delivers as soon as the transport works again within the deadline. */
  lemma DeliversWhenItWorks(o: Oracle, w: World, emptyBody: bool, more: nat, k: nat, id: int)
    requires 0 < k <= more && id > 0 && WorksFrom(o, Tried(o, w, emptyBody, k - 1).0.step, id)
    requires forall j :: 0 <= j < k ==> Retryable(Tried(o, w, emptyBody, j).1)
    ensures RunWithRetries(o, w, emptyBody, true, more).1 == Delivered(id)
  {
    hide Attempt, WorksFrom;
    AttemptDelivers(o, Tried(o, w, emptyBody, k - 1).0, emptyBody, id);
    RetriedUntilSettled(o, w, emptyBody, more, k);
  }

  /** A client that could not send is thrown away. */
  lemma FailedClientDropped(o: Oracle, w: World, emptyBody: bool)
    ensures var (after, r) := Attempt(o, w, emptyBody); Retryable(r) ==> !after.messenger
  {
    hide Post;
  }

  // ---- The code ----

  class Worker {
    const oracle: Oracle
    var step: nat
    var messenger: bool
    var usable: bool
    var writes: seq<Write>

    ghost function View(): World
      reads this
    {
      World(step, messenger, usable, writes)
    }

    constructor (oracle: Oracle)
      ensures this.oracle == oracle && View() == World(0, false, false, [])
    {
      this.oracle := oracle;
      step, messenger, usable, writes := 0, false, false, [];
    }

    method Call() returns (ok: bool)
      modifies this`step
      ensures ok == oracle.works(old(step)) && step == old(step) + 1
    {
      ok := oracle.works(step);
      step := step + 1;
    }

    method Connect() returns (ok: bool)
      modifies this`step, this`usable
      ensures (View(), ok) == EnsureConnected(oracle, old(View()))
    {
      if usable && !oracle.idle(step) {
        return true;
      }
      usable := false;
      ok := Call();
      usable := ok;
    }

    method WriteRequest(emptyBody: bool) returns (r: Posted)
      modifies this`step, this`writes
      ensures (View(), r) == DoPost(oracle, old(View()), emptyBody)
    {
      writes := writes + [Head];
      var ok := Call();
      if !ok {
        return if emptyBody then OutcomeUnknown else NotSent;
      }
      writes := writes + [Body];
      ok := Call();
      if !ok {
        return OutcomeUnknown;
      }
      var answer := oracle.answer(step);
      if answer.Unreadable? {
        return OutcomeUnknown;
      }
      step := step + 1;
      return Answered(answer);
    }

    method PostJson(emptyBody: bool) returns (r: Posted)
      modifies this
      ensures (View(), r) == Post(oracle, old(View()), emptyBody)
    {
      hide DoPost;
      var ok := Connect();
      if !ok {
        return NotSent;
      }
      ghost var connected := View();
      var retried := false;
      while true
        invariant messenger == connected.messenger
        invariant !retried ==> View() == connected
        invariant retried ==> var (first, p) := DoPost(oracle, connected, emptyBody);
          p.NotSent? && EnsureConnected(oracle, first.(usable := false)) == (View(), true)
        decreases !retried
      {
        r := WriteRequest(emptyBody);
        if r.Answered? {
          return;
        }
        usable := false;
        if retried || !r.NotSent? {
          return;
        }
        retried := true;
        ok := Connect();
        if !ok {
          return NotSent;
        }
      }
    }

    method Try(emptyBody: bool) returns (r: SendResult)
      modifies this
      ensures (View(), r) == Attempt(oracle, old(View()), emptyBody)
    {
      hide Post;
      if !messenger {
        messenger := Call();
        usable := messenger;
      }
      if !messenger {
        return Disconnected;
      }
      var p := PostJson(emptyBody);
      r := ResultOf(p);
      if Retryable(r) {
        messenger := false;
      }
    }

    method SendWithRetries(emptyBody: bool, retry: bool, more: nat) returns (r: SendResult)
      modifies this
      ensures (View(), r) == RunWithRetries(oracle, old(View()), emptyBody, retry, more)
    {
      hide Attempt;
      var left := more;
      while true
        invariant RunWithRetries(oracle, View(), emptyBody, retry, left)
               == RunWithRetries(oracle, old(View()), emptyBody, retry, more)
        decreases left
      {
        r := Try(emptyBody);
        if !retry || !Retryable(r) {
          return;
        }
        if left == 0 {
          return Timeout;
        }
        left := left - 1;
      }
    }
  }
}
