/** What the Telegram cursor loses, which is nothing: every message of every answer the polling
    thread accepts is handled, once and in the order served. */
module TelegramRuns {
  import opened Common
  import opened TelegramCursor

  // ---- One answer ----

  function IsInbound(u: Update): bool { u.inbound }

  function Ids(updates: seq<Update>): (ids: seq<int>)
    ensures |ids| == |updates|
  {
    seq(|updates|, i requires 0 <= i < |updates| => updates[i].id)
  }

  /** The messages of an answer: the inbound updates, in the order served. */
  function Messages(updates: seq<Update>): seq<int> {
    Ids(Keep(updates, IsInbound))
  }

  lemma {:induction false} CollectsInbound(updates: seq<Update>, since: int)
    ensures Collect(updates, since).messages == Messages(updates)
  {
    if updates == [] {
      assert Keep(updates, IsInbound) == [];
    } else {
      var n := |updates| - 1;
      CollectsInbound(updates[..n], since);
      assert updates == updates[..n] + [updates[n]];
      KeepConcat(updates[..n], [updates[n]], IsInbound);
      KeepOne(updates[n]);
    }
  }

  lemma KeepOne(u: Update)
    ensures Keep([u], IsInbound) == if u.inbound then [u] else []
  {
    assert [u][1..] == [];
  }

  /** The next cursor is the least one that is past the old one and every update, filtered ones
      included. */
  lemma {:induction false} NextIsLeast(updates: seq<Update>, since: int)
    ensures var next := Collect(updates, since).next;
      && next >= since && (forall i :: 0 <= i < |updates| ==> After(updates[i].id) <= next)
      && (next == since || exists i :: 0 <= i < |updates| && After(updates[i].id) == next)
  {
    if updates != [] {
      var n := |updates| - 1;
      NextIsLeast(updates[..n], since);
      var next := Collect(updates[..n], since).next;
      forall i | 0 <= i < |updates| ensures After(updates[i].id) <= Collect(updates, since).next {
        if i < n { assert updates[..n][i] == updates[i]; }
      }
      if next != since && next >= After(updates[n].id) {
        var i :| 0 <= i < n && After(updates[..n][i].id) == next;
        assert After(updates[i].id) == next;
      }
    }
  }

  // ---- Whole runs ----

  /** Messages in the channel, front first. */
  function Flow(channel: seq<PollEvent>): seq<int> {
    if channel == [] then []
    else (if channel[0].Polled? then channel[0].batch.messages else []) + Flow(channel[1..])
  }

  function HeldMessages(held: Option<Batch>): seq<int> {
    if held.Some? then held.value.messages else []
  }

  /** What waits to be handled, next one first. */
  function Waiting(st: State): seq<int> {
    st.inbox + HeldMessages(st.held) + Flow(st.channel)
  }

  /** Messages of the answers that the polling thread accepts along the run. */
  function Offered(st: State, es: seq<Event>): seq<int>
    decreases |es|
  {
    if es == [] then []
    else
      (if es[0].ServerAnswers? && st.phase.Polling? && |st.channel| < CHANNEL_CAPACITY
       then Messages(es[0].updates) else []) + Offered(Step(st, es[0]), es[1..])
  }

  predicate NoReboot(es: seq<Event>) {
    forall i :: 0 <= i < |es| ==> !es[i].Reboot?
  }

  lemma {:induction false} FlowConcat(a: seq<PollEvent>, b: seq<PollEvent>)
    ensures Flow(a + b) == Flow(a) + Flow(b)
  {
    if a == [] {
      assert a + b == b;
    } else {
      assert (a + b)[1..] == a[1..] + b;
      FlowConcat(a[1..], b);
      Associate(if a[0].Polled? then a[0].batch.messages else [], Flow(a[1..]), Flow(b));
    }
  }

  lemma FlowOne(e: PollEvent)
    ensures Flow([e]) == if e.Polled? then e.batch.messages else []
  {
    assert [e][1..] == [];
  }

  /** A batch with messages waits in one place only. */
  lemma {:induction false} FlowQuiet(channel: seq<PollEvent>)
    requires Wanting(channel) == 0
    requires forall i :: 0 <= i < |channel| && channel[i].Polled? && !channel[i].wantsAck ==>
               channel[i].batch.messages == []
    ensures Flow(channel) == []
  {
    if channel != [] { FlowQuiet(channel[1..]); }
  }

  lemma {:induction false} DrainedWaiting(st: State, n: nat)
    requires Inv(st)
    ensures var d := Drained(st, n); Waiting(d) == Waiting(st) && d.dispatched == st.dispatched && d.cursor == st.cursor
    decreases n
  {
    hide Distinct;
    if n > 0 && st.channel != [] {
      var rest := st.(channel := st.channel[1..]);
      match st.channel[0] {
        case Notice =>
          assert [] + Flow(st.channel[1..]) == Flow(st.channel[1..]);
          DrainedWaiting(rest, n - 1);
        case Polled(b, false) =>
          assert b.messages == [] && st.inbox + b.messages == st.inbox;
          assert [] + Flow(st.channel[1..]) == Flow(st.channel[1..]);
          DrainedWaiting(rest.(inbox := st.inbox + b.messages), n - 1);
        case Polled(b, true) =>
          NothingHeldYet(st);
          assert st.inbox + [] == st.inbox;
          Associate(st.inbox, b.messages, Flow(st.channel[1..]));
      }
    }
  }

  /** What is handled and what waits, before and after one event. */
  lemma StepFlow(st: State, e: Event)
    requires Inv(st) && !e.Reboot?
    ensures Step(st, e).dispatched + Waiting(Step(st, e)) == (st.dispatched + Waiting(st)) + Offered(st, [e])
  {
    hide Inv, Collect, Drained, Messages;
    OfferedOne(st, e);
    var was := st.dispatched + Waiting(st);
    assert was + [] == was;
    match e {
      case ServerAnswers(updates) =>
        if st.phase.Polling? && |st.channel| < CHANNEL_CAPACITY {
          CollectsInbound(updates, st.cursor);
          var b := Collect(updates, st.cursor);
          Queued(st, Polled(b, b.next > st.cursor), b.messages);
        }
      case Notes => Queued(st, Notice, []);
      case Drain => DrainedWaiting(st, MAX_EVENTS_PER_PASS);
      case Checkpoint(write) => assert st.inbox + HeldMessages(st.held) + [] == st.inbox + HeldMessages(st.held);
      case DispatchOne =>
        if st.inbox != [] { Taken(st.dispatched, st.inbox, HeldMessages(st.held), Flow(st.channel)); }
      case _ =>
    }
  }

  lemma OfferedOne(st: State, e: Event)
    ensures Offered(st, [e]) ==
      if e.ServerAnswers? && st.phase.Polling? && |st.channel| < CHANNEL_CAPACITY then Messages(e.updates) else []
  {
    hide Step, Messages;
    assert [e][1..] == [];
    assert Offered(Step(st, e), []) == [];
  }

  lemma Queued(st: State, e: PollEvent, messages: seq<int>)
    requires messages == if e.Polled? then e.batch.messages else []
    ensures st.dispatched + Waiting(st.(channel := st.channel + [e])) == (st.dispatched + Waiting(st)) + messages
  {
    FlowConcat(st.channel, [e]);
    FlowOne(e);
    hide Flow, HeldMessages;
    var ahead := st.inbox + HeldMessages(st.held);
    Associate(ahead, Flow(st.channel), messages);
    Associate(st.dispatched, ahead + Flow(st.channel), messages);
  }

  lemma Taken(dispatched: seq<int>, inbox: seq<int>, held: seq<int>, flow: seq<int>)
    requires inbox != []
    ensures (dispatched + [inbox[0]]) + (inbox[1..] + held + flow) == dispatched + (inbox + held + flow)
  {
    assert inbox == [inbox[0]] + inbox[1..];
  }

  lemma {:induction false} RunFlow(st: State, es: seq<Event>)
    requires Inv(st) && ServerFair(st, es) && NoReboot(es)
    ensures var end := Run(st, es); end.dispatched + Waiting(end) == (st.dispatched + Waiting(st)) + Offered(st, es)
    decreases |es|
  {
    hide Inv, Step, Served, Waiting, Messages;
    if es == [] {
      assert (st.dispatched + Waiting(st)) + [] == st.dispatched + Waiting(st);
    } else {
      var next := Step(st, es[0]);
      StepInv(st, es[0]);
      StepFlow(st, es[0]);
      OfferedOne(st, es[0]);
      RunFlow(next, es[1..]);
      Associate(st.dispatched + Waiting(st), Offered(st, [es[0]]), Offered(next, es[1..]));
    }
  }

  /** Nothing that still waits is below the offset the polling thread sends. */
  ghost predicate Ahead(st: State) {
    && Quiet(st) && forall i :: 0 <= i < |st.inbox| ==> st.inbox[i] >= st.cursor
  }

  lemma StepAhead(st: State, e: Event)
    requires Inv(st) && Ahead(st) && !e.Reboot?
    ensures Ahead(Step(st, e))
  {
    hide HandledOk, Tokens, Distinct, Collect, Drained;
    QuietStep(st, e);
    match e {
      case Drain => if st.inbox == [] && !st.ackDue { DrainedInbox(st, MAX_EVENTS_PER_PASS); }
      case _ =>
    }
  }

  lemma {:induction false} DrainedInbox(st: State, n: nat)
    requires Inv(st)
    ensures Drained(st, n).inbox == st.inbox && Drained(st, n).cursor == st.cursor
    decreases n
  {
    hide Distinct;
    if n > 0 && st.channel != [] {
      var rest := st.(channel := st.channel[1..]);
      match st.channel[0] {
        case Notice => DrainedInbox(rest, n - 1);
        case Polled(b, false) =>
          assert b.messages == [] && st.inbox + b.messages == st.inbox;
          DrainedInbox(rest.(inbox := st.inbox + b.messages), n - 1);
        case Polled(b, true) =>
      }
    }
  }

  lemma {:induction false} RunAhead(st: State, es: seq<Event>)
    requires Inv(st) && Ahead(st) && ServerFair(st, es) && NoReboot(es)
    ensures Inv(Run(st, es)) && Ahead(Run(st, es))
    decreases |es|
  {
    hide Inv, Ahead, Step, Served;
    if es != [] {
      StepInv(st, es[0]);
      StepAhead(st, es[0]);
      RunAhead(Step(st, es[0]), es[1..]);
    }
  }

  lemma {:induction false} FlowAhead(channel: seq<PollEvent>, low: int)
    requires forall i, m :: 0 <= i < |channel| && channel[i].Polled? && m in channel[i].batch.messages ==> m >= low
    ensures forall m :: m in Flow(channel) ==> m >= low
  {
    if channel != [] { FlowAhead(channel[1..], low); }
  }

  lemma WaitingAhead(st: State)
    requires Inv(st) && Ahead(st)
    ensures forall m :: m in Waiting(st) ==> m >= st.cursor
  {
    hide HandledOk, Tokens, CursorOk, Distinct;
    FlowAhead(st.channel, st.cursor);
  }

  /** Between two boots nothing is lost, repeated or reordered, however the threads interleave
      and whichever writes fail: what has been handled is what the server offered, but for
      messages that still wait, and none of those is below the offset it is asked for. */
  lemma {:induction false} EveryUpdateHandled(store: int, es: seq<Event>)
    requires ServerFair(Booted(store, []), es) && NoReboot(es)
    ensures var end := Run(Booted(store, []), es);
      && Offered(Booted(store, []), es) == end.dispatched + Waiting(end)
      && Distinct(end.dispatched)
      && forall m :: m in Waiting(end) ==> m >= end.cursor
  {
    hide Run, ServerFair, Inv, Offered, Ahead, Waiting;
    var st := Booted(store, []);
    FirstBoot(store);
    assert Ahead(st) by { NothingAhead(store); }
    assert Waiting(st) == [] by { NothingAhead(store); }
    RunFlow(st, es);
    RunAhead(st, es);
    WaitingAhead(Run(st, es));
    AtMostOnce(store, es);
    assert ([] + []) + Offered(st, es) == Offered(st, es);
  }

  lemma NothingAhead(store: int)
    ensures Ahead(Booted(store, [])) && Waiting(Booted(store, [])) == []
  {}

  // ---- One whole round ----

  /** Polling, with nothing on its way. */
  predicate Idle(st: State) {
    st.phase.Polling? && st.channel == [] && st.held.None? && st.inbox == [] && !st.ackDue && !st.ackSent
    && st.cursor == st.persisted == st.store
  }

  function Dispatches(n: nat): (es: seq<Event>)
    ensures |es| == n
  {
    seq(n, _ => DispatchOne)
  }

  lemma {:induction false} DispatchAll(st: State)
    ensures Run(st, Dispatches(|st.inbox|)) == st.(dispatched := st.dispatched + st.inbox, inbox := [])
    decreases |st.inbox|
  {
    if st.inbox == [] {
      assert st.dispatched + [] == st.dispatched;
    } else {
      var next := Step(st, DispatchOne);
      assert Dispatches(|st.inbox|)[1..] == Dispatches(|next.inbox|);
      DispatchAll(next);
      assert (st.dispatched + [st.inbox[0]]) + st.inbox[1..] == st.dispatched + st.inbox;
    }
  }

  lemma {:induction false} RunConcat(st: State, a: seq<Event>, b: seq<Event>)
    ensures Run(st, a + b) == Run(Run(st, a), b)
    decreases |a|
  {
    hide Step;
    if a == [] {
      assert a + b == b;
    } else {
      assert (a + b)[1..] == a[1..] + b;
      RunConcat(Step(st, a[0]), a[1..], b);
    }
  }

  lemma RunOne(st: State, a: Event)
    ensures Run(st, [a]) == Step(st, a)
  {
    hide Step;
    assert [a][1..] == [] && Run(Step(st, a), []) == Step(st, a);
  }

  lemma RunTwo(st: State, a: Event, b: Event)
    ensures Run(st, [a, b]) == Step(Step(st, a), b)
  {
    hide Step;
    assert [a, b][1..] == [b] && [b][1..] == [];
    assert Run(Step(st, a), [b]) == Run(Step(Step(st, a), b), []);
  }

  /** Until a write reports success the batch is held back whole: its messages wait for no one and
      no acknowledgement is owed for it. */
  lemma UnstoredIsHeld(store: int, es: seq<Event>, write: Write)
    requires ServerFair(Booted(store, []), es) && !write.Written?
    ensures var st := Run(Booted(store, []), es);
      var after := Step(st, Checkpoint(write));
      after == st.(store := after.store)
  {
    hide Run, ServerFair, Inv;
    FirstBoot(store);
    RunInv(Booted(store, []), es);
    HeldIsNew(Run(Booted(store, []), es));
  }

  lemma HeldIsNew(st: State)
    requires Inv(st)
    ensures st.held.Some? && !st.ackDue ==> st.held.value.next > st.persisted
  {}

  /** The channel never holds more than eight events, so one pass of draining empties it, unless
      it stops at a batch that must be stored first. */
  lemma {:induction false} ChannelBounded(store: int, es: seq<Event>)
    ensures |Run(Booted(store, []), es).channel| <= 8
  {
    hide Run;
    RunBounded(Booted(store, []), es);
  }

  lemma {:induction false} RunBounded(st: State, es: seq<Event>)
    requires |st.channel| <= 8
    ensures |Run(st, es).channel| <= 8
    decreases |es|
  {
    hide Step;
    if es != [] {
      StepBounded(st, es[0]);
      RunBounded(Step(st, es[0]), es[1..]);
    }
  }

  lemma StepBounded(st: State, e: Event)
    requires |st.channel| <= 8
    ensures |Step(st, e).channel| <= 8
  {
    hide Collect, Drained;
    if e.Drain? { DrainedShorter(st, MAX_EVENTS_PER_PASS); }
  }

  lemma {:induction false} DrainedShorter(st: State, n: nat)
    ensures |Drained(st, n).channel| <= |st.channel|
    ensures n >= |st.channel| ==> Drained(st, n).channel == [] || Drained(st, n).held.Some?
    decreases n
  {
    hide Drained;
    DrainedStep(st, n);
    if n > 0 && st.channel != [] {
      var rest := st.(channel := st.channel[1..]);
      match st.channel[0] {
        case Notice => DrainedShorter(rest, n - 1);
        case Polled(b, false) => DrainedShorter(rest.(inbox := st.inbox + b.messages), n - 1);
        case Polled(b, true) =>
      }
    }
  }

  lemma DrainEmpties(store: int, es: seq<Event>)
    ensures var st := Run(Booted(store, []), es);
      st.inbox == [] && !st.ackDue ==> var after := Step(st, Drain); after.channel == [] || after.held.Some?
  {
    hide Run, Drained;
    ChannelBounded(store, es);
    DrainedShorter(Run(Booted(store, []), es), MAX_EVENTS_PER_PASS);
  }

  /** An answer with anything new, taken, stored, handled and acknowledged, moves the offset past
      it and leaves nothing behind. */
  lemma {:induction false} RoundCompletes(st: State, updates: seq<Update>)
    requires Idle(st) && Collect(updates, st.cursor).next > st.cursor
    ensures var ids, next := Messages(updates), Collect(updates, st.cursor).next;
      Run(st, ([ServerAnswers(updates), Drain] + [Checkpoint(Written)]) + (Dispatches(|ids|) + [SendAck, AckArrives]))
      == st.(store := next, cursor := next, persisted := next, dispatched := st.dispatched + ids)
  {
    hide Collect, Messages, Run, Dispatches;
    CollectsInbound(updates, st.cursor);
    var b := Collect(updates, st.cursor);
    RunConcat(st, [ServerAnswers(updates), Drain] + [Checkpoint(Written)],
              Dispatches(|b.messages|) + [SendAck, AckArrives]);
    RunConcat(st, [ServerAnswers(updates), Drain], [Checkpoint(Written)]);
    RunTwo(st, ServerAnswers(updates), Drain);
    var taken := TakenBatch(st, updates);
    RunOne(taken, Checkpoint(Written));
    assert [] + b.messages == b.messages;
    var stored := Step(taken, Checkpoint(Written));
    assert stored.inbox == b.messages;
    RunConcat(stored, Dispatches(|b.messages|), [SendAck, AckArrives]);
    DispatchAll(stored);
    RunTwo(stored.(dispatched := st.dispatched + b.messages, inbox := []), SendAck, AckArrives);
  }

  lemma TakenBatch(st: State, updates: seq<Update>) returns (taken: State)
    requires Idle(st) && Collect(updates, st.cursor).next > st.cursor
    ensures var b := Collect(updates, st.cursor);
      taken == st.(phase := AwaitingAck(b.next), held := Some(b))
      && taken == Step(Step(st, ServerAnswers(updates)), Drain)
  {
    hide Collect;
    var b := Collect(updates, st.cursor);
    var answered := Step(st, ServerAnswers(updates));
    assert answered == st.(channel := [Polled(b, true)], phase := AwaitingAck(b.next));
    assert answered.channel[1..] == [];
    taken := Step(answered, Drain);
  }
}
