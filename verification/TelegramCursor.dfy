/** The Telegram polling cursor: a polling thread, the main loop, and a durable store, with
    reboots at any point.  Updates are at most once, and the offset sent to the server never
    runs ahead of what is stored. */
module TelegramCursor {
  import opened Common

  const MAX_I64: int := 0x7FFF_FFFF_FFFF_FFFF
  const CHANNEL_CAPACITY: nat := 8
  const MAX_EVENTS_PER_PASS: nat := 8

  /** `inbound` tells whether the update becomes a message of the configured chat. */
  datatype Update = Update(id: int, inbound: bool)

  datatype Batch = Batch(messages: seq<int>, next: int)

  datatype PollEvent = Polled(batch: Batch, wantsAck: bool) | Notice

  datatype PollPhase = Polling | AwaitingAck(next: int)

  /** A write that reports failure may nevertheless have reached the store. */
  datatype Write = Written | Refused | WrittenButRefused

  datatype State = State(
    store: int,
    cursor: int, phase: PollPhase, ackSent: bool,
    channel: seq<PollEvent>,
    persisted: int, held: Option<Batch>, inbox: seq<int>, ackDue: bool,
    dispatched: seq<int>)

  datatype Event =
    | ServerAnswers(updates: seq<Update>)
    | Notes
    | AckArrives
    | Drain
    | Checkpoint(write: Write)
    | DispatchOne
    | SendAck
    | Reboot

  // ---- Polling ----

  function After(id: int): int {
    if id >= MAX_I64 then MAX_I64 else id + 1
  }

  function Collect(updates: seq<Update>, since: int): Batch {
    if updates == [] then Batch([], since)
    else
      var n := |updates| - 1;
      var b := Collect(updates[..n], since);
      Batch(if updates[n].inbound then b.messages + [updates[n].id] else b.messages, Max(b.next, After(updates[n].id)))
  }

  method CollectInboundUpdates(updates: seq<Update>, since: int) returns (b: Batch)
    ensures b == Collect(updates, since)
  {
    var next := since;
    var messages := [];
    for i := 0 to |updates|
      invariant Batch(messages, next) == Collect(updates[..i], since)
    {
      assert updates[..i + 1][..i] == updates[..i];
      next := Max(next, After(updates[i].id));
      if updates[i].inbound {
        messages := messages + [updates[i].id];
      }
    }
    assert updates[..|updates|] == updates;
    return Batch(messages, next);
  }

  /** The server's side of the bargain: distinct updates from the offset up. */
  ghost predicate Served(updates: seq<Update>, offset: int) {
    && (forall i :: 0 <= i < |updates| ==> offset <= updates[i].id < MAX_I64)
    && forall i, j :: 0 <= i < j < |updates| ==> updates[i].id != updates[j].id
  }

  function Answered(st: State, updates: seq<Update>): State {
    if !st.phase.Polling? || |st.channel| >= CHANNEL_CAPACITY then st
    else
      var b := Collect(updates, st.cursor);
      if b.next > st.cursor then
        st.(channel := st.channel + [Polled(b, true)], phase := AwaitingAck(b.next))
      else st.(channel := st.channel + [Polled(b, false)])
  }

  function Acked(st: State): State {
    if st.phase.AwaitingAck? && st.ackSent then st.(cursor := st.phase.next, phase := Polling, ackSent := false) else st
  }

  // ---- The main loop ----

  /** Takes events from the channel until it is empty or a batch wants an acknowledgement. */
  function Drained(st: State, n: nat): State
    decreases n
  {
    if n == 0 || st.channel == [] then st
    else
      var rest := st.(channel := st.channel[1..]);
      match st.channel[0]
      case Notice => Drained(rest, n - 1)
      case Polled(b, false) => Drained(rest.(inbox := st.inbox + b.messages), n - 1)
      case Polled(b, true) => rest.(held := Some(b))
  }

  lemma DrainedStep(st: State, n: nat)
    ensures n == 0 || st.channel == [] ==> Drained(st, n) == st
    ensures n > 0 && st.channel != [] ==> (
      var rest := st.(channel := st.channel[1..]);
      Drained(st, n) ==
        match st.channel[0]
        case Notice => Drained(rest, n - 1)
        case Polled(b, false) => Drained(rest.(inbox := st.inbox + b.messages), n - 1)
        case Polled(b, true) => rest.(held := Some(b)))
  {}

  /** Stores the held batch's cursor; only then may its messages be handled. */
  function Checkpointed(st: State, write: Write): State {
    match st.held
    case None => st
    case Some(b) =>
      var due := b.next > st.persisted;
      if due && !write.Written? then (if write.Refused? then st else st.(store := b.next))
      else
        st.(store := if due then b.next else st.store, persisted := if due then b.next else st.persisted,
            held := None, inbox := st.inbox + b.messages, ackDue := true)
  }

  function Booted(store: int, dispatched: seq<int>): State {
    State(store, store, Polling, false, [], store, None, [], false, dispatched)
  }

  function Step(st: State, e: Event): State {
    match e
    case ServerAnswers(updates) => Answered(st, updates)
    case Notes => if |st.channel| < CHANNEL_CAPACITY then st.(channel := st.channel + [Notice]) else st
    case AckArrives => Acked(st)
    case Drain => if st.inbox == [] && !st.ackDue then Drained(st, MAX_EVENTS_PER_PASS) else st
    case Checkpoint(write) => if st.ackDue then st else Checkpointed(st, write)
    case DispatchOne =>
      if st.inbox == [] then st else st.(dispatched := st.dispatched + [st.inbox[0]], inbox := st.inbox[1..])
    case SendAck => if st.inbox == [] && st.ackDue then st.(ackDue := false, ackSent := true) else st
    case Reboot => Booted(st.store, st.dispatched)
  }

  function Run(st: State, es: seq<Event>): State
    decreases |es|
  {
    if es == [] then st else Run(Step(st, es[0]), es[1..])
  }

  /** Along the run, each answer of the server is one it may give to the offset it was sent. */
  ghost predicate ServerFair(st: State, es: seq<Event>)
    decreases |es|
  {
    es == [] || ((es[0].ServerAnswers? ==> Served(es[0].updates, st.cursor)) && ServerFair(Step(st, es[0]), es[1..]))
  }

  // ---- The invariant ----

  ghost predicate Distinct(s: seq<int>) {
    forall i, j :: 0 <= i < j < |s| ==> s[i] != s[j]
  }

  /** All in [lo, hi), each once. */
  ghost predicate Within(s: seq<int>, lo: int, hi: int) {
    Distinct(s) && forall i :: 0 <= i < |s| ==> lo <= s[i] < hi
  }

  function One(b: bool): nat {
    if b then 1 else 0
  }

  /** Batches in the channel that want an acknowledgement. */
  function Wanting(channel: seq<PollEvent>): nat {
    if channel == [] then 0 else One(channel[0].Polled? && channel[0].wantsAck) + Wanting(channel[1..])
  }

  /** Where the one acknowledgement is that the polling thread waits for. */
  function Tokens(st: State): nat {
    Wanting(st.channel) + One(st.held.Some?) + One(st.ackDue) + One(st.ackSent)
  }

  /** A batch that wants an acknowledgement carries new updates and the awaited cursor. */
  ghost predicate Wanted(st: State, b: Batch) {
    st.phase.AwaitingAck? && b.next == st.phase.next && Within(b.messages, st.cursor, b.next)
  }

  ghost predicate ChannelOk(st: State) {
    forall i :: 0 <= i < |st.channel| && st.channel[i].Polled? ==>
      if st.channel[i].wantsAck then Wanted(st, st.channel[i].batch) else st.channel[i].batch.messages == []
  }

  /** Updates below the stored cursor, each handled or waiting once. */
  ghost predicate HandledOk(st: State) {
    && Distinct(st.dispatched + st.inbox)
    && forall i :: 0 <= i < |st.dispatched + st.inbox| ==> (st.dispatched + st.inbox)[i] < st.persisted
  }

  ghost predicate CursorOk(st: State) {
    && st.cursor <= st.persisted <= st.store
    && (st.phase.AwaitingAck? ==> st.cursor < st.phase.next)
    && st.persisted == if st.phase.AwaitingAck? && (st.ackDue || st.ackSent) then st.phase.next else st.cursor
  }

  ghost predicate Inv(st: State) {
    && Tokens(st) == One(st.phase.AwaitingAck?)
    && (st.ackDue || st.ackSent ==> st.phase.AwaitingAck?)
    && CursorOk(st) && ChannelOk(st) && HandledOk(st)
    && (st.held.Some? ==> Wanted(st, st.held.value))
  }

  lemma {:induction false} WantingConcat(a: seq<PollEvent>, b: seq<PollEvent>)
    ensures Wanting(a + b) == Wanting(a) + Wanting(b)
  {
    if a == [] {
      assert a + b == b;
    } else {
      assert (a + b)[1..] == a[1..] + b;
      WantingConcat(a[1..], b);
    }
  }

  lemma WantingOne(e: PollEvent)
    ensures Wanting([e]) == One(e.Polled? && e.wantsAck)
  {
    assert [e][1..] == [];
  }

  /** A batch holds distinct updates between the offset and its own cursor. */
  lemma {:induction false} CollectWithin(updates: seq<Update>, since: int)
    requires Served(updates, since)
    ensures var b := Collect(updates, since);
      && since <= b.next && Within(b.messages, since, b.next)
      && (b.next == since ==> b.messages == [])
      && forall m :: m in b.messages ==> exists i :: 0 <= i < |updates| && updates[i].id == m
  {
    if updates != [] {
      var n := |updates| - 1;
      var before := Collect(updates[..n], since);
      CollectWithin(updates[..n], since);
      var b := Collect(updates, since);
      forall m | m in b.messages ensures exists i :: 0 <= i < |updates| && updates[i].id == m {
        if m in before.messages {
          var i :| 0 <= i < n && updates[..n][i].id == m;
          assert updates[i].id == m;
        } else {
          assert updates[n].id == m;
        }
      }
      forall i | 0 <= i < |before.messages| ensures before.messages[i] != updates[n].id {
        assert before.messages[i] in before.messages;
      }
    }
  }

  lemma AnsweredInv(st: State, updates: seq<Update>)
    requires Inv(st) && Served(updates, st.cursor)
    ensures Inv(Answered(st, updates))
  {
    hide Served, Collect, Distinct;
    CollectWithin(updates, st.cursor);
    var b := Collect(updates, st.cursor);
    var e := Polled(b, b.next > st.cursor);
    WantingConcat(st.channel, [e]);
    WantingOne(e);
  }

  lemma NoticeInv(st: State)
    requires Inv(st)
    ensures Inv(st.(channel := st.channel + [Notice]))
  {
    hide Distinct;
    WantingConcat(st.channel, [Notice]);
    WantingOne(Notice);
  }

  /** Only the channel's first event decides: the batch it holds has nothing to overwrite. */
  lemma NothingHeldYet(st: State)
    requires Inv(st) && st.channel != [] && st.channel[0].Polled? && st.channel[0].wantsAck
    ensures st.held.None? && !st.ackDue && !st.ackSent && Wanting(st.channel[1..]) == 0
  {}

  lemma {:induction false} DrainedInv(st: State, n: nat)
    requires Inv(st)
    ensures Inv(Drained(st, n))
    decreases n
  {
    hide Distinct;
    if n > 0 && st.channel != [] {
      var rest := st.(channel := st.channel[1..]);
      match st.channel[0] {
        case Notice => DrainedInv(rest, n - 1);
        case Polled(b, false) =>
          assert st.inbox + b.messages == st.inbox;
          DrainedInv(rest.(inbox := st.inbox + b.messages), n - 1);
        case Polled(b, true) => NothingHeldYet(st);
      }
    }
  }

  lemma CheckpointedInv(st: State, write: Write)
    requires Inv(st) && !st.ackDue
    ensures Inv(Checkpointed(st, write))
  {
    if st.held.Some? {
      var b := st.held.value;
      var was, now := st.dispatched + st.inbox, st.dispatched + (st.inbox + b.messages);
      assert now == was + b.messages;
      assert b.next > st.persisted;
    }
  }

  lemma AckedInv(st: State)
    requires Inv(st)
    ensures Inv(Acked(st))
  {
    hide Distinct;
    if st.phase.AwaitingAck? && st.ackSent { NoneWanting(st.channel); }
  }

  lemma {:induction false} NoneWanting(channel: seq<PollEvent>)
    requires Wanting(channel) == 0
    ensures forall i :: 0 <= i < |channel| && channel[i].Polled? ==> !channel[i].wantsAck
  {
    if channel != [] { NoneWanting(channel[1..]); }
  }

  lemma DispatchedInv(st: State)
    requires Inv(st) && st.inbox != []
    ensures Inv(st.(dispatched := st.dispatched + [st.inbox[0]], inbox := st.inbox[1..]))
  {
    assert (st.dispatched + [st.inbox[0]]) + st.inbox[1..] == st.dispatched + st.inbox;
  }

  lemma BootedInv(st: State)
    requires Inv(st)
    ensures Inv(Booted(st.store, st.dispatched))
  {
    assert st.dispatched + [] == st.dispatched;
    forall i | 0 <= i < |st.dispatched| ensures st.dispatched[i] < st.persisted {
      assert (st.dispatched + st.inbox)[i] == st.dispatched[i];
    }
    forall i, j | 0 <= i < j < |st.dispatched| ensures st.dispatched[i] != st.dispatched[j] {
      assert (st.dispatched + st.inbox)[i] == st.dispatched[i] && (st.dispatched + st.inbox)[j] == st.dispatched[j];
    }
  }

  lemma StepInv(st: State, e: Event)
    requires Inv(st) && (e.ServerAnswers? ==> Served(e.updates, st.cursor))
    ensures Inv(Step(st, e))
  {
    hide Distinct, Served, Answered, Drained, Checkpointed, Acked;
    match e {
      case ServerAnswers(updates) => AnsweredInv(st, updates);
      case Notes => NoticeInv(st);
      case AckArrives => AckedInv(st);
      case Drain => DrainedInv(st, MAX_EVENTS_PER_PASS);
      case Checkpoint(write) => if !st.ackDue { CheckpointedInv(st, write); }
      case DispatchOne => if st.inbox != [] { DispatchedInv(st); }
      case SendAck =>
      case Reboot => BootedInv(st);
    }
  }

  lemma {:induction false} RunInv(st: State, es: seq<Event>)
    requires Inv(st) && ServerFair(st, es)
    ensures Inv(Run(st, es))
    decreases |es|
  {
    hide Inv, Step, Served;
    if es != [] {
      StepInv(st, es[0]);
      RunInv(Step(st, es[0]), es[1..]);
    }
  }

  lemma FirstBoot(store: int)
    ensures Inv(Booted(store, []))
  {}

  // ---- What every run keeps ----

  /** However the two threads interleave, whichever writes fail and whenever it reboots: no
      update is handled twice, and the offset the polling thread sends is at most the cursor
      main has stored, which is at most what the store holds. */
  lemma AtMostOnce(store: int, es: seq<Event>)
    requires ServerFair(Booted(store, []), es)
    ensures var end := Run(Booted(store, []), es);
      Distinct(end.dispatched) && end.cursor <= end.persisted <= end.store
  {
    hide Run, ServerFair, Tokens, ChannelOk;
    FirstBoot(store);
    RunInv(Booted(store, []), es);
    var end := Run(Booted(store, []), es);
    forall i, j | 0 <= i < j < |end.dispatched| ensures end.dispatched[i] != end.dispatched[j] {
      assert (end.dispatched + end.inbox)[i] == end.dispatched[i] &&
           (end.dispatched + end.inbox)[j] == end.dispatched[j];
    }
  }

  /** Whenever main takes a batch that wants an acknowledgement, it holds no other one, owes
      no acknowledgement, and the polling thread waits for exactly this batch. */
  lemma NeverOverwritten(store: int, es: seq<Event>)
    requires ServerFair(Booted(store, []), es)
    ensures var end := Run(Booted(store, []), es);
      end.channel != [] && end.channel[0].Polled? && end.channel[0].wantsAck ==>
        (end.held.None? && !end.ackDue && !end.ackSent && end.phase == AwaitingAck(end.channel[0].batch.next))
  {
    hide Run, ServerFair, HandledOk, CursorOk;
    FirstBoot(store);
    RunInv(Booted(store, []), es);
  }

  /** The offset advances past a batch only after the batch was stored and handled: nothing
      that main accepted is still waiting when the acknowledgement arrives. */
  lemma AckMeansHandled(st: State, es: seq<Event>)
    requires Inv(st) && Quiet(st) && ServerFair(st, es)
    ensures Quiet(Run(st, es))
    decreases |es|
  {
    hide Inv, Served;
    if es != [] {
      StepInv(st, es[0]);
      QuietStep(st, es[0]);
      AckMeansHandled(Step(st, es[0]), es[1..]);
    }
  }

  ghost predicate Quiet(st: State) {
    st.ackSent ==> st.inbox == [] && st.held.None?
  }

  lemma QuietStep(st: State, e: Event)
    requires Inv(st) && Quiet(st)
    ensures Quiet(Step(st, e))
  {
    hide HandledOk, CursorOk, Distinct;
    if e.Drain? && st.ackSent {
      QuietDrain(st, MAX_EVENTS_PER_PASS);
    } else if e.Drain? && !st.ackSent {
      DrainFrame(st, MAX_EVENTS_PER_PASS);
    }
  }

  lemma {:induction false} DrainFrame(st: State, n: nat)
    ensures Drained(st, n).ackSent == st.ackSent
    decreases n
  {
    if n > 0 && st.channel != [] {
      match st.channel[0] {
        case Notice => DrainFrame(st.(channel := st.channel[1..]), n - 1);
        case Polled(b, false) => DrainFrame(st.(channel := st.channel[1..], inbox := st.inbox + b.messages), n - 1);
        case Polled(b, true) =>
      }
    }
  }

  lemma {:induction false} QuietDrain(st: State, n: nat)
    requires st.inbox == [] && st.held.None? && ChannelOk(st) && Wanting(st.channel) == 0
    ensures Drained(st, n).inbox == [] && Drained(st, n).held.None?
    decreases n
  {
    hide Distinct;
    if n > 0 && st.channel != [] {
      var rest := st.(channel := st.channel[1..]);
      match st.channel[0] {
        case Notice => QuietDrain(rest, n - 1);
        case Polled(b, _) =>
          assert st.inbox + b.messages == [];
          QuietDrain(rest.(inbox := st.inbox + b.messages), n - 1);
      }
    }
  }

  /** With the largest possible update id the offset cannot move past it: the same update
      would be served, and handled, again and again. */
  lemma SaturatedIdRepeats()
    ensures var st := Booted(MAX_I64, []);
      Run(st, [ServerAnswers([Update(MAX_I64, true)]), Drain, DispatchOne,
               ServerAnswers([Update(MAX_I64, true)]), Drain, DispatchOne]).dispatched == [MAX_I64, MAX_I64]
  {
    hide Step;
    var st, e := Booted(MAX_I64, []), ServerAnswers([Update(MAX_I64, true)]);
    RepeatOnce(st);
    RepeatOnce(Booted(MAX_I64, [MAX_I64]));
    assert [] + [MAX_I64] == [MAX_I64] && [MAX_I64] + [MAX_I64] == [MAX_I64, MAX_I64];
    RunThree(Booted(MAX_I64, [MAX_I64]), e, Drain, DispatchOne, []);
    RunThree(st, e, Drain, DispatchOne, [e, Drain, DispatchOne]);
    assert [e, Drain, DispatchOne] + [] == [e, Drain, DispatchOne];
    assert [e, Drain, DispatchOne] + [e, Drain, DispatchOne] == [e, Drain, DispatchOne, e, Drain, DispatchOne];
  }

  lemma RunThree(st: State, a: Event, b: Event, c: Event, rest: seq<Event>)
    ensures Run(st, [a, b, c] + rest) == Run(Step(Step(Step(st, a), b), c), rest)
  {
    hide Step;
    var es := [a, b, c] + rest;
    assert es[1..] == [b, c] + rest && ([b, c] + rest)[1..] == [c] + rest && ([c] + rest)[1..] == rest;
    assert Run(st, es) == Run(Step(st, a), [b, c] + rest);
    assert Run(Step(st, a), [b, c] + rest) == Run(Step(Step(st, a), b), [c] + rest);
  }

  lemma RepeatOnce(st: State)
    requires st == Booted(MAX_I64, st.dispatched)
    ensures Step(Step(Step(st, ServerAnswers([Update(MAX_I64, true)])), Drain), DispatchOne)
         == Booted(MAX_I64, st.dispatched + [MAX_I64])
  {
    var updates := [Update(MAX_I64, true)];
    assert updates[..0] == [];
    var b := Batch([MAX_I64], MAX_I64);
    assert Collect(updates, MAX_I64) == b;
    var answered := Answered(st, updates);
    assert answered == st.(channel := [Polled(b, false)]);
    assert answered.channel[1..] == [];
    var drained := Drained(answered, MAX_EVENTS_PER_PASS);
    assert drained == st.(inbox := [MAX_I64]);
    assert drained.inbox[1..] == [];
  }

  // ---- The code of both threads ----

  /** The durable store, as far as the cursor goes. */
  class CursorStore {
    var cursor: int

    constructor (cursor: int)
      ensures this.cursor == cursor
    {
      this.cursor := cursor;
    }

    method Save(value: int, write: Write) returns (ok: bool)
      modifies this
      ensures cursor == if write.Refused? then old(cursor) else value
      ensures ok == write.Written?
    {
      if !write.Refused? {
        cursor := value;
      }
      return write.Written?;
    }
  }

  /** Stores `next` if it is ahead; a failed write leaves `persisted` where it was. */
  method CheckpointCursor(store: CursorStore, persisted: int, next: int, write: Write) returns (ok: bool, after: int)
    modifies store
    ensures ok == (next <= persisted || write.Written?)
    ensures after == if ok then Max(persisted, next) else persisted
    ensures store.cursor == if next > persisted && !write.Refused? then next else old(store.cursor)
  {
    after := persisted;
    if next > persisted {
      ok := store.Save(next, write);
      if !ok {
        return false, after;
      }
      after := next;
    }
    return true, after;
  }

  class TelegramLoop {
    const nvs: CursorStore
    // The polling thread.
    var cursor: int
    var phase: PollPhase
    var ackSent: bool
    // Between the threads.
    var channel: seq<PollEvent>
    // The main loop.
    var persisted: int
    var held: Option<Batch>
    var inbox: seq<int>
    var ackDue: bool
    ghost var dispatched: seq<int>

    ghost function View(): State
      reads this, nvs
    {
      State(nvs.cursor, cursor, phase, ackSent, channel, persisted, held, inbox, ackDue, dispatched)
    }

    constructor (nvs: CursorStore, ghost dispatched: seq<int>)
      ensures this.nvs == nvs && View() == Booted(nvs.cursor, dispatched)
    {
      this.nvs := nvs;
      cursor, persisted := nvs.cursor, nvs.cursor;
      phase, ackSent, channel := Polling, false, [];
      held, inbox, ackDue := None, [], false;
      this.dispatched := dispatched;
    }

    /** One answered getUpdates call of the polling thread. */
    method PollOnce(updates: seq<Update>)
      modifies this
      ensures View() == Step(old(View()), ServerAnswers(updates))
    {
      hide Collect;
      if phase.Polling? && |channel| < CHANNEL_CAPACITY {
        var batch := CollectInboundUpdates(updates, cursor);
        channel := channel + [Polled(batch, batch.next > cursor)];
        if batch.next > cursor {
          phase := AwaitingAck(batch.next);
        }
      }
    }

    method ReceiveAck()
      modifies this
      ensures View() == Step(old(View()), AckArrives)
    {
      if phase.AwaitingAck? && ackSent {
        cursor := phase.next;
        phase := Polling;
        ackSent := false;
      }
    }

    method DrainChannel()
      requires inbox == [] && !ackDue
      modifies this
      ensures View() == Step(old(View()), Event.Drain)
    {
      hide Drained;
      var left: nat := MAX_EVENTS_PER_PASS;
      while left > 0 && channel != []
        invariant Drained(View(), left) == Drained(old(View()), MAX_EVENTS_PER_PASS)
      {
        DrainedStep(View(), left);
        var event := channel[0];
        channel := channel[1..];
        left := left - 1;
        if event.Polled? {
          if event.wantsAck {
            held := Some(event.batch);
            return;
          }
          inbox := inbox + event.batch.messages;
        }
      }
      DrainedStep(View(), left);
    }

    /** Stores the held batch's cursor and releases its messages, or keeps it for later. */
    method CheckpointHeld(write: Write)
      requires !ackDue
      modifies this, nvs
      ensures View() == Step(old(View()), Checkpoint(write))
    {
      if held.Some? {
        var batch := held.value;
        var ok;
        ok, persisted := CheckpointCursor(nvs, persisted, batch.next, write);
        if ok {
          held := None;
          inbox := inbox + batch.messages;
          ackDue := true;
        }
      }
    }

    method DispatchNext() returns (id: int)
      requires inbox != []
      modifies this
      ensures View() == Step(old(View()), DispatchOne) && id == old(inbox[0])
    {
      id := inbox[0];
      inbox := inbox[1..];
      dispatched := dispatched + [id];
    }

    method Acknowledge()
      requires inbox == []
      modifies this
      ensures View() == Step(old(View()), Event.SendAck)
    {
      if ackDue {
        ackDue := false;
        ackSent := true;
      }
    }
  }
}
