/** Fileshare event subscription of the C++ client: concurrent callers of
    `RegisterFileshareEventHandler`, `ClearFileshareEventHandlers`, and the subscription
    threads they start. Handlers are named by registration order and threads by spawn order.
    Each atomic action is one step (dispatching one event holds the mutex throughout, so it is
    one step); a schedule is any sequence of steps, and a step that is not enabled is skipped. */
module Subscription {
  import opened Messages
  import opened Runs
  import opened Sequences

  datatype Event = Event(fileshareTopic: bool, hasFileshareEvent: bool, handle: string, kind: int)

  predicate Relevant(e: Event) {
    e.fileshareTopic && e.hasFileshareEvent
  }

  /** A thread inside RegisterFileshareEventHandler, with the handler it registered. */
  datatype Registrar =
    | Outside
    | Pushed(h: nat)
    | Starting(h: nat)            // won the exchange
    | Cleaned(h: nat)             // the old thread is joined, or there is none to join
    | Spawned(h: nat, t: nat)     // the new thread runs, its handle is not stored yet

  datatype ThreadPc = Reading | StreamOver | Released | Exited

  /** A subscription thread and the handler whose registration started it. */
  datatype Thread = Thread(starter: nat, pc: ThreadPc)

  /** One invocation of a handler; `no` numbers the dispatched events. */
  datatype Call = Call(no: nat, handler: nat, thread: nat, event: Event)

  /** What happened to the handler list and the streams, in order. */
  datatype Entry = Registered(h: nat) | Cleared | Received(t: nat, e: Event)

  /** The handler list and what was done with it. */
  datatype Book = Book(
    handlers: seq<nat>,           // fileshare_event_handlers_
    issued: nat,                  // handlers registered so far
    wiped: nat,                   // handlers issued when the list was last cleared
    dispatched: nat,
    calls: seq<Call>,
    journal: seq<Entry>)

  datatype State = State(
    started: bool,                // fileshare_stream_started_
    thread: Option<nat>,          // fileshare_event_thread_
    registrars: seq<Registrar>,
    threads: seq<Thread>,
    joined: set<nat>,
    dropped: set<nat>,            // threads whose handle was overwritten while joinable
    book: Book)

  datatype Step =
    | Push(r: nat) | Exchange(r: nat) | Join(r: nat) | Spawn(r: nat) | Assign(r: nat)
    | Clear
    | Incoming(t: nat, e: Event) | StreamEnd(t: nat) | Release(t: nat) | Exit(t: nat)

  function Init(n: nat): State {
    State(false, None, seq(n, _ => Outside), [], {}, {}, Book([], 0, 0, 0, [], []))
  }

  predicate MustJoin(s: State) {
    s.thread.Some? && s.thread.value !in s.joined
  }

  predicate At(s: State, t: nat, pc: ThreadPc) {
    t < |s.threads| && s.threads[t].pc == pc
  }

  predicate Enabled(s: State, step: Step) {
    match step
    case Push(r) => r < |s.registrars| && s.registrars[r].Outside?
    case Exchange(r) => r < |s.registrars| && s.registrars[r].Pushed?
    case Join(r) => r < |s.registrars| && s.registrars[r].Starting? && (MustJoin(s) ==> At(s, s.thread.value, Exited))
    case Spawn(r) => r < |s.registrars| && s.registrars[r].Cleaned?
    case Assign(r) => r < |s.registrars| && s.registrars[r].Spawned?
    case Clear => true
    case Incoming(t, _) => At(s, t, Reading)
    case StreamEnd(t) => At(s, t, Reading)
    case Release(t) => At(s, t, StreamOver)
    case Exit(t) => At(s, t, Released)
  }

  function SetRegistrar(s: State, r: nat, pc: Registrar): State
    requires r < |s.registrars|
  {
    s.(registrars := s.registrars[r := pc])
  }

  function SetThread(s: State, t: nat, pc: ThreadPc): State
    requires t < |s.threads|
  {
    s.(threads := s.threads[t := s.threads[t].(pc := pc)])
  }

  /** Every registered handler is called with the event, in list order. */
  function Deliveries(no: nat, handlers: seq<nat>, t: nat, e: Event): (cs: seq<Call>)
    ensures |cs| == |handlers|
    ensures forall i | 0 <= i < |cs| :: cs[i] == Call(no, handlers[i], t, e)
  {
    seq(|handlers|, i requires 0 <= i < |handlers| => Call(no, handlers[i], t, e))
  }

  function Enter(b: Book): Book {
    b.(handlers := b.handlers + [b.issued], issued := b.issued + 1, journal := b.journal + [Registered(b.issued)])
  }

  function Wipe(b: Book): Book {
    b.(handlers := [], wiped := b.issued, journal := b.journal + [Cleared])
  }

  function Dispatch(b: Book, t: nat, e: Event): Book {
    var b1 := b.(journal := b.journal + [Received(t, e)]);
    if !Relevant(e) then b1
    else b1.(dispatched := b.dispatched + 1, calls := b.calls + Deliveries(b.dispatched, b.handlers, t, e))
  }

  function Apply(s: State, step: Step): State {
    if !Enabled(s, step) then s else
    match step
    case Push(r) =>
      SetRegistrar(s, r, Pushed(s.book.issued)).(book := Enter(s.book))
    case Exchange(r) =>
      if s.started then SetRegistrar(s, r, Outside)
      else SetRegistrar(s, r, Starting(s.registrars[r].h)).(started := true)
    case Join(r) =>
      var s1 := SetRegistrar(s, r, Cleaned(s.registrars[r].h));
      if MustJoin(s) then s1.(joined := s.joined + {s.thread.value}) else s1
    case Spawn(r) =>
      var h := s.registrars[r].h;
      SetRegistrar(s, r, Spawned(h, |s.threads|)).(threads := s.threads + [Thread(h, Reading)])
    case Assign(r) =>
      SetRegistrar(s, r, Outside).(thread := Some(s.registrars[r].t),
                                   dropped := if MustJoin(s) then s.dropped + {s.thread.value} else s.dropped)
    case Clear => s.(book := Wipe(s.book))
    case Incoming(t, e) => s.(book := Dispatch(s.book, t, e))
    case StreamEnd(t) => SetThread(s, t, StreamOver)
    case Release(t) => SetThread(s, t, Released).(started := false)
    case Exit(t) => SetThread(s, t, Exited)
  }

  function Exec(s: State, schedule: seq<Step>): State {
    Run(Apply, s, schedule)
  }

  // ----- The started flag is a token -----

  predicate RegistrarHolds(s: State, r: nat) {
    r < |s.registrars| && (s.registrars[r].Starting? || s.registrars[r].Cleaned?)
  }

  predicate ThreadHolds(s: State, t: nat) {
    At(s, t, Reading) || At(s, t, StreamOver)
  }

  datatype Holder = Nobody | Reg(r: nat) | Thr(t: nat)

  /** Exactly `holder` holds the token, and the flag says whether anybody does. */
  ghost predicate HeldBy(s: State, holder: Holder) {
    && (forall r :: RegistrarHolds(s, r) <==> holder == Reg(r))
    && (forall t :: ThreadHolds(s, t) <==> holder == Thr(t))
    && (s.started <==> !holder.Nobody?)
  }

  /** Winning the exchange takes the token, spawning hands it to the thread, the thread's
      last store gives it back. */
  function NextHolder(s: State, holder: Holder, step: Step): Holder {
    if !Enabled(s, step) then holder
    else if step.Exchange? && !s.started then Reg(step.r)
    else if step.Spawn? then Thr(|s.threads|)
    else if step.Release? then Nobody
    else holder
  }

  lemma StepMovesToken(s: State, holder: Holder, step: Step)
    requires HeldBy(s, holder)
    ensures HeldBy(Apply(s, step), NextHolder(s, holder, step))
  {
    if Enabled(s, step) {
      match step
      case Push(r) =>
      case Exchange(r) =>
      case Join(r) =>
        assert RegistrarHolds(s, r);
      case Spawn(r) =>
        assert RegistrarHolds(s, r);
      case Assign(r) =>
      case Clear =>
      case Incoming(t, e) =>
      case StreamEnd(t) =>
        assert ThreadHolds(s, t);
      case Release(t) =>
        assert ThreadHolds(s, t);
      case Exit(t) =>
    }
  }

  lemma {:induction false} RunMovesToken(s: State, holder: Holder, schedule: seq<Step>) returns (last: Holder)
    requires HeldBy(s, holder)
    ensures HeldBy(Exec(s, schedule), last)
    decreases |schedule|
  {
    if schedule == [] {
      last := holder;
    } else {
      StepMovesToken(s, holder, schedule[0]);
      last := RunMovesToken(Apply(s, schedule[0]), NextHolder(s, holder, schedule[0]), schedule[1..]);
    }
  }

  /** However many threads register concurrently, and across stream end and restart, at most
      one subscription thread is in its read loop. */
  lemma OneReadLoop(n: nat, schedule: seq<Step>, t: nat, u: nat)
    requires At(Exec(Init(n), schedule), t, Reading) && At(Exec(Init(n), schedule), u, Reading)
    ensures t == u
  {
    var holder := RunMovesToken(Init(n), Nobody, schedule);
    assert ThreadHolds(Exec(Init(n), schedule), t) && ThreadHolds(Exec(Init(n), schedule), u);
  }

  /** Some thread reads events, or some registration is about to start one. */
  ghost predicate Serving(s: State) {
    (exists t :: At(s, t, Reading)) || exists r :: RegistrarHolds(s, r)
  }

  /** A registration that passes the exchange leaves events being read if and only if it did
      not fall between the end of a stream and that stream's last store. */
  lemma RegistrationServedIff(n: nat, schedule: seq<Step>, r: nat)
    requires Enabled(Exec(Init(n), schedule), Exchange(r))
    ensures var s := Exec(Init(n), schedule);
            Serving(Apply(s, Exchange(r))) <==> !exists t :: At(s, t, StreamOver)
  {
    var s := Exec(Init(n), schedule);
    var s1 := Apply(s, Exchange(r));
    var holder := RunMovesToken(Init(n), Nobody, schedule);
    StepMovesToken(s, holder, Exchange(r));
    match holder
    case Nobody =>
      assert RegistrarHolds(s1, r);
      forall t ensures !At(s, t, StreamOver) { assert !ThreadHolds(s, t); }
    case Reg(q) =>
      assert RegistrarHolds(s1, q);
      forall t ensures !At(s, t, StreamOver) { assert !ThreadHolds(s, t); }
    case Thr(t) =>
      assert ThreadHolds(s, t) && ThreadHolds(s1, t);
      forall u | At(s, u, StreamOver) ensures u == t { assert ThreadHolds(s, u); }
      forall u | At(s1, u, Reading) ensures u == t { assert ThreadHolds(s1, u); }
      if At(s, t, Reading) { assert At(s1, t, Reading); }
  }

  // ----- The join returns -----

  /** Handles name threads that were spawned. */
  ghost predicate Spawns(s: State) {
    && (s.thread.Some? ==> s.thread.value < |s.threads|)
    && (forall r | 0 <= r < |s.registrars| :: s.registrars[r].Spawned? ==> s.registrars[r].t < |s.threads|)
  }

  lemma StepKeepsSpawns(s: State, step: Step)
    requires Spawns(s)
    ensures Spawns(Apply(s, step))
  {
  }

  lemma {:induction false} RunKeepsSpawns(s: State, schedule: seq<Step>)
    requires Spawns(s)
    ensures Spawns(Exec(s, schedule))
    decreases |schedule|
  {
    if schedule == [] {
    } else {
      StepKeepsSpawns(s, schedule[0]);
      RunKeepsSpawns(Apply(s, schedule[0]), schedule[1..]);
    }
  }

  /** With any number of registrars, in every reachable state, a registrar that is to join the
      old thread can do so at once, or once that thread has taken its last step, which nothing
      holds up: the thread has given the token back. */
  lemma JoinReturns(n: nat, schedule: seq<Step>, r: nat)
    requires r < |Exec(Init(n), schedule).registrars| && Exec(Init(n), schedule).registrars[r].Starting?
    ensures var s := Exec(Init(n), schedule);
            || Enabled(s, Join(r))
            || (&& s.thread.Some? && Enabled(s, Exit(s.thread.value))
                && Enabled(Apply(s, Exit(s.thread.value)), Join(r)))
  {
    var s := Exec(Init(n), schedule);
    RunKeepsSpawns(Init(n), schedule);
    var holder := RunMovesToken(Init(n), Nobody, schedule);
    assert RegistrarHolds(s, r);
    if s.thread.Some? {
      assert !ThreadHolds(s, s.thread.value);
    }
  }

  // ----- Small runs -----

  /** A subscription is started, its stream ends, and a second handler registers before the
      thread's last store: then no stream runs, none is being started, and the handler stays
      on the list. */
  function LateRegistration(): seq<Step> {
    [Push(0), Exchange(0), Join(0)] + ([Spawn(0), Assign(0), StreamEnd(0)] + [Push(0), Exchange(0), Release(0)])
  }

  lemma Chain(s: State, a: seq<Step>, b: seq<Step>, c: seq<Step>)
    ensures Exec(s, a + (b + c)) == Exec(Exec(Exec(s, a), b), c)
  {
    RunConcat(Apply, s, a, b + c);
    RunConcat(Apply, Exec(s, a), b, c);
  }

  /** Registrar 0 of a fresh client wins the exchange and has nothing to join. */
  lemma FirstWins(n: nat)
    requires n >= 1
    ensures var s := Exec(Init(n), [Push(0), Exchange(0), Join(0)]);
            && s.started && s.book.handlers == [0] && s.book.issued == 1 && s.thread == None && s.threads == []
            && s.joined == {} && s.dropped == {}
            && s.registrars == Init(n).registrars[0 := Cleaned(0)]
  {
    var s1 := Apply(Init(n), Push(0));
    var s2 := Apply(s1, Exchange(0));
    RunThree(Apply, Init(n), Push(0), Exchange(0), Join(0));
    assert s1.registrars == Init(n).registrars[0 := Pushed(0)];
    assert s2.registrars == Init(n).registrars[0 := Starting(0)];
  }

  /** The stream of thread 0 has ended, its token is still up. */
  ghost predicate Ending(s: State) {
    && s.registrars == [Outside] && s.threads == [Thread(0, StreamOver)] && s.started
    && s.book.handlers == [0] && s.book.issued == 1
  }

  lemma StreamRunsOut(s: State)
    requires s.registrars == [Cleaned(0)] && s.threads == [] && s.started
    requires s.book.handlers == [0] && s.book.issued == 1
    ensures Ending(Exec(s, [Spawn(0), Assign(0), StreamEnd(0)]))
  {
    RunThree(Apply, s, Spawn(0), Assign(0), StreamEnd(0));
  }

  lemma RegisterTooLate(s: State)
    requires Ending(s)
    ensures var s1 := Exec(s, [Push(0), Exchange(0), Release(0)]);
            s1.book.handlers == [0, 1] && s1.registrars == [Outside] && !s1.started && !Serving(s1)
  {
    RunThree(Apply, s, Push(0), Exchange(0), Release(0));
    var s1 := Exec(s, [Push(0), Exchange(0), Release(0)]);
    assert s1.threads == [Thread(0, Released)] && s1.registrars == [Outside];
  }

  lemma LostRestart()
    ensures var s := Exec(Init(1), LateRegistration());
            s.book.handlers == [0, 1] && s.registrars == [Outside] && !s.started && !Serving(s)
  {
    var first := [Push(0), Exchange(0), Join(0)];
    FirstWins(1);
    assert Exec(Init(1), first).registrars == [Cleaned(0)];
    StreamRunsOut(Exec(Init(1), first));
    RegisterTooLate(Exec(Exec(Init(1), first), [Spawn(0), Assign(0), StreamEnd(0)]));
    Chain(Init(1), first, [Spawn(0), Assign(0), StreamEnd(0)], [Push(0), Exchange(0), Release(0)]);
  }

  // ----- Thread handles -----

  ghost predicate Serial(s: State) {
    var pc := if s.registrars == [] then Outside else s.registrars[0];
    var n := |s.threads|;
    && |s.registrars| <= 1
    && s.dropped == {}
    && (forall t | t in s.joined :: At(s, t, Exited))
    && (forall t | 0 <= t < n - 1 :: t in s.joined)
    && (pc.Cleaned? ==> !MustJoin(s))
    && (if pc.Spawned? then n > 0 && pc.t == n - 1 && !MustJoin(s)
        else s.thread == if n == 0 then None else Some(n - 1))
  }

  lemma StepKeepsSerial(s: State, step: Step)
    requires Serial(s)
    ensures Serial(Apply(s, step))
  {
  }

  lemma {:induction false} RunKeepsSerial(s: State, schedule: seq<Step>)
    requires Serial(s)
    ensures Serial(Exec(s, schedule))
    decreases |schedule|
  {
    if schedule == [] {
    } else {
      StepKeepsSerial(s, schedule[0]);
      RunKeepsSerial(Apply(s, schedule[0]), schedule[1..]);
    }
  }

  /** With serialised registrations no joinable handle is ever overwritten: every thread but
      the newest has exited and been joined. */
  lemma SerialRegistrationsJoin(n: nat, schedule: seq<Step>)
    requires n <= 1
    ensures var s := Exec(Init(n), schedule);
            && s.dropped == {}
            && forall t | 0 <= t < |s.threads| - 1 :: t in s.joined && At(s, t, Exited)
  {
    RunKeepsSerial(Init(n), schedule);
  }

  /** The first registrar's thread ends before its handle is stored; a second registrar
      starts another stream and stores its handle first. */
  function HandleRace(): seq<Step> {
    [Push(0), Exchange(0), Join(0)] + ([Spawn(0), StreamEnd(0), Release(0)] + Overtaking())
  }

  lemma TwoRegistrarsDrop(n: nat)
    requires n >= 2
    ensures Exec(Init(n), HandleRace()).dropped == {1}
  {
    var s3 := Exec(Init(n), [Push(0), Exchange(0), Join(0)]);
    FirstWins(n);
    var s6 := Exec(s3, [Spawn(0), StreamEnd(0), Release(0)]);
    RunThree(Apply, s3, Spawn(0), StreamEnd(0), Release(0));
    assert s6.registrars[0] == Spawned(0, 0) && s6.registrars[1] == Outside;
    assert !s6.started && s6.thread == None && |s6.threads| == 1 && s6.joined == s6.dropped == {};
    SecondStoresFirst(s6);
    RunConcat(Apply, Init(n), [Push(0), Exchange(0), Join(0)], [Spawn(0), StreamEnd(0), Release(0)] + Overtaking());
    RunConcat(Apply, s3, [Spawn(0), StreamEnd(0), Release(0)], Overtaking());
  }

  function Overtaking(): seq<Step> {
    [Push(1), Exchange(1), Join(1)] + [Spawn(1), Assign(1), Assign(0)]
  }

  lemma SecondStoresFirst(s: State)
    requires |s.registrars| >= 2 && s.registrars[0] == Spawned(0, 0) && s.registrars[1] == Outside
    requires !s.started && s.thread == None && |s.threads| == 1 && s.joined == s.dropped == {}
    ensures Exec(s, Overtaking()).dropped == {1}
  {
    var s3 := Exec(s, [Push(1), Exchange(1), Join(1)]);
    RunThree(Apply, s, Push(1), Exchange(1), Join(1));
    assert s3.registrars[0] == Spawned(0, 0) && s3.registrars[1].Cleaned?;
    RunThree(Apply, s3, Spawn(1), Assign(1), Assign(0));
    RunConcat(Apply, s, [Push(1), Exchange(1), Join(1)], [Spawn(1), Assign(1), Assign(0)]);
  }

  /** Never overwriting a joinable handle is exactly having serialised registrations. */
  lemma HandlesSafeIffSerial(n: nat)
    ensures (forall schedule: seq<Step> :: Exec(Init(n), schedule).dropped == {}) <==> n <= 1
  {
    if n <= 1 {
      forall schedule: seq<Step> ensures Exec(Init(n), schedule).dropped == {} {
        SerialRegistrationsJoin(n, schedule);
      }
    } else {
      TwoRegistrarsDrop(n);
      assert Exec(Init(n), HandleRace()).dropped != {};
    }
  }

  // ----- Handler logs -----

  /** Is the handler on the list after these entries? */
  predicate Active(journal: seq<Entry>, h: nat) {
    if journal == [] then false else
    var before := journal[..|journal| - 1];
    match journal[|journal| - 1]
    case Registered(g) => g == h || Active(before, h)
    case Cleared => false
    case Received(_, _) => Active(before, h)
  }

  /** The fileshare events received while the handler was registered, each with its thread. */
  function Expected(journal: seq<Entry>, h: nat): seq<(nat, Event)> {
    if journal == [] then [] else
    var before := journal[..|journal| - 1];
    match journal[|journal| - 1]
    case Received(t, e) =>
      if e.fileshareTopic && e.hasFileshareEvent && Active(before, h) then Expected(before, h) + [(t, e)]
      else Expected(before, h)
    case _ => Expected(before, h)
  }

  /** The fileshare events received by one thread. */
  function EventsOf(journal: seq<Entry>, t: nat): seq<Event> {
    if journal == [] then [] else
    var before := journal[..|journal| - 1];
    match journal[|journal| - 1]
    case Received(u, e) =>
      if u == t && e.fileshareTopic && e.hasFileshareEvent then EventsOf(before, t) + [e] else EventsOf(before, t)
    case _ => EventsOf(before, t)
  }

  /** A handler's log: the events it was called with, in order. */
  function Log(calls: seq<Call>, h: nat): seq<(nat, Event)> {
    if calls == [] then [] else
    var c := calls[|calls| - 1];
    var before := Log(calls[..|calls| - 1], h);
    if c.handler == h then before + [(c.thread, c.event)] else before
  }

  /** That log, restricted to the events of one thread. */
  function LogFrom(log: seq<(nat, Event)>, t: nat): seq<Event> {
    if log == [] then [] else
    var before := LogFrom(log[..|log| - 1], t);
    if log[|log| - 1].0 == t then before + [log[|log| - 1].1] else before
  }

  lemma {:induction false} LogAppend(calls: seq<Call>, more: seq<Call>, h: nat)
    ensures Log(calls + more, h) == Log(calls, h) + Log(more, h)
  {
    if more == [] {
      assert calls + more == calls;
    } else {
      assert (calls + more)[..|calls + more| - 1] == calls + more[..|more| - 1];
      LogAppend(calls, more[..|more| - 1], h);
    }
  }

  /** A list of consecutive handlers delivers one event to each of them once. */
  lemma {:induction false} LogDeliveries(no: nat, a: nat, b: nat, t: nat, e: Event, h: nat)
    requires a <= b
    ensures Log(Deliveries(no, Range(a, b), t, e), h) == if a <= h < b then [(t, e)] else []
    decreases b
  {
    var cs := Deliveries(no, Range(a, b), t, e);
    if a == b {
    } else {
      assert cs[..|cs| - 1] == Deliveries(no, Range(a, b - 1), t, e);
      LogDeliveries(no, a, b - 1, t, e, h);
    }
  }

  /** The list holds the handlers registered since it was last cleared, oldest first. */
  ghost predicate Listed(b: Book) {
    && b.wiped <= b.issued
    && b.handlers == Range(b.wiped, b.issued)
    && (forall h: nat :: Active(b.journal, h) <==> b.wiped <= h < b.issued)
  }

  ghost predicate Logged(b: Book) {
    forall h: nat :: Log(b.calls, h) == Expected(b.journal, h)
  }

  /** Calls come event by event and, for one event, in registration order. */
  ghost predicate Ordered(b: Book) {
    && (forall i | 0 <= i < |b.calls| :: b.calls[i].no < b.dispatched)
    && (forall i, j | 0 <= i < j < |b.calls| ::
          b.calls[i].no < b.calls[j].no || (b.calls[i].no == b.calls[j].no && b.calls[i].handler < b.calls[j].handler))
  }

  ghost predicate Kept(b: Book) {
    Listed(b) && Logged(b) && Ordered(b)
  }

  lemma EnterKeeps(b: Book)
    requires Kept(b)
    ensures Kept(Enter(b))
  {
    var c := Enter(b);
    assert c.journal[..|c.journal| - 1] == b.journal;
    assert c.handlers == Range(c.wiped, c.issued);
    forall h: nat ensures Active(c.journal, h) <==> c.wiped <= h < c.issued {
      assert Active(b.journal, h) <==> b.wiped <= h < b.issued;
    }
    forall h: nat ensures Log(c.calls, h) == Expected(c.journal, h) {
      assert Log(b.calls, h) == Expected(b.journal, h);
    }
  }

  lemma WipeKeeps(b: Book)
    requires Kept(b)
    ensures Kept(Wipe(b))
  {
    var c := Wipe(b);
    assert c.journal[..|c.journal| - 1] == b.journal;
    forall h: nat ensures Log(c.calls, h) == Expected(c.journal, h) {
      assert Log(b.calls, h) == Expected(b.journal, h);
    }
  }

  /** What one dispatch adds to a handler's log. */
  lemma DispatchLog(b: Book, t: nat, e: Event, h: nat)
    requires Listed(b)
    ensures Log(Dispatch(b, t, e).calls, h) ==
            Log(b.calls, h) + (if Relevant(e) && b.wiped <= h < b.issued then [(t, e)] else [])
  {
    if Relevant(e) {
      LogAppend(b.calls, Deliveries(b.dispatched, b.handlers, t, e), h);
      LogDeliveries(b.dispatched, b.wiped, b.issued, t, e, h);
    }
  }

  lemma DispatchKeepsOrdered(b: Book, t: nat, e: Event)
    requires Listed(b) && Ordered(b)
    ensures Ordered(Dispatch(b, t, e))
  {
  }

  lemma DispatchKeeps(b: Book, t: nat, e: Event)
    requires Kept(b)
    ensures Kept(Dispatch(b, t, e))
  {
    var c := Dispatch(b, t, e);
    DispatchKeepsOrdered(b, t, e);
    assert c.journal[..|c.journal| - 1] == b.journal;
    forall h: nat ensures Active(c.journal, h) <==> c.wiped <= h < c.issued {
      assert Active(b.journal, h) <==> b.wiped <= h < b.issued;
    }
    forall h: nat ensures Log(c.calls, h) == Expected(c.journal, h) {
      assert Log(b.calls, h) == Expected(b.journal, h);
      assert Active(b.journal, h) <==> b.wiped <= h < b.issued;
      DispatchLog(b, t, e, h);
    }
  }

  lemma StepKeepsKept(s: State, step: Step)
    requires Kept(s.book)
    ensures Kept(Apply(s, step).book)
  {
    EnterKeeps(s.book);
    WipeKeeps(s.book);
    if step.Incoming? { DispatchKeeps(s.book, step.t, step.e); }
  }

  lemma {:induction false} RunKeepsKept(s: State, schedule: seq<Step>)
    requires Kept(s.book)
    ensures Kept(Exec(s, schedule).book)
    decreases |schedule|
  {
    if schedule == [] {
    } else {
      StepKeepsKept(s, schedule[0]);
      RunKeepsKept(Apply(s, schedule[0]), schedule[1..]);
    }
  }

  /** What happens to the list and the streams along a schedule: every registration by a free
      registrar, every clearing, and every event for a thread in its read loop. */
  function History(s: State, schedule: seq<Step>): seq<Entry>
    decreases |schedule|
  {
    if schedule == [] then [] else
    (match schedule[0]
     case Push(r) =>
       if r < |s.registrars| && s.registrars[r] == Outside then [Registered(s.book.issued)] else []
     case Clear => [Cleared]
     case Incoming(t, e) => if t < |s.threads| && s.threads[t].pc == Reading then [Received(t, e)] else []
     case _ => [])
    + History(Apply(s, schedule[0]), schedule[1..])
  }

  lemma {:induction false} JournalIsHistory(s: State, schedule: seq<Step>)
    ensures Exec(s, schedule).book.journal == s.book.journal + History(s, schedule)
    decreases |schedule|
  {
    if schedule == [] {
    } else {
      JournalIsHistory(Apply(s, schedule[0]), schedule[1..]);
    }
  }

  /** Over any run, each handler's log is exactly the fileshare events received while it was
      registered, in order and once each, and handlers run in registration order. */
  lemma LogsAreExact(n: nat, schedule: seq<Step>, h: nat)
    ensures var b := Exec(Init(n), schedule).book;
            Log(b.calls, h) == Expected(History(Init(n), schedule), h) && Ordered(b)
  {
    RunKeepsKept(Init(n), schedule);
    JournalIsHistory(Init(n), schedule);
    assert [] + History(Init(n), schedule) == History(Init(n), schedule);
  }

  // ----- The handler that starts a stream -----

  /** Handlers are known once registered, and no event came from a thread not yet spawned. */
  ghost predicate Known(s: State) {
    && (forall t | 0 <= t < |s.threads| :: s.threads[t].starter < s.book.issued)
    && (forall r | 0 <= r < |s.registrars| :: !s.registrars[r].Outside? ==> s.registrars[r].h < s.book.issued)
    && Unheard(s.book, |s.threads|)
  }

  ghost predicate Unheard(b: Book, n: nat) {
    && (forall t: nat | t >= n :: EventsOf(b.journal, t) == [])
    && (forall h: nat, t: nat | t >= n :: LogFrom(Log(b.calls, h), t) == [])
  }

  /** The handler has seen all events of the thread. */
  predicate Caught(b: Book, h: nat, t: nat) {
    LogFrom(Log(b.calls, h), t) == EventsOf(b.journal, t)
  }

  /** A thread's starter, unless cleared since, has seen all events of that thread. */
  ghost predicate Complete(s: State) {
    forall t | 0 <= t < |s.threads| && s.threads[t].starter >= s.book.wiped :: Caught(s.book, s.threads[t].starter, t)
  }

  lemma LogFromAppend(log: seq<(nat, Event)>, u: nat, e: Event, t: nat)
    ensures LogFrom(log + [(u, e)], t) == if u == t then LogFrom(log, t) + [e] else LogFrom(log, t)
  {
    assert (log + [(u, e)])[..|log|] == log;
  }

  /** What one dispatch adds to a thread's part of a log, and to its events. */
  lemma DispatchLogFrom(b: Book, u: nat, e: Event, h: nat, t: nat)
    requires Listed(b)
    ensures var c := Dispatch(b, u, e);
            && LogFrom(Log(c.calls, h), t) ==
               LogFrom(Log(b.calls, h), t) + (if u == t && Relevant(e) && b.wiped <= h < b.issued then [e] else [])
            && EventsOf(c.journal, t) == EventsOf(b.journal, t) + (if u == t && Relevant(e) then [e] else [])
  {
    var c := Dispatch(b, u, e);
    assert c.journal[..|c.journal| - 1] == b.journal;
    DispatchLog(b, u, e, h);
    LogFromAppend(Log(b.calls, h), u, e, t);
    assert Log(b.calls, h) + [] == Log(b.calls, h);
  }

  lemma DispatchKeepsUnheard(b: Book, u: nat, e: Event, n: nat)
    requires Listed(b) && Unheard(b, n) && u < n
    ensures Unheard(Dispatch(b, u, e), n)
  {
    var c := Dispatch(b, u, e);
    forall t: nat | t >= n ensures EventsOf(c.journal, t) == [] { DispatchLogFrom(b, u, e, 0, t); }
    forall h: nat, t: nat | t >= n ensures LogFrom(Log(c.calls, h), t) == [] { DispatchLogFrom(b, u, e, h, t); }
  }

  lemma DispatchKeepsComplete(s: State, u: nat, e: Event)
    requires Listed(s.book) && Known(s) && Complete(s) && u < |s.threads|
    ensures Complete(s.(book := Dispatch(s.book, u, e)))
  {
    var c := Dispatch(s.book, u, e);
    forall t | 0 <= t < |s.threads| && s.threads[t].starter >= c.wiped ensures Caught(c, s.threads[t].starter, t) {
      assert Caught(s.book, s.threads[t].starter, t) && s.threads[t].starter < s.book.issued;
      DispatchLogFrom(s.book, u, e, s.threads[t].starter, t);
    }
  }

  /** Registering and clearing bring no event to anybody. */
  lemma QuietBook(b: Book, c: Book, t: nat)
    requires c == Enter(b) || c == Wipe(b)
    ensures EventsOf(c.journal, t) == EventsOf(b.journal, t) && c.calls == b.calls
  {
    assert c.journal[..|c.journal| - 1] == b.journal;
  }

  lemma StepKeepsKnown(s: State, step: Step)
    requires Listed(s.book) && Known(s)
    ensures Known(Apply(s, step))
  {
    var c := Apply(s, step).book;
    if Enabled(s, step) {
      if step.Incoming? {
        DispatchKeepsUnheard(s.book, step.t, step.e, |s.threads|);
      } else if step.Push? || step.Clear? {
        forall t: nat ensures EventsOf(c.journal, t) == EventsOf(s.book.journal, t) { QuietBook(s.book, c, t); }
        assert c.calls == s.book.calls;
      }
    }
  }

  lemma StepKeepsComplete(s: State, step: Step)
    requires Listed(s.book) && Known(s) && Complete(s)
    ensures Complete(Apply(s, step))
  {
    var s1 := Apply(s, step);
    if Enabled(s, step) {
      if step.Incoming? {
        DispatchKeepsComplete(s, step.t, step.e);
      } else if step.Push? || step.Clear? {
        forall t | 0 <= t < |s1.threads| && s1.threads[t].starter >= s1.book.wiped
          ensures Caught(s1.book, s1.threads[t].starter, t)
        {
          QuietBook(s.book, s1.book, t);
          assert s.threads[t].starter >= s.book.wiped ==> Caught(s.book, s.threads[t].starter, t);
        }
      } else if step.Spawn? {
        var n := |s.threads|;
        assert EventsOf(s.book.journal, n) == [] && LogFrom(Log(s.book.calls, s1.threads[n].starter), n) == [];
      }
    }
  }

  lemma {:induction false} RunKeepsComplete(s: State, schedule: seq<Step>)
    requires Kept(s.book) && Known(s) && Complete(s)
    ensures Complete(Exec(s, schedule))
    decreases |schedule|
  {
    if schedule == [] {
    } else {
      StepKeepsKept(s, schedule[0]);
      StepKeepsKnown(s, schedule[0]);
      StepKeepsComplete(s, schedule[0]);
      RunKeepsComplete(Apply(s, schedule[0]), schedule[1..]);
    }
  }

  /** The handler whose registration started a stream misses no event of it, unless the list
      was cleared in between. */
  lemma StarterMissesNothing(n: nat, schedule: seq<Step>, t: nat)
    ensures var s := Exec(Init(n), schedule);
            t < |s.threads| && s.threads[t].starter >= s.book.wiped ==>
              LogFrom(Log(s.book.calls, s.threads[t].starter), t) == EventsOf(History(Init(n), schedule), t)
  {
    RunKeepsComplete(Init(n), schedule);
    JournalIsHistory(Init(n), schedule);
    assert [] + History(Init(n), schedule) == History(Init(n), schedule);
    assert var s := Exec(Init(n), schedule);
      t < |s.threads| && s.threads[t].starter >= s.book.wiped ==> Caught(s.book, s.threads[t].starter, t);
  }

  // ----- The client object -----

  /** All invariants at once; that of the handles needs serialised registrations. */
  ghost predicate Inv(s: State, holder: Holder) {
    && HeldBy(s, holder) && Kept(s.book) && Known(s) && Complete(s)
    && (|s.registrars| <= 1 ==> Serial(s))
  }

  lemma StepKeepsInv(s: State, holder: Holder, step: Step)
    requires Inv(s, holder)
    ensures Inv(Apply(s, step), NextHolder(s, holder, step))
  {
    StepMovesToken(s, holder, step);
    StepKeepsKept(s, step);
    StepKeepsKnown(s, step);
    StepKeepsComplete(s, step);
    if |s.registrars| <= 1 { StepKeepsSerial(s, step); }
    RegistrarsFixed(s, step);
  }

  lemma RegistrarsFixed(s: State, step: Step)
    ensures |Apply(s, step).registrars| == |s.registrars|
  {
  }

  /** Nobody reads events, and nobody but `r` is about to start. */
  ghost predicate OnlyStarter(s: State, r: nat) {
    && (forall q :: RegistrarHolds(s, q) ==> q == r)
    && (forall t :: !At(s, t, Reading))
  }

  /** No thread but `t` reads events, and nobody is about to start one. */
  ghost predicate OnlyReader(s: State, t: nat) {
    && (forall q :: !RegistrarHolds(s, q))
    && (forall u :: At(s, u, Reading) ==> u == t)
  }

  lemma StarterIsAlone(s: State, r: nat)
    requires HeldBy(s, Reg(r))
    ensures OnlyStarter(s, r)
  {
    forall t ensures !At(s, t, Reading) { assert !ThreadHolds(s, t); }
  }

  lemma ReaderIsAlone(s: State, t: nat)
    requires HeldBy(s, Thr(t))
    ensures OnlyReader(s, t)
  {
    forall u | At(s, u, Reading) ensures u == t { assert ThreadHolds(s, u); }
  }

  lemma HolderIs(s: State, holder: Holder, r: nat, t: nat)
    requires HeldBy(s, holder)
    ensures RegistrarHolds(s, r) ==> holder == Reg(r)
    ensures ThreadHolds(s, t) ==> holder == Thr(t)
  {
  }

  class EventClient {
    var streamStarted: bool
    var eventHandlers: seq<nat>
    var eventThread: Option<nat>
    var registrars: seq<Registrar>
    var threads: seq<Thread>
    var joined: set<nat>
    var dropped: set<nat>
    var issued: nat
    var wiped: nat
    var dispatched: nat
    var calls: seq<Call>
    var journal: seq<Entry>
    ghost var holder: Holder

    function View(): State
      reads this
    {
      State(streamStarted, eventThread, registrars, threads, joined, dropped,
            Book(eventHandlers, issued, wiped, dispatched, calls, journal))
    }

    ghost predicate Valid()
      reads this
    {
      Inv(View(), holder)
    }

    constructor (n: nat)
      ensures View() == Init(n) && Valid()
    {
      streamStarted, eventHandlers, eventThread := false, [], None;
      registrars, threads, joined, dropped := seq(n, _ => Outside), [], {}, {};
      issued, wiped, dispatched, calls, journal := 0, 0, 0, [], [];
      holder := Nobody;
    }

    /** The handler is new, and is on the list from now on. */
    method RegisterPush(r: nat)
      requires Valid() && r < |registrars| && registrars[r].Outside?
      modifies this
      ensures View() == Apply(old(View()), Push(r)) && Valid()
      ensures !Active(old(journal), old(issued)) && Active(journal, old(issued))
    {
      NewHandler(View().book);
      StepKeepsInv(View(), holder, Push(r));
      registrars := registrars[r := Pushed(issued)];
      eventHandlers := eventHandlers + [issued];
      journal := journal + [Registered(issued)];
      issued := issued + 1;
    }

    /** Whoever goes on to start a stream does so alone, and while none is read. */
    method RegisterExchange(r: nat)
      requires Valid() && r < |registrars| && registrars[r].Pushed?
      modifies this
      ensures View() == Apply(old(View()), Exchange(r)) && Valid()
      ensures registrars[r].Starting? ==> OnlyStarter(View(), r)
    {
      StepKeepsInv(View(), holder, Exchange(r));
      holder := NextHolder(View(), holder, Exchange(r));
      var was := streamStarted;
      streamStarted := true;
      registrars := registrars[r := if was then Outside else Starting(registrars[r].h)];
      if !was { StarterIsAlone(View(), r); }
    }

    /** StartFileshareEventStream joins the old thread; the call waits until it has exited. With
        serialised registrations every thread is then joined. */
    method StartJoin(r: nat)
      requires Valid() && r < |registrars| && registrars[r].Starting?
      requires MustJoin(View()) ==> At(View(), eventThread.value, Exited)
      modifies this
      ensures View() == Apply(old(View()), Join(r)) && Valid()
      ensures |registrars| <= 1 ==> forall t | 0 <= t < |threads| :: t in joined && threads[t].pc == Exited
    {
      StepKeepsInv(View(), holder, Join(r));
      if eventThread.Some? && eventThread.value !in joined {
        joined := joined + {eventThread.value};
      }
      registrars := registrars[r := Cleaned(registrars[r].h)];
      if |registrars| <= 1 { AllJoined(View()); }
    }

    /** The new thread is the only one that reads events. */
    method StartSpawn(r: nat)
      requires Valid() && r < |registrars| && registrars[r].Cleaned?
      modifies this
      ensures View() == Apply(old(View()), Spawn(r)) && Valid()
      ensures OnlyReader(View(), |old(threads)|)
    {
      StepKeepsInv(View(), holder, Spawn(r));
      holder := NextHolder(View(), holder, Spawn(r));
      var h := registrars[r].h;
      registrars := registrars[r := Spawned(h, |threads|)];
      threads := threads + [Thread(h, Reading)];
      ReaderIsAlone(View(), |threads| - 1);
    }

    /** With serialised registrations no joinable handle is overwritten. */
    method StartAssign(r: nat)
      requires Valid() && r < |registrars| && registrars[r].Spawned?
      modifies this
      ensures View() == Apply(old(View()), Assign(r)) && Valid()
      ensures |registrars| <= 1 ==> dropped == {}
    {
      StepKeepsInv(View(), holder, Assign(r));
      if eventThread.Some? && eventThread.value !in joined {
        dropped := dropped + {eventThread.value};
      }
      eventThread := Some(registrars[r].t);
      registrars := registrars[r := Outside];
    }

    /** No handler is on the list any more. */
    method ClearHandlers()
      requires Valid()
      modifies this
      ensures View() == Apply(old(View()), Clear) && Valid()
      ensures forall h: nat :: !Active(journal, h)
    {
      StepKeepsInv(View(), holder, Clear);
      eventHandlers := [];
      wiped := issued;
      journal := journal + [Cleared];
    }

    /** The body of the read loop: skip what is no fileshare event, else call each handler. */
    method DispatchStep(t: nat, e: Event)
      requires At(View(), t, Reading)
      modifies this
      ensures View() == Apply(old(View()), Incoming(t, e)) && holder == old(holder)
    {
      journal := journal + [Received(t, e)];
      if !e.fileshareTopic || !e.hasFileshareEvent {
        return;
      }
      var i := 0;
      var no, handlers, before := dispatched, eventHandlers, calls;
      while i < |eventHandlers|
        invariant 0 <= i <= |eventHandlers|
        invariant holder == old(holder)
        invariant View() == old(View()).(book := old(View()).book.(journal := journal, calls := calls))
        invariant journal == old(journal) + [Received(t, e)]
        invariant calls == before + Deliveries(no, handlers, t, e)[..i]
      {
        calls := calls + [Call(no, eventHandlers[i], t, e)];
        i := i + 1;
      }
      dispatched := dispatched + 1;
    }

    /** A fileshare event is added to the log of every handler on the list, once, and to no
        other; any other event to none. */
    method DispatchEvent(t: nat, e: Event)
      requires Valid() && At(View(), t, Reading)
      modifies this
      ensures View() == Apply(old(View()), Incoming(t, e)) && Valid()
      ensures forall h: nat :: Log(calls, h) ==
                Log(old(calls), h)
                + (if e.fileshareTopic && e.hasFileshareEvent && Active(old(journal), h) then [(t, e)] else [])
      ensures OnlyReader(View(), t)
    {
      ghost var b := View().book;
      HolderIs(View(), holder, 0, t);
      StepKeepsInv(View(), holder, Incoming(t, e));
      DispatchStep(t, e);
      ReaderIsAlone(View(), t);
      forall h: nat
        ensures Log(calls, h) == Log(b.calls, h) + (if Relevant(e) && Active(b.journal, h) then [(t, e)] else [])
      {
        DispatchLog(b, t, e, h);
      }
    }

    method EndStream(t: nat)
      requires Valid() && At(View(), t, Reading)
      modifies this
      ensures View() == Apply(old(View()), StreamEnd(t)) && Valid()
    {
      StepKeepsInv(View(), holder, StreamEnd(t));
      threads := threads[t := threads[t].(pc := StreamOver)];
    }

    /** Nobody reads events or is about to: the next registration starts a stream. */
    method ReleaseToken(t: nat)
      requires Valid() && At(View(), t, StreamOver)
      modifies this
      ensures View() == Apply(old(View()), Release(t)) && Valid()
      ensures !Serving(View())
    {
      StepKeepsInv(View(), holder, Release(t));
      holder := Nobody;
      streamStarted := false;
      threads := threads[t := threads[t].(pc := Released)];
      NobodyServes(View());
    }

    method ExitThread(t: nat)
      requires Valid() && At(View(), t, Released)
      modifies this
      ensures View() == Apply(old(View()), Exit(t)) && Valid()
    {
      StepKeepsInv(View(), holder, Exit(t));
      threads := threads[t := threads[t].(pc := Exited)];
    }
  }

  lemma NobodyServes(s: State)
    requires HeldBy(s, Nobody)
    ensures !Serving(s)
  {
    forall t ensures !At(s, t, Reading) { assert !ThreadHolds(s, t); }
  }

  lemma AllJoined(s: State)
    requires Serial(s) && |s.registrars| == 1 && s.registrars[0].Cleaned?
    ensures forall t | 0 <= t < |s.threads| :: t in s.joined && s.threads[t].pc == Exited
  {
    forall t | 0 <= t < |s.threads| ensures t in s.joined && s.threads[t].pc == Exited {
      assert t in s.joined && At(s, t, Exited);
    }
  }

  lemma NewHandler(b: Book)
    requires Kept(b)
    ensures !Active(b.journal, b.issued) && Active(Enter(b).journal, b.issued)
  {
    assert Enter(b).journal[..|b.journal|] == b.journal;
  }
}
