/** The mock enforcer's bidirectional pipe: the upstream callbacks of
    `StreamInvokeEzReactor`, the `StreamBridge` they drive, its reader thread, and the
    final `OnDone`. Each atomic action is one step; a schedule is any sequence of steps,
    and a step that is not enabled is skipped. Taken from gRPC: one `OnReadDone` per
    `StartRead`; `OnDone` comes after `Finish`, while no other callback runs, and is the
    last callback; a `Read` may return a message or fail at any time. */
module StreamBridge {
  import opened Messages
  import opened Runs
  import opened Sequences

  /** Position inside `Close`. */
  datatype Close = Exchange | Cancel | Join | FinishDown

  /** Where the upstream callback goes on after `Close`. */
  datatype Resume = ReadNext | Unlock(first: bool)

  /** The upstream callback thread; `first` marks the message that opened the stream. */
  datatype Up =
    | Waiting                                // a StartRead is outstanding
    | Lookup(m: EzRequest)
    | Connect(m: EzRequest)
    | Check(m: EzRequest, first: bool)
    | Write(m: EzRequest, first: bool)
    | Closing(at: Close, back: Resume)
    | Unlocking(first: bool)
    | Spawning
    | Ended                                  // no read outstanding, none will come

  datatype Reader =
    | NotSpawned | AtCheck | AtRead | Handing(r: IsolateResponse) | Notifying | Exiting | Exited

  datatype Done = NotCalled | DoneClosing(at: Close) | Destroying | Destroyed

  /** A std::thread object. */
  datatype Handle = NoThread | Joinable | Joined

  /** The members of StreamBridge. */
  datatype Fields = Fields(
    closed: bool,                            // is_closed_
    writing: bool,                           // is_writing_
    context: bool,                           // downstream_context_ set
    stream: bool,                            // downstream_stream_ set
    handle: Handle)                          // downstream_reader_thread_

  /** The messages that passed through. */
  datatype Flow = Flow(
    read: seq<EzRequest>,                    // read upstream
    written: seq<IsolateRequest>,            // written downstream
    got: seq<IsolateResponse>,               // read downstream
    handed: seq<EzResponse>,                 // handed upstream
    late: nat)                               // handed upstream after is_closed_ was set

  /** How often each one-time action happened. */
  datatype Tally = Tally(
    bodies: nat,                             // executions of the shutdown body of Close
    aborts: nat,                             // those of them made by the upstream callback
    cancels: nat,                            // TryCancel calls
    joins: nat,                              // joins of the reader thread
    halfCloses: nat,                         // downstream WritesDone calls
    downFinishes: nat,                       // downstream Finish calls
    finishes: nat)                           // upstream Finish calls

  datatype State = State(
    routes: set<string>,
    started: bool,                           // is_started_
    f: Fields, up: Up, reader: Reader, done: Done, flow: Flow, tally: Tally)

  datatype UpStep =
    | ReadDone(m: EzRequest) | ReadEnd
    | Route | Open(ok: bool) | CheckClosed | WriteDown(ok: bool) | Unlocked | Spawn

  datatype ReaderStep = ReaderCheck | ReaderGot(r: IsolateResponse) | ReaderEnd | Hand | Notify | Exit

  datatype DoneStep = CallDone | DoneClose | Destroy

  /** One action of the upstream callback, of a Close it called, of the reader thread, or of
      OnDone. */
  datatype Step = U(u: UpStep) | UpClose | R(r: ReaderStep) | D(d: DoneStep)

  function Init(routes: set<string>): State {
    State(routes, false, Fields(false, false, false, false, NoThread), Waiting, NotSpawned, NotCalled,
          Flow([], [], [], [], 0), Tally(0, 0, 0, 0, 0, 0, 0))
  }

  function Service(m: EzRequest): string {
    m.metadata.GetOr(NoMetadata).service
  }

  /** join() returns only after the reader has exited; without a thread it is not called. */
  predicate CanJoin(s: State) {
    s.f.handle.Joinable? ==> s.reader.Exited?
  }

  function JoinReader(s: State): State {
    if s.f.handle.Joinable? then s.(f := s.f.(handle := Joined), tally := s.tally.(joins := s.tally.joins + 1)) else s
  }

  /** One action of `Close`; None when it returns. */
  function CloseStep(s: State, at: Close): (r: (State, Option<Close>))
    ensures r.0.tally.bodies >= s.tally.bodies
  {
    match at
    case Exchange =>
      if s.f.closed then (s, None)
      else (s.(f := s.f.(closed := true), tally := s.tally.(bodies := s.tally.bodies + 1)), Some(Cancel))
    case Cancel =>
      (if s.f.context then s.(tally := s.tally.(cancels := s.tally.cancels + 1)) else s, Some(Join))
    case Join =>
      (JoinReader(s), Some(FinishDown))
    case FinishDown =>
      (if s.f.stream then s.(tally := s.tally.(downFinishes := s.tally.downFinishes + 1)) else s, None)
  }

  function AfterForward(first: bool): Up {
    if first then Spawning else Waiting
  }

  function Resumed(back: Resume): Up {
    match back
    case ReadNext => Waiting
    case Unlock(first) => Unlocking(first)
  }

  predicate UpEnabled(s: State, step: UpStep) {
    match step
    case ReadDone(_) => s.up.Waiting? && s.done.NotCalled?
    case ReadEnd => s.up.Waiting? && s.done.NotCalled?
    case Route => s.up.Lookup?
    case Open(_) => s.up.Connect?
    case CheckClosed => s.up.Check?
    case WriteDown(_) => s.up.Write? && !s.f.writing
    case Unlocked => s.up.Unlocking?
    case Spawn => s.up.Spawning?
  }

  function ApplyUp(s: State, step: UpStep): State {
    if !UpEnabled(s, step) then s else
    match step
    // StreamInvokeEzReactor::OnReadDone
    case ReadDone(m) =>
      s.(flow := s.flow.(read := s.flow.read + [m]), started := true,
         up := if s.started then Check(m, false) else Lookup(m))
    case ReadEnd =>
      if !s.f.closed && s.f.stream then s.(up := Ended, tally := s.tally.(halfCloses := s.tally.halfCloses + 1))
      else s.(up := Ended)
    // StreamBridge::Start
    case Route =>
      s.(up := if Service(s.up.m) in s.routes then Connect(s.up.m) else Closing(Exchange, ReadNext))
    case Open(ok) =>
      s.(f := s.f.(context := true, stream := ok),
         up := if ok then Check(s.up.m, true) else Closing(Exchange, ReadNext))
    case Spawn =>
      s.(f := s.f.(handle := Joinable), reader := AtCheck, up := Waiting)
    // StreamBridge::ForwardUpstreamToDownstream
    case CheckClosed =>
      s.(up := if s.f.closed then AfterForward(s.up.first) else Write(s.up.m, s.up.first))
    case WriteDown(ok) =>
      if ok then
        s.(f := s.f.(writing := true), flow := s.flow.(written := s.flow.written + [ToIsolate(s.up.m)]),
           up := Unlocking(s.up.first))
      else
        s.(f := s.f.(writing := true), up := Closing(Exchange, Unlock(s.up.first)))
    case Unlocked =>
      s.(f := s.f.(writing := false), up := AfterForward(s.up.first))
  }

  /** StreamBridge::Close, called from the upstream callback. */
  function ApplyUpClose(s: State): State {
    if !s.up.Closing? || (s.up.at.Join? && !CanJoin(s)) then s else
    var (t, next) := CloseStep(s, s.up.at);
    t.(up := if next.Some? then Closing(next.value, s.up.back) else Resumed(s.up.back),
       tally := t.tally.(aborts := s.tally.aborts + t.tally.bodies - s.tally.bodies))
  }

  predicate ReaderEnabled(s: State, step: ReaderStep) {
    match step
    case ReaderCheck => s.reader.AtCheck?
    case ReaderGot(_) => s.reader.AtRead?
    case ReaderEnd => s.reader.AtRead?
    case Hand => s.reader.Handing?
    case Notify => s.reader.Notifying?
    case Exit => s.reader.Exiting?
  }

  /** StreamBridge::PumpDownstreamToUpstream. */
  function ApplyReader(s: State, step: ReaderStep): State {
    if !ReaderEnabled(s, step) then s else
    match step
    case ReaderCheck => s.(reader := if s.f.closed then Notifying else AtRead)
    case ReaderGot(r) => s.(reader := Handing(r), flow := s.flow.(got := s.flow.got + [r]))
    case ReaderEnd => s.(reader := Notifying)
    case Hand =>
      s.(reader := AtCheck,
         flow := s.flow.(handed := s.flow.handed + [FromIsolate(s.reader.r)],
                         late := s.flow.late + (if s.f.closed then 1 else 0)))
    case Notify => s.(reader := Exiting, tally := s.tally.(finishes := s.tally.finishes + 1))
    case Exit => s.(reader := Exited)
  }

  predicate DoneEnabled(s: State, step: DoneStep) {
    match step
    case CallDone => s.done.NotCalled? && s.tally.finishes > 0 && (s.up.Waiting? || s.up.Ended?)
    case DoneClose => s.done.DoneClosing? && (s.done.at.Join? ==> CanJoin(s))
    case Destroy => s.done.Destroying? && CanJoin(s)
  }

  /** StreamInvokeEzReactor::OnDone and ~StreamBridge. */
  function ApplyDone(s: State, step: DoneStep): State {
    if !DoneEnabled(s, step) then s else
    match step
    case CallDone => s.(done := DoneClosing(Exchange), up := Ended)
    case DoneClose =>
      var (t, next) := CloseStep(s, s.done.at);
      t.(done := if next.Some? then DoneClosing(next.value) else Destroying)
    case Destroy => JoinReader(s).(done := Destroyed)
  }

  function Apply(s: State, step: Step): State {
    match step
    case U(u) => ApplyUp(s, u)
    case UpClose => ApplyUpClose(s)
    case R(r) => ApplyReader(s, r)
    case D(d) => ApplyDone(s, d)
  }

  function Exec(s: State, schedule: seq<Step>): State {
    Run(Apply, s, schedule)
  }

  // ----- The invariant -----

  /** The messages written are, in order, the first ones read, with metadata and payload
      unchanged. */
  ghost predicate PrefixOf(written: seq<IsolateRequest>, read: seq<EzRequest>) {
    |written| <= |read| && forall i | 0 <= i < |written| :: RequestKept(read[i], written[i])
  }

  ghost predicate HandedPrefixOf(handed: seq<EzResponse>, got: seq<IsolateResponse>) {
    |handed| <= |got| && forall i | 0 <= i < |handed| :: ResponseKept(got[i], handed[i])
  }

  /** All metadata and all datagrams arrive, the scope does not; what was unset arrives set to
      its default. */
  predicate RequestKept(from: EzRequest, to: IsolateRequest) {
    && to.metadata == Some(if from.metadata.Some? then from.metadata.value else NoMetadata)
    && to.input == Some(if from.payload.Some? then from.payload.value else [])
    && to.iscope == None
  }

  predicate ResponseKept(from: IsolateResponse, to: EzResponse) {
    && to.metadata == Some(if from.metadata.Some? then from.metadata.value else NoMetadata)
    && to.payload == Some(if from.output.Some? then from.output.value else [])
    && to.iscope == None
  }

  /** The upstream callback is inside Start, before the reader thread exists. */
  predicate Opening(up: Up) {
    match up
    case Lookup(_) => true
    case Connect(_) => true
    case Check(_, first) => first
    case Write(_, first) => first
    case Unlocking(first) => first
    case Closing(_, Unlock(first)) => first
    case Closing(_, ReadNext) => true
    case Spawning => true
    case _ => false
  }

  ghost predicate Lifecycle(s: State) {
    && (s.f.handle.NoThread? <==> s.reader.NotSpawned?)
    && (Opening(s.up) ==> s.reader.NotSpawned? && s.started)
    && (!s.started ==> (s.up.Waiting? || s.up.Ended?) && !s.f.closed && !s.f.stream && s.reader.NotSpawned?)
    && (s.tally.bodies == if s.f.closed then 1 else 0)
    && s.tally.aborts <= s.tally.bodies
    && (s.tally.bodies > s.tally.aborts ==> s.up.Ended?)
    && (s.up.Closing? && !s.up.at.Exchange? ==> s.tally.aborts == 1)
    && s.tally.cancels <= 1 && s.tally.downFinishes <= 1 && s.tally.halfCloses <= 1
    && (!s.f.closed ==> s.tally.cancels == 0 && s.tally.downFinishes == 0)
    && (s.up.Closing? ==> s.tally.downFinishes == 0 && (s.up.at.Cancel? ==> s.tally.cancels == 0))
    && (s.done.DoneClosing? && !s.done.at.Exchange? ==>
          s.tally.downFinishes == 0 && (s.done.at.Cancel? ==> s.tally.cancels == 0))
    && (!s.up.Ended? ==> s.tally.halfCloses == 0)
    && (s.tally.joins == if s.f.handle.Joined? then 1 else 0)
    && (s.f.handle.Joined? ==> s.reader.Exited?)
    && (s.tally.finishes == if s.reader.Exiting? || s.reader.Exited? then 1 else 0)
    && (!s.done.NotCalled? ==> s.tally.finishes == 1 && s.up.Ended?)
    && (s.up.Closing? && !s.up.at.Exchange? ==> s.f.closed)
    && (s.up.Closing? && s.up.at.FinishDown? ==> !s.f.handle.Joinable?)
    && (s.done.DoneClosing? && !s.done.at.Exchange? ==> s.f.closed)
    && (s.done.DoneClosing? && s.done.at.FinishDown? ==> !s.f.handle.Joinable?)
    && (s.done.Destroying? || s.done.Destroyed? ==> s.f.closed)
    && (s.done.Destroyed? ==> s.f.handle.Joined?)
    && (s.f.writing <==> s.up.Unlocking? || (s.up.Closing? && s.up.back.Unlock?))
  }

  ghost predicate Routed(s: State) {
    && (s.started <==> s.flow.read != [])
    && (s.up.Lookup? ==> s.flow.read == [s.up.m] && !s.f.stream)
    && (s.f.stream || s.up.Connect? || !s.reader.NotSpawned? || s.up.Spawning? ==>
          s.flow.read != [] && Service(s.flow.read[0]) in s.routes)
    && (s.flow.written != [] || !s.reader.NotSpawned? || s.up.Spawning? ==> s.f.stream)
    && (s.up.Connect? ==> s.flow.read == [s.up.m])
    && (s.up.Write? || (s.up.Check? && s.up.first) || s.up.Unlocking? ==> s.f.stream)
    && (s.up.Closing? && s.up.back.Unlock? ==> s.f.stream)
    && (s.started && !s.f.stream && !s.up.Lookup? && !s.up.Connect? ==>
          s.f.closed || s.up == Closing(Exchange, ReadNext))
  }

  ghost predicate Forwarded(s: State) {
    var behind := s.up.Lookup? || s.up.Connect? || s.up.Check? || s.up.Write? || s.up.Closing?;
    && PrefixOf(s.flow.written, s.flow.read)
    && (s.tally.aborts == 0 ==> |s.flow.written| == |s.flow.read| - (if behind then 1 else 0))
    && (s.up.Lookup? || s.up.Connect? || s.up.Check? || s.up.Write? ==>
          s.flow.read != [] && s.up.m == s.flow.read[|s.flow.read| - 1])
    && (s.up.Lookup? || s.up.Connect? || s.up.Write? ==> !s.f.closed)
  }

  ghost predicate Returned(s: State) {
    && |s.flow.handed| == |s.flow.got| - (if s.reader.Handing? then 1 else 0)
    && HandedPrefixOf(s.flow.handed, s.flow.got)
    && (s.reader.Handing? ==> s.reader.r == s.flow.got[|s.flow.got| - 1])
    && s.flow.late <= 1
    && (s.flow.late > 0 ==> s.f.closed && !s.reader.AtRead? && !s.reader.Handing?)
  }

  ghost predicate Inv(s: State) {
    Lifecycle(s) && Routed(s) && Forwarded(s) && Returned(s)
  }

  lemma UpKeepsLifecycle(s: State, step: UpStep)
    requires Inv(s)
    ensures Lifecycle(ApplyUp(s, step))
  {
  }

  lemma UpKeepsRouted(s: State, step: UpStep)
    requires Inv(s)
    ensures Routed(ApplyUp(s, step)) && Returned(ApplyUp(s, step))
  {
  }

  lemma UpKeepsForwarded(s: State, step: UpStep)
    requires Inv(s)
    ensures Forwarded(ApplyUp(s, step))
  {
  }

  lemma UpCloseKeepsLifecycle(s: State)
    requires Inv(s)
    ensures Lifecycle(ApplyUpClose(s))
  {
  }

  lemma UpCloseKeepsFlow(s: State)
    requires Inv(s)
    ensures Routed(ApplyUpClose(s)) && Forwarded(ApplyUpClose(s)) && Returned(ApplyUpClose(s))
  {
  }

  lemma ReaderKeepsLifecycle(s: State, step: ReaderStep)
    requires Inv(s)
    ensures Lifecycle(ApplyReader(s, step))
  {
  }

  lemma ReaderKeepsFlow(s: State, step: ReaderStep)
    requires Inv(s)
    ensures Routed(ApplyReader(s, step)) && Forwarded(ApplyReader(s, step)) && Returned(ApplyReader(s, step))
  {
  }

  lemma DoneCloseKeepsLifecycle(s: State)
    requires Inv(s)
    ensures Lifecycle(ApplyDone(s, DoneClose))
  {
  }

  lemma DoneKeepsLifecycle(s: State, step: DoneStep)
    requires Inv(s)
    ensures Lifecycle(ApplyDone(s, step))
  {
    if step.DoneClose? { DoneCloseKeepsLifecycle(s); }
  }

  lemma DoneKeepsFlow(s: State, step: DoneStep)
    requires Inv(s)
    ensures Routed(ApplyDone(s, step)) && Forwarded(ApplyDone(s, step)) && Returned(ApplyDone(s, step))
  {
  }

  lemma StepKeepsInv(s: State, step: Step)
    requires Inv(s)
    ensures Inv(Apply(s, step))
  {
    match step
    case U(u) => UpKeepsLifecycle(s, u); UpKeepsRouted(s, u); UpKeepsForwarded(s, u);
    case UpClose => UpCloseKeepsLifecycle(s); UpCloseKeepsFlow(s);
    case R(r) => ReaderKeepsLifecycle(s, r); ReaderKeepsFlow(s, r);
    case D(d) => DoneKeepsLifecycle(s, d); DoneKeepsFlow(s, d);
  }

  lemma {:induction false} RunKeepsInv(s: State, schedule: seq<Step>)
    requires Inv(s)
    ensures Inv(Exec(s, schedule))
    decreases |schedule|
  {
    if schedule == [] {
    } else {
      StepKeepsInv(s, schedule[0]);
      RunKeepsInv(Apply(s, schedule[0]), schedule[1..]);
    }
  }

  // ----- What every run promises -----

  /** In every interleaving the shutdown body of Close, its TryCancel, the downstream Finish
      and the half-close happen at most once; Finish goes upstream at most once, exactly when
      a spawned reader has left its loop and said so. */
  lemma OneShutdown(routes: set<string>, schedule: seq<Step>)
    ensures var s := Exec(Init(routes), schedule);
            && s.tally.bodies <= 1 && s.tally.cancels <= 1
            && s.tally.downFinishes <= 1 && s.tally.halfCloses <= 1
            && s.tally.finishes == (if s.reader.Exiting? || s.reader.Exited? then 1 else 0)
  {
    RunKeepsInv(Init(routes), schedule);
  }

  /** The reader thread is joined at most once and only after it has exited, and a destroyed
      bridge has joined it exactly once, whoever did it. */
  lemma ReaderJoinedOnce(routes: set<string>, schedule: seq<Step>)
    ensures var s := Exec(Init(routes), schedule);
            && s.tally.joins <= 1
            && (s.tally.joins == 1 ==> s.reader.Exited?)
            && (s.done.Destroyed? ==> s.tally.joins == 1)
  {
    RunKeepsInv(Init(routes), schedule);
  }

  /** Both directions are in-order prefixes, and at most one response is handed over after
      the closed flag is set. */
  lemma InOrder(routes: set<string>, schedule: seq<Step>)
    ensures var s := Exec(Init(routes), schedule);
            && PrefixOf(s.flow.written, s.flow.read)
            && HandedPrefixOf(s.flow.handed, s.flow.got)
            && s.flow.late <= 1
  {
    RunKeepsInv(Init(routes), schedule);
  }

  lemma LateStep(s: State, step: Step)
    requires s.f.closed
    ensures var t := Apply(s, step);
            t.f.closed && t.flow.late - s.flow.late == |t.flow.handed| - |s.flow.handed|
  {
    match step
    case U(u) =>
    case UpClose =>
    case R(r) =>
    case D(d) =>
  }

  lemma {:induction false} LateIsCounted(s: State, schedule: seq<Step>)
    requires s.f.closed
    ensures var t := Exec(s, schedule);
            t.f.closed && t.flow.late - s.flow.late == |t.flow.handed| - |s.flow.handed|
    decreases |schedule|
  {
    if schedule == [] {
    } else {
      LateStep(s, schedule[0]);
      LateIsCounted(Apply(s, schedule[0]), schedule[1..]);
    }
  }

  /** However a run goes on once the closed flag is set, at most one more response is handed
      over. */
  lemma OneMoreAfterClosing(routes: set<string>, before: seq<Step>, after: seq<Step>)
    requires Exec(Init(routes), before).f.closed
    ensures |Exec(Init(routes), before + after).flow.handed| <= |Exec(Init(routes), before).flow.handed| + 1
  {
    RunConcat(Apply, Init(routes), before, after);
    LateIsCounted(Exec(Init(routes), before), after);
    RunKeepsInv(Init(routes), before + after);
  }

  /** Unless the upstream callback itself shut the bridge, nothing read is withheld once its
      callback has returned, not even after OnDone; and no response read is withheld. */
  lemma NothingWithheld(routes: set<string>, schedule: seq<Step>)
    ensures var s := Exec(Init(routes), schedule);
            && (s.tally.aborts == 0 && (s.up.Waiting? || s.up.Ended?) ==>
                  s.flow.written == Map(ToIsolate, s.flow.read))
            && (!s.reader.Handing? ==> s.flow.handed == Map(FromIsolate, s.flow.got))
  {
    RunKeepsInv(Init(routes), schedule);
  }

  /** A stream without a message, or whose first message names a service without a route, is
      never opened, never finished and never destroyed: the caller is left waiting. */
  lemma UnroutedNeverFinishes(routes: set<string>, schedule: seq<Step>)
    ensures var s := Exec(Init(routes), schedule);
            s.flow.read == [] || Service(s.flow.read[0]) !in routes ==>
              && s.flow.written == [] && s.reader.NotSpawned? && s.tally.finishes == 0 && s.done.NotCalled?
              && s.tally.cancels == 0 && s.tally.downFinishes == 0 && s.tally.halfCloses == 0
  {
    RunKeepsInv(Init(routes), schedule);
    RunKeepsOrderly(Init(routes), schedule);
    RoutesFixed(Init(routes), schedule);
  }

  lemma {:induction false} RoutesFixed(s: State, schedule: seq<Step>)
    ensures Exec(s, schedule).routes == s.routes
    decreases |schedule|
  {
    if schedule == [] {
    } else {
      RoutesFixed(Apply(s, schedule[0]), schedule[1..]);
    }
  }

  /** When the caller ends its stream, from any reachable state, the end is passed on exactly
      once if the downstream stream is open, and no callback follows. */
  lemma EndIsPassedOn(routes: set<string>, schedule: seq<Step>)
    requires var s := Exec(Init(routes), schedule); s.up.Waiting? && s.done.NotCalled?
    ensures var s := Exec(Init(routes), schedule);
            var t := Apply(s, U(ReadEnd));
            && t.up.Ended? && t.flow == s.flow
            && t.tally.halfCloses == if !s.f.closed && s.f.stream then 1 else 0
  {
    RunKeepsInv(Init(routes), schedule);
  }

  // ----- How the downstream stream is used -----

  /** Some thread is inside the shutdown body of Close. */
  predicate InClose(s: State) {
    (s.up.Closing? && !s.up.at.Exchange?) || (s.done.DoneClosing? && !s.done.at.Exchange?)
  }

  ghost predicate Orderly(s: State) {
    && (s.tally.downFinishes > 0 ==> !s.reader.AtRead? && !s.reader.Handing?)
    && (s.f.stream ==> s.f.context)
    && (s.f.stream && !Opening(s.up) ==> !s.reader.NotSpawned?)
    && (s.up.Connect? || (s.up.Closing? && s.up.back.ReadNext?) ==> !s.f.stream)
    && (s.f.closed && s.f.context
        && !(s.up.Closing? && s.up.at.Cancel?) && !(s.done.DoneClosing? && s.done.at.Cancel?) ==>
          s.tally.cancels == 1)
    && (!s.f.context ==> s.tally.cancels == 0)
    && (s.f.context ==> s.flow.read != [] && Service(s.flow.read[0]) in s.routes)
    && (!s.f.stream ==> s.tally.downFinishes == 0 && s.tally.halfCloses == 0)
    && (s.f.closed && !InClose(s) ==> s.tally.downFinishes == if s.f.stream then 1 else 0)
  }

  /** Some thread is about to join the reader, or waiting to. */
  predicate Joining(s: State) {
    (s.up.Closing? && s.up.at.Join?) || (s.done.DoneClosing? && s.done.at.Join?) || s.done.Destroying?
  }

  lemma UpKeepsOrderly(s: State, step: UpStep)
    requires Inv(s) && Orderly(s)
    ensures Orderly(ApplyUp(s, step))
  {
  }

  lemma UpCloseKeepsOrderly(s: State)
    requires Inv(s) && Orderly(s)
    ensures Orderly(ApplyUpClose(s))
  {
  }

  lemma ReaderKeepsOrderly(s: State, step: ReaderStep)
    requires Inv(s) && Orderly(s)
    ensures Orderly(ApplyReader(s, step))
  {
  }

  lemma DoneKeepsOrderly(s: State, step: DoneStep)
    requires Inv(s) && Orderly(s)
    ensures Orderly(ApplyDone(s, step))
  {
  }

  lemma StepKeepsOrderly(s: State, step: Step)
    requires Inv(s) && Orderly(s)
    ensures Orderly(Apply(s, step))
  {
    match step
    case U(u) => UpKeepsOrderly(s, u);
    case UpClose => UpCloseKeepsOrderly(s);
    case R(r) => ReaderKeepsOrderly(s, r);
    case D(d) => DoneKeepsOrderly(s, d);
  }

  lemma {:induction false} RunKeepsOrderly(s: State, schedule: seq<Step>)
    requires Inv(s) && Orderly(s)
    ensures Orderly(Exec(s, schedule))
    decreases |schedule|
  {
    if schedule == [] {
    } else {
      StepKeepsInv(s, schedule[0]);
      StepKeepsOrderly(s, schedule[0]);
      RunKeepsOrderly(Apply(s, schedule[0]), schedule[1..]);
    }
  }

  /** In every interleaving the downstream stream is used as gRPC asks: a write is made only on
      an open stream, never after WritesDone or Finish; a read is made only on an open stream
      and never during or after Finish; and whoever waits for the reader thread, Close or the
      destructor, has cancelled the call first, so the reader cannot be stuck in its read. */
  lemma DownstreamUsedInOrder(routes: set<string>, schedule: seq<Step>)
    ensures var s := Exec(Init(routes), schedule);
            && (s.up.Write? ==> s.f.stream && s.tally.halfCloses == 0 && s.tally.downFinishes == 0)
            && (s.reader.AtRead? ==> s.f.stream && s.tally.downFinishes == 0)
            && (s.f.handle.Joinable? && Joining(s) ==> s.tally.cancels == 1)
  {
    RunKeepsInv(Init(routes), schedule);
    RunKeepsOrderly(Init(routes), schedule);
  }

  /** Once the body of Close has returned, the call was cancelled if it was made and the stream
      finished if there was one, exactly once each; a destroyed bridge has done both. */
  lemma ShutdownIsComplete(routes: set<string>, schedule: seq<Step>)
    ensures var s := Exec(Init(routes), schedule);
            && (s.f.closed && !InClose(s) ==>
                  && s.tally.cancels == (if s.f.context then 1 else 0)
                  && s.tally.downFinishes == (if s.f.stream then 1 else 0))
            && (s.done.Destroyed? ==> s.tally.bodies == 1 && s.tally.cancels == 1 && s.tally.downFinishes == 1)
  {
    RunKeepsInv(Init(routes), schedule);
    RunKeepsOrderly(Init(routes), schedule);
  }

  // ----- Teardown -----

  predicate Enabled(s: State, step: Step) {
    match step
    case U(u) => UpEnabled(s, u)
    case UpClose => s.up.Closing? && (s.up.at.Join? ==> CanJoin(s))
    case R(r) => ReaderEnabled(s, r)
    case D(d) => DoneEnabled(s, d)
  }

  /** The caller does something: every other step is the bridge's own. */
  predicate IsRead(step: Step) {
    step.U? && (step.u.ReadDone? || step.u.ReadEnd?)
  }

  /** How many actions of Close are left. */
  function Left(at: Close): nat {
    match at
    case Exchange => 4
    case Cancel => 3
    case Join => 2
    case FinishDown => 1
  }

  function UpWork(up: Up): nat {
    match up
    case Waiting => 0
    case Ended => 0
    case Spawning => 1
    case Unlocking(_) => 2
    case Closing(at, back) => Left(at) + 2
    case Write(_, _) => 7
    case Check(_, _) => 8
    case Connect(_) => 9
    case Lookup(_) => 10
  }

  /** An open reader reads on; a closed one leaves its loop at the next check. */
  function ReaderWork(reader: Reader, closed: bool): nat {
    match reader
    case Exited => 0
    case Exiting => 1
    case Notifying => 2
    case AtRead => 5
    case AtCheck => if closed then 3 else 6
    case Handing(_) => if closed then 4 else 7
    case NotSpawned => 8
  }

  function DoneWork(done: Done): nat {
    match done
    case Destroyed => 0
    case Destroying => 1
    case DoneClosing(at) => Left(at) + 1
    case NotCalled => 6
  }

  /** What is left to do until the bridge is destroyed. */
  function Work(s: State): nat {
    UpWork(s.up) + ReaderWork(s.reader, s.f.closed) + DoneWork(s.done)
  }

  /** A step that brings the teardown on: the reader first, its next Read failing; then the
      upstream callback; then OnDone. */
  function Next(s: State): Step {
    match s.reader
    case AtCheck => R(ReaderCheck)
    case AtRead => R(ReaderEnd)
    case Handing(_) => R(Hand)
    case Notifying => R(Notify)
    case Exiting => R(Exit)
    case _ =>
      match s.up
      case Check(_, _) => U(CheckClosed)
      case Write(_, _) => U(WriteDown(true))
      case Closing(_, _) => UpClose
      case Unlocking(_) => U(Unlocked)
      case Spawning => U(Spawn)
      case _ => if s.done.NotCalled? then D(CallDone) else if s.done.DoneClosing? then D(DoneClose) else D(Destroy)
  }

  lemma NextIsEnabled(s: State)
    requires Inv(s) && Orderly(s) && s.f.stream && !s.done.Destroyed?
    ensures Enabled(s, Next(s)) && !IsRead(Next(s))
  {
  }

  lemma UpDoesWork(s: State, u: UpStep)
    requires Lifecycle(s) && Orderly(s) && s.f.stream && UpEnabled(s, u) && !u.ReadDone? && !u.ReadEnd?
    ensures var t := ApplyUp(s, u); t.f.stream && t.f.closed == s.f.closed && Work(t) < Work(s)
  {
  }

  lemma CloseDoesWork(s: State)
    requires Enabled(s, UpClose)
    ensures var t := ApplyUpClose(s); t.f.stream == s.f.stream && (s.f.closed ==> t.f.closed) && Work(t) < Work(s)
  {
  }

  lemma ReaderDoesWork(s: State, r: ReaderStep)
    requires ReaderEnabled(s, r) && (s.f.closed || !r.ReaderGot?)
    ensures var t := ApplyReader(s, r); t.f == s.f && Work(t) < Work(s)
  {
  }

  lemma DoneCloseDoesWork(s: State)
    requires DoneEnabled(s, DoneClose)
    ensures var t := ApplyDone(s, DoneClose);
            t.f.stream == s.f.stream && (s.f.closed ==> t.f.closed) && Work(t) < Work(s)
  {
  }

  lemma DoneDoesWork(s: State, d: DoneStep)
    requires DoneEnabled(s, d)
    ensures var t := ApplyDone(s, d); t.f.stream == s.f.stream && (s.f.closed ==> t.f.closed) && Work(t) < Work(s)
  {
    if d.DoneClose? { DoneCloseDoesWork(s); }
  }

  /** Every step of the bridge's own brings the teardown on, except an open reader's read. */
  lemma StepDoesWork(s: State, step: Step)
    requires Inv(s) && Orderly(s) && s.f.stream && Enabled(s, step) && !IsRead(step)
    requires s.f.closed || !step.R? || !step.r.ReaderGot?
    ensures var t := Apply(s, step); t.f.stream && (s.f.closed ==> t.f.closed) && Work(t) < Work(s)
  {
    match step
    case U(u) => UpDoesWork(s, u);
    case UpClose => CloseDoesWork(s);
    case R(r) => ReaderDoesWork(s, r);
    case D(d) => DoneDoesWork(s, d);
  }

  lemma {:induction false} TearsDown(s: State) returns (more: seq<Step>)
    requires Inv(s) && Orderly(s) && s.f.stream
    ensures Exec(s, more).done.Destroyed?
    decreases Work(s)
  {
    if s.done.Destroyed? {
      more := [];
    } else {
      NextIsEnabled(s);
      StepDoesWork(s, Next(s));
      StepKeepsInv(s, Next(s));
      StepKeepsOrderly(s, Next(s));
      var rest := TearsDown(Apply(s, Next(s)));
      more := [Next(s)] + rest;
    }
  }

  /** No interleaving can deadlock an opened bridge: from every reachable state of it some run
      ends in the destructor. */
  lemma AlwaysTearsDown(routes: set<string>, schedule: seq<Step>) returns (more: seq<Step>)
    requires Exec(Init(routes), schedule).f.stream
    ensures Exec(Exec(Init(routes), schedule), more).done.Destroyed?
  {
    RunKeepsInv(Init(routes), schedule);
    RunKeepsOrderly(Init(routes), schedule);
    more := TearsDown(Exec(Init(routes), schedule));
  }

  /** A run of the bridge's own steps, each of them enabled. */
  ghost predicate OwnRun(s: State, steps: seq<Step>)
    decreases |steps|
  {
    steps == [] || (Enabled(s, steps[0]) && !IsRead(steps[0]) && OwnRun(Apply(s, steps[0]), steps[1..]))
  }

  lemma {:induction false} OwnRunIsShort(s: State, steps: seq<Step>)
    requires Inv(s) && Orderly(s) && s.f.closed && s.f.stream && OwnRun(s, steps)
    ensures var t := Exec(s, steps);
            Inv(t) && Orderly(t) && t.f.stream && |steps| + Work(t) <= Work(s)
    decreases |steps|
  {
    if steps == [] {
    } else {
      StepDoesWork(s, steps[0]);
      StepKeepsInv(s, steps[0]);
      StepKeepsOrderly(s, steps[0]);
      OwnRunIsShort(Apply(s, steps[0]), steps[1..]);
    }
  }

  /** Once the closed flag is set, every run of the bridge's own steps is bounded, and one that
      cannot go on has destroyed the bridge: teardown needs no luck, only that threads run. */
  lemma ClosedBridgeMustEnd(routes: set<string>, schedule: seq<Step>, steps: seq<Step>)
    requires Exec(Init(routes), schedule).f.closed && Exec(Init(routes), schedule).f.stream
    requires OwnRun(Exec(Init(routes), schedule), steps)
    ensures |steps| <= Work(Exec(Init(routes), schedule))
    ensures var t := Exec(Exec(Init(routes), schedule), steps);
            (forall step | !IsRead(step) :: !Enabled(t, step)) ==> t.done.Destroyed?
  {
    var s := Exec(Init(routes), schedule);
    RunKeepsInv(Init(routes), schedule);
    RunKeepsOrderly(Init(routes), schedule);
    OwnRunIsShort(s, steps);
    if !Exec(s, steps).done.Destroyed? {
      NextIsEnabled(Exec(s, steps));
    }
  }

  // ----- Which streams are ever finished -----

  /** The stream was not opened and no longer can be. */
  ghost predicate Abandoned(s: State) {
    && !s.f.stream && s.reader.NotSpawned? && s.tally.finishes == 0 && s.done.NotCalled?
    && (s.up.Ended? || (s.started && ((s.up.Waiting? && s.f.closed) || (s.up.Check? && !s.up.first && s.f.closed)
                                      || (s.up.Closing? && s.up.back.ReadNext?))))
  }

  lemma {:induction false} AbandonedForEver(s: State, schedule: seq<Step>)
    requires Inv(s) && Abandoned(s)
    ensures Abandoned(Exec(s, schedule))
    decreases |schedule|
  {
    if schedule == [] {
    } else {
      StepKeepsInv(s, schedule[0]);
      assert Abandoned(Apply(s, schedule[0]));
      AbandonedForEver(Apply(s, schedule[0]), schedule[1..]);
    }
  }

  /** Whether the downstream call was made is settled. */
  predicate Decided(s: State) {
    !s.up.Lookup? && !s.up.Connect? && (s.up.Waiting? ==> s.started)
  }

  /** From every reachable state in which that is settled, the bridge can be finished and
      destroyed if and only if the downstream stream was made; it is made only for a first
      message that has a route. Otherwise no continuation finishes it: not for a stream
      without a message, nor without a route, nor when the stream cannot be made. */
  lemma FinishedIffOpened(routes: set<string>, schedule: seq<Step>)
    requires Decided(Exec(Init(routes), schedule))
    ensures var s := Exec(Init(routes), schedule);
            && ((exists more :: Exec(s, more).done.Destroyed?) <==> s.f.stream)
            && ((exists more :: Exec(s, more).tally.finishes > 0) <==> s.f.stream)
            && (s.f.stream ==> s.flow.read != [] && Service(s.flow.read[0]) in routes)
  {
    var s := Exec(Init(routes), schedule);
    RunKeepsInv(Init(routes), schedule);
    RunKeepsOrderly(Init(routes), schedule);
    RoutesFixed(Init(routes), schedule);
    if s.f.stream {
      var more := TearsDown(s);
      RunKeepsInv(s, more);
      assert Exec(s, more).tally.finishes > 0;
    } else {
      forall more ensures !Exec(s, more).done.Destroyed? && Exec(s, more).tally.finishes == 0 {
        AbandonedForEver(s, more);
      }
    }
  }

  /** A routed stream whose downstream call cannot be made: whatever happens then, the caller
      is left waiting. */
  lemma OpenFailureIsNeverReported(routes: set<string>, m: EzRequest, more: seq<Step>)
    requires Service(m) in routes
    ensures var s := Exec(Init(routes), [U(ReadDone(m)), U(Route), U(Open(false))] + more);
            s.tally.finishes == 0 && s.done.NotCalled?
  {
    var first := [U(ReadDone(m)), U(Route), U(Open(false))];
    RunThree(Apply, Init(routes), U(ReadDone(m)), U(Route), U(Open(false)));
    RunConcat(Apply, Init(routes), first, more);
    RunKeepsInv(Init(routes), first);
    AbandonedForEver(Exec(Init(routes), first), more);
  }

  // ----- Every stream can be carried -----

  /** Open, healthy and idle. */
  ghost predicate Running(s: State) {
    && s.started && s.up.Waiting? && s.done.NotCalled? && s.reader.AtCheck?
    && !s.f.closed && !s.f.writing && s.f.stream && s.tally.aborts == 0
  }

  function Opened(m: EzRequest): seq<Step> {
    [U(ReadDone(m)), U(Route), U(Open(true)), U(CheckClosed)] + [U(WriteDown(true)), U(Unlocked), U(Spawn)]
  }

  function Request(m: EzRequest): seq<Step> {
    [U(ReadDone(m)), U(CheckClosed), U(WriteDown(true)), U(Unlocked)]
  }

  function Answer(r: IsolateResponse): seq<Step> {
    [R(ReaderCheck), R(ReaderGot(r)), R(Hand)]
  }

  function Requested(ms: seq<EzRequest>): seq<Step> {
    if ms == [] then [] else Request(ms[0]) + Requested(ms[1..])
  }

  function Answered(rs: seq<IsolateResponse>): seq<Step> {
    if rs == [] then [] else Answer(rs[0]) + Answered(rs[1..])
  }

  lemma StreamOpens(routes: set<string>, m: EzRequest)
    requires Service(m) in routes
    ensures var s := Exec(Init(routes), Opened(m)); Running(s) && s.flow.read == [m] && s.flow.got == []
  {
    RunFour(Apply, Init(routes), U(ReadDone(m)), U(Route), U(Open(true)), U(CheckClosed));
    var s := Exec(Init(routes), [U(ReadDone(m)), U(Route), U(Open(true)), U(CheckClosed)]);
    RunThree(Apply, s, U(WriteDown(true)), U(Unlocked), U(Spawn));
    RunConcat(Apply, Init(routes), [U(ReadDone(m)), U(Route), U(Open(true)), U(CheckClosed)],
               [U(WriteDown(true)), U(Unlocked), U(Spawn)]);
  }

  lemma RequestGoesThrough(s: State, m: EzRequest)
    requires Running(s)
    ensures var t := Exec(s, Request(m));
            Running(t) && t.flow.read == s.flow.read + [m] && t.flow.got == s.flow.got
  {
    RunFour(Apply, s, U(ReadDone(m)), U(CheckClosed), U(WriteDown(true)), U(Unlocked));
  }

  lemma AnswerComesBack(s: State, r: IsolateResponse)
    requires Running(s)
    ensures var t := Exec(s, Answer(r));
            Running(t) && t.flow.got == s.flow.got + [r] && t.flow.read == s.flow.read
  {
    RunThree(Apply, s, R(ReaderCheck), R(ReaderGot(r)), R(Hand));
  }

  lemma {:induction false} RequestsGoThrough(s: State, ms: seq<EzRequest>)
    requires Running(s)
    ensures var t := Exec(s, Requested(ms));
            Running(t) && t.flow.read == s.flow.read + ms && t.flow.got == s.flow.got
    decreases |ms|
  {
    if ms == [] {
    } else {
      RequestGoesThrough(s, ms[0]);
      RunConcat(Apply, s, Request(ms[0]), Requested(ms[1..]));
      RequestsGoThrough(Exec(s, Request(ms[0])), ms[1..]);
      assert (s.flow.read + [ms[0]]) + ms[1..] == s.flow.read + ms;
    }
  }

  lemma {:induction false} AnswersComeBack(s: State, rs: seq<IsolateResponse>)
    requires Running(s)
    ensures var t := Exec(s, Answered(rs));
            Running(t) && t.flow.got == s.flow.got + rs && t.flow.read == s.flow.read
    decreases |rs|
  {
    if rs == [] {
    } else {
      AnswerComesBack(s, rs[0]);
      RunConcat(Apply, s, Answer(rs[0]), Answered(rs[1..]));
      AnswersComeBack(Exec(s, Answer(rs[0])), rs[1..]);
      assert (s.flow.got + [rs[0]]) + rs[1..] == s.flow.got + rs;
    }
  }

  /** Whatever a routed caller sends and the isolate answers, some run carries all of it. */
  lemma AnyStreamCanPass(routes: set<string>, ms: seq<EzRequest>, rs: seq<IsolateResponse>)
    returns (schedule: seq<Step>)
    requires ms != [] && Service(ms[0]) in routes
    ensures var s := Exec(Init(routes), schedule);
            && Running(s)
            && s.flow.read == ms && s.flow.written == Map(ToIsolate, ms)
            && s.flow.got == rs && s.flow.handed == Map(FromIsolate, rs)
  {
    var opening, requested := Opened(ms[0]), Requested(ms[1..]);
    schedule := opening + (requested + Answered(rs));
    var s1 := Exec(Init(routes), opening);
    var s2 := Exec(s1, requested);
    StreamOpens(routes, ms[0]);
    RequestsGoThrough(s1, ms[1..]);
    AnswersComeBack(s2, rs);
    RunConcat(Apply, Init(routes), opening, requested + Answered(rs));
    RunConcat(Apply, s1, requested, Answered(rs));
    NothingWithheld(routes, schedule);
  }

  // ----- What single calls may rely on -----

  ghost predicate Sound(s: State) {
    Inv(s) && Orderly(s)
  }

  lemma StepKeepsSound(s: State, step: Step)
    requires Sound(s)
    ensures Sound(Apply(s, step))
  {
    StepKeepsInv(s, step);
    StepKeepsOrderly(s, step);
  }

  /** Between two upstream callbacks nothing read is left to be written. */
  lemma CaughtUp(s: State)
    requires Inv(s) && s.tally.aborts == 0 && (s.up.Waiting? || s.up.Ended? || s.up.Unlocking? || s.up.Spawning?)
    ensures s.flow.written == Map(ToIsolate, s.flow.read)
  {
  }

  lemma HandedOver(s: State)
    requires Inv(s) && !s.reader.Handing?
    ensures s.flow.handed == Map(FromIsolate, s.flow.got)
  {
  }

  lemma OpenMeansNoAbort(s: State)
    requires Inv(s) && !s.f.closed
    ensures s.tally.aborts == 0 && s.tally.downFinishes == 0
  {
  }

  lemma RoutedConnect(s: State)
    requires Inv(s) && s.up.Connect?
    ensures s.flow.read != [] && Service(s.flow.read[0]) in s.routes
  {
  }

  // ----- The object whose methods are those steps -----

  class Bridge {
    const routes: set<string>
    var isStarted: bool
    var isClosed: bool
    var isWriting: bool
    var hasContext: bool
    var hasStream: bool
    var readerThread: Handle
    var up: Up
    var reader: Reader
    var done: Done
    var flow: Flow
    var tally: Tally

    function View(): State
      reads this
    {
      State(routes, isStarted, Fields(isClosed, isWriting, hasContext, hasStream, readerThread),
            up, reader, done, flow, tally)
    }

    ghost predicate Valid()
      reads this
    {
      Sound(View())
    }

    constructor (routes: set<string>)
      ensures View() == Init(routes) && Valid()
    {
      this.routes := routes;
      isStarted, isClosed, isWriting, hasContext, hasStream := false, false, false, false, false;
      readerThread, up, reader, done := NoThread, Waiting, NotSpawned, NotCalled;
      flow, tally := Flow([], [], [], [], 0), Tally(0, 0, 0, 0, 0, 0, 0);
    }

    /** OnReadDone(true): the first message starts the bridge, later ones are forwarded. Unless the
        callback itself shut the bridge, every earlier message has been written. */
    method OnReadDone(m: EzRequest)
      requires Valid() && up.Waiting? && done.NotCalled?
      modifies this
      ensures View() == Apply(old(View()), U(ReadDone(m))) && Valid()
      ensures tally.aborts == 0 ==> flow.written == Map(ToIsolate, old(flow.read))
    {
      if tally.aborts == 0 { CaughtUp(View()); }
      StepKeepsSound(View(), U(ReadDone(m)));
      flow := flow.(read := flow.read + [m]);
      if !isStarted {
        isStarted := true;
        up := Lookup(m);
      } else {
        up := Check(m, false);
      }
    }

    /** OnReadDone(false): an open stream is half-closed, once, after everything was written. */
    method OnReadEnd()
      requires Valid() && up.Waiting? && done.NotCalled?
      modifies this
      ensures View() == Apply(old(View()), U(ReadEnd)) && Valid()
      ensures tally.halfCloses == if !old(isClosed) && hasStream then 1 else 0
      ensures tally.halfCloses > 0 ==> flow.written == Map(ToIsolate, flow.read)
    {
      if !isClosed {
        OpenMeansNoAbort(View());
        CaughtUp(View());
      }
      StepKeepsSound(View(), U(ReadEnd));
      up := Ended;
      if !isClosed && hasStream {
        tally := tally.(halfCloses := tally.halfCloses + 1);
      }
    }

    /** The first message has a route, or the bridge is going to close. */
    method StartRoute()
      requires Valid() && up.Lookup?
      modifies this
      ensures View() == Apply(old(View()), U(Route)) && Valid()
      ensures flow.read != [] && (up.Connect? <==> Service(flow.read[0]) in routes)
    {
      StepKeepsSound(View(), U(Route));
      if Service(up.m) in routes {
        up := Connect(up.m);
      } else {
        up := Closing(Exchange, ReadNext);
      }
    }

    /** A downstream call is made only for a first message that has a route. */
    method StartOpen(ok: bool)
      requires Valid() && up.Connect?
      modifies this
      ensures View() == Apply(old(View()), U(Open(ok))) && Valid()
      ensures hasStream == ok && flow.read != [] && Service(flow.read[0]) in routes
    {
      RoutedConnect(View());
      StepKeepsSound(View(), U(Open(ok)));
      hasContext, hasStream := true, ok;
      up := if ok then Check(up.m, true) else Closing(Exchange, ReadNext);
    }

    /** The one reader is spawned, when the first message was written or the bridge is closed. */
    method StartSpawn()
      requires Valid() && up.Spawning?
      modifies this
      ensures View() == Apply(old(View()), U(Spawn)) && Valid()
      ensures old(reader).NotSpawned? && tally.joins == 0
      ensures isClosed || flow.written == Map(ToIsolate, flow.read)
    {
      if !isClosed {
        OpenMeansNoAbort(View());
        CaughtUp(View());
      }
      StepKeepsSound(View(), U(Spawn));
      readerThread, reader := Joinable, AtCheck;
      up := Waiting;
    }

    /** A write is begun only on a stream that was neither half-closed nor finished. */
    method ForwardCheck()
      requires Valid() && up.Check?
      modifies this
      ensures View() == Apply(old(View()), U(CheckClosed)) && Valid()
      ensures up.Write? ==> hasStream && tally.halfCloses == 0 && tally.downFinishes == 0
    {
      if !isClosed { OpenMeansNoAbort(View()); }
      StepKeepsSound(View(), U(CheckClosed));
      up := if isClosed then AfterForward(up.first) else Write(up.m, up.first);
    }

    /** After a write that succeeds everything read so far has been written, in order. */
    method ForwardWrite(ok: bool)
      requires Valid() && up.Write? && !isWriting
      modifies this
      ensures View() == Apply(old(View()), U(WriteDown(ok))) && Valid()
      ensures ok ==> flow.written == Map(ToIsolate, flow.read)
      ensures tally.halfCloses == 0 && tally.downFinishes == 0
    {
      OpenMeansNoAbort(View());
      StepKeepsSound(View(), U(WriteDown(ok)));
      isWriting := true;
      if ok {
        flow := flow.(written := flow.written + [ToIsolate(up.m)]);
        up := Unlocking(up.first);
      } else {
        up := Closing(Exchange, Unlock(up.first));
      }
      if ok { CaughtUp(View()); }
    }

    method ForwardUnlock()
      requires Valid() && up.Unlocking?
      modifies this
      ensures View() == Apply(old(View()), U(Unlocked)) && Valid()
    {
      StepKeepsSound(View(), U(Unlocked));
      isWriting := false;
      up := AfterForward(up.first);
    }

    /** One action of Close, on whichever thread called it. */
    method CloseAction(at: Close) returns (next: Option<Close>)
      requires at.Join? ==> CanJoin(View())
      modifies this
      ensures (View(), next) == CloseStep(old(View()), at)
    {
      match at
      case Exchange =>
        next := if isClosed then None else Some(Cancel);
        if !isClosed {
          isClosed := true;
          tally := tally.(bodies := tally.bodies + 1);
        }
      case Cancel =>
        if hasContext { tally := tally.(cancels := tally.cancels + 1); }
        next := Some(Join);
      case Join =>
        JoinIfJoinable();
        next := Some(FinishDown);
      case FinishDown =>
        if hasStream { tally := tally.(downFinishes := tally.downFinishes + 1); }
        next := None;
    }

    method JoinIfJoinable()
      requires CanJoin(View())
      modifies this
      ensures View() == JoinReader(old(View()))
    {
      if readerThread.Joinable? {
        readerThread := Joined;
        tally := tally.(joins := tally.joins + 1);
      }
    }

    /** Close, called from the upstream callback: its body runs once, and the reader is waited for
        only after the call was cancelled. */
    method CloseUpstream()
      requires Valid() && up.Closing? && (up.at.Join? ==> CanJoin(View()))
      modifies this
      ensures View() == Apply(old(View()), UpClose) && Valid()
      ensures tally.bodies <= 1 && tally.joins <= 1
      ensures readerThread.Joinable? && Joining(View()) ==> tally.cancels == 1
      ensures isClosed && !InClose(View()) ==> tally.downFinishes == if hasStream then 1 else 0
    {
      StepKeepsSound(View(), UpClose);
      var bodies := tally.bodies;
      var next := CloseAction(up.at);
      tally := tally.(aborts := tally.aborts + tally.bodies - bodies);
      up := if next.Some? then Closing(next.value, up.back) else Resumed(up.back);
    }

    /** A read is begun only on a stream that was not finished. */
    method PumpCheck()
      requires Valid() && reader.AtCheck?
      modifies this
      ensures View() == Apply(old(View()), R(ReaderCheck)) && Valid()
      ensures reader.AtRead? ==> hasStream && tally.downFinishes == 0
    {
      if !isClosed { OpenMeansNoAbort(View()); }
      StepKeepsSound(View(), R(ReaderCheck));
      reader := if isClosed then Notifying else AtRead;
    }

    /** Read returned a response, or None when it failed; every earlier response was handed over. */
    method PumpRead(response: Option<IsolateResponse>)
      requires Valid() && reader.AtRead?
      modifies this
      ensures View() == Apply(old(View()), R(if response.Some? then ReaderGot(response.value) else ReaderEnd))
      ensures Valid()
      ensures flow.handed == Map(FromIsolate, old(flow.got))
    {
      HandedOver(View());
      StepKeepsSound(View(), R(if response.Some? then ReaderGot(response.value) else ReaderEnd));
      if response.Some? {
        flow := flow.(got := flow.got + [response.value]);
        reader := Handing(response.value);
      } else {
        reader := Notifying;
      }
    }

    /** Every response read so far has been handed over, at most one of them after closing. */
    method PumpHand()
      requires Valid() && reader.Handing?
      modifies this
      ensures View() == Apply(old(View()), R(Hand)) && Valid()
      ensures flow.handed == Map(FromIsolate, flow.got) && flow.late <= 1
    {
      StepKeepsSound(View(), R(Hand));
      flow := flow.(handed := flow.handed + [FromIsolate(reader.r)]);
      if isClosed { flow := flow.(late := flow.late + 1); }
      reader := AtCheck;
      HandedOver(View());
    }

    /** Finish goes upstream for the first time, after every response read was handed over. */
    method PumpNotify()
      requires Valid() && reader.Notifying?
      modifies this
      ensures View() == Apply(old(View()), R(Notify)) && Valid()
      ensures tally.finishes == 1 && flow.handed == Map(FromIsolate, flow.got)
    {
      HandedOver(View());
      StepKeepsSound(View(), R(Notify));
      tally := tally.(finishes := tally.finishes + 1);
      reader := Exiting;
    }

    method PumpExit()
      requires Valid() && reader.Exiting?
      modifies this
      ensures View() == Apply(old(View()), R(Exit)) && Valid()
    {
      StepKeepsSound(View(), R(Exit));
      reader := Exited;
    }

    /** The last callback comes when the reader has finished the call and handed everything over. */
    method OnDone()
      requires Valid() && done.NotCalled? && tally.finishes > 0 && (up.Waiting? || up.Ended?)
      modifies this
      ensures View() == Apply(old(View()), D(CallDone)) && Valid()
      ensures (reader.Exiting? || reader.Exited?) && flow.handed == Map(FromIsolate, flow.got)
    {
      HandedOver(View());
      StepKeepsSound(View(), D(CallDone));
      done := DoneClosing(Exchange);
      up := Ended;
    }

    /** Close, called from OnDone: its body runs once in all, and the reader is waited for only
        after the call was cancelled. */
    method OnDoneClose()
      requires Valid() && done.DoneClosing? && (done.at.Join? ==> CanJoin(View()))
      modifies this
      ensures View() == Apply(old(View()), D(DoneClose)) && Valid()
      ensures tally.bodies <= 1 && tally.joins <= 1
      ensures readerThread.Joinable? && Joining(View()) ==> tally.cancels == 1
      ensures done.Destroying? ==> tally.cancels == 1 && tally.downFinishes == 1
    {
      StepKeepsSound(View(), D(DoneClose));
      var next := CloseAction(done.at);
      done := if next.Some? then DoneClosing(next.value) else Destroying;
    }

    /** The destructor joins whatever Close left joinable: the reader has exited and was joined
        exactly once, and the shutdown body ran exactly once. */
    method DestroyBridge()
      requires Valid() && done.Destroying? && CanJoin(View())
      modifies this
      ensures View() == Apply(old(View()), D(Destroy)) && Valid()
      ensures reader.Exited? && tally.joins == 1 && tally.bodies == 1 && tally.finishes == 1
      ensures tally.cancels == 1 && tally.downFinishes == 1
    {
      StepKeepsSound(View(), D(Destroy));
      JoinIfJoinable();
      done := Destroyed;
    }
  }
}
