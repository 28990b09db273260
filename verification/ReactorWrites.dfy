/** The write half of the C++ `Reactor`: `WriteResponse` on one or more writer threads,
    interleaved with gRPC's write completions. Every atomic action of the source is one
    step, and a schedule is any sequence of steps; a step that is not enabled is skipped,
    which is how a blocked thread behaves. Responses are named by the order in which
    `WriteResponse` accepted them. */
module ReactorWrites {
  import opened Runs
  import opened Sequences

  /** Where a thread stands inside `WriteResponse`, with the response its frame owns. */
  datatype Writer = Idle | Passed(r: nat) | Stored(r: nat) | Started(r: nat)

  /** gRPC's side of the writes. */
  datatype Wire = Wire(
    onWire: set<nat>,      // StartWrite called, not completed yet
    completed: seq<nat>,   // in completion order
    releasing: nat,        // OnWriteDone callbacks that have not stored false yet
    popping: nat)          // OnWriteDone callbacks between the store and the deque

  /** The responses that the reactor keeps alive. */
  datatype Deque = Deque(
    pending: seq<nat>,     // pending_writes_
    freed: seq<nat>,       // popped from the deque, hence destroyed, in that order
    misses: nat)           // completions that found the deque empty

  datatype State = State(
    writing: bool,         // writing_in_progress_
    writers: seq<Writer>,
    accepted: nat,         // responses taken up by WriteResponse so far
    wire: Wire,
    deque: Deque)

  datatype Step =
    | Wait(w: nat)         // writing_in_progress_.wait(true) returns
    | Store(w: nat)        // writing_in_progress_.store(true)
    | StartWrite(w: nat)
    | Push(w: nat)         // pending_writes_.push_back under the mutex
    | Complete(r: nat)     // gRPC finishes the write and calls OnWriteDone
    | Release              // OnWriteDone: store(false) and notify
    | Pop                  // OnWriteDone: pop_front under the mutex, if not empty

  function Init(n: nat): State {
    State(false, seq(n, _ => Idle), 0, Wire({}, [], 0, 0), Deque([], [], 0))
  }

  predicate Enabled(s: State, step: Step) {
    match step
    case Wait(w) => w < |s.writers| && s.writers[w].Idle? && !s.writing
    case Store(w) => w < |s.writers| && s.writers[w].Passed?
    case StartWrite(w) => w < |s.writers| && s.writers[w].Stored?
    case Push(w) => w < |s.writers| && s.writers[w].Started?
    case Complete(r) => r in s.wire.onWire
    case Release => s.wire.releasing > 0
    case Pop => s.wire.popping > 0
  }

  function Apply(s: State, step: Step): State {
    if !Enabled(s, step) then s else
    match step
    case Wait(w) =>
      s.(writers := s.writers[w := Passed(s.accepted)], accepted := s.accepted + 1)
    case Store(w) =>
      s.(writers := s.writers[w := Stored(s.writers[w].r)], writing := true)
    case StartWrite(w) =>
      s.(writers := s.writers[w := Started(s.writers[w].r)],
         wire := s.wire.(onWire := s.wire.onWire + {s.writers[w].r}))
    case Push(w) =>
      s.(writers := s.writers[w := Idle],
         deque := s.deque.(pending := s.deque.pending + [s.writers[w].r]))
    case Complete(r) =>
      s.(wire := s.wire.(onWire := s.wire.onWire - {r}, completed := s.wire.completed + [r],
                         releasing := s.wire.releasing + 1))
    case Release =>
      s.(writing := false, wire := s.wire.(releasing := s.wire.releasing - 1, popping := s.wire.popping + 1))
    case Pop =>
      s.(wire := s.wire.(popping := s.wire.popping - 1), deque := PopFront(s.deque))
  }

  function PopFront(d: Deque): Deque {
    if d.pending == [] then d.(misses := d.misses + 1)
    else d.(pending := d.pending[1..], freed := d.freed + [d.pending[0]])
  }

  function Exec(s: State, schedule: seq<Step>): State {
    Run(Apply, s, schedule)
  }

  // ----- What a run promises -----

  /** At most one write is outstanding. */
  ghost predicate Exclusive(s: State) {
    forall a, b | a in s.wire.onWire && b in s.wire.onWire :: a == b
  }

  /** The response object exists: the writer's frame or the deque owns it. */
  ghost predicate Alive(s: State, r: nat) {
    r in s.deque.pending || exists w | 0 <= w < |s.writers| :: !s.writers[w].Idle? && s.writers[w].r == r
  }

  /** Every outstanding write's response exists and was not the one popped, and only
      responses whose own write has completed were ever destroyed. */
  ghost predicate Lifetimes(s: State) {
    && (forall r | r in s.wire.onWire :: Alive(s, r) && r !in s.deque.freed)
    && (forall r | r in s.deque.freed :: r in s.wire.completed)
  }

  /** No writer inside WriteResponse, no write and no completion outstanding. */
  predicate Quiescent(s: State) {
    && (forall w | 0 <= w < |s.writers| :: s.writers[w].Idle?)
    && s.wire.onWire == {} && s.wire.releasing == 0 && s.wire.popping == 0
  }

  // ----- The invariant of one writer -----

  function Pc(s: State): Writer {
    if s.writers == [] then Idle else s.writers[0]
  }

  /** Responses handed to StartWrite, and responses pushed: they differ by the window in
      which a write is already on the wire but its response is still in the frame. */
  function StartedCount(s: State): int {
    if Pc(s).Passed? || Pc(s).Stored? then s.accepted - 1 else s.accepted
  }

  function PushedCount(s: State): int {
    if Pc(s).Idle? then s.accepted else s.accepted - 1
  }

  ghost predicate Inv(s: State) {
    var started, pushed := StartedCount(s), PushedCount(s);
    var done, freed := |s.wire.completed|, |s.deque.freed|;
    var released := done - s.wire.releasing;
    && |s.writers| <= 1
    && (!Pc(s).Idle? ==> Pc(s).r == s.accepted - 1 >= 0)
    && 0 <= released <= done <= started <= released + 1
    && s.wire.completed == Range(0, done)
    && s.wire.onWire == (if done < started then {done} else {})
    && s.writing == (Pc(s).Stored? || released < started)
    && (Pc(s).Passed? || Pc(s).Stored? ==> released == started)
    && freed <= pushed
    && s.deque.freed == Range(0, freed)
    && s.deque.pending == Range(freed, pushed)
    && freed + s.deque.misses + s.wire.popping == released
    && s.deque.misses <= 1
  }

  lemma WriterKeepsInv(s: State, step: Step)
    requires Inv(s) && (step.Wait? || step.Store? || step.StartWrite? || step.Push?)
    ensures Inv(Apply(s, step))
  {
    if Enabled(s, step) && step.Push? {
      var t := Apply(s, step);
      assert t.deque.pending == Range(|s.deque.freed|, PushedCount(t));
    }
  }

  lemma CompletionKeepsInv(s: State, step: Step)
    requires Inv(s) && (step.Complete? || step.Release? || step.Pop?)
    ensures Inv(Apply(s, step))
  {
    var t := Apply(s, step);
    if Enabled(s, step) && step.Complete? {
      assert t.wire.completed == Range(0, |t.wire.completed|);
    }
    if Enabled(s, step) && step.Pop? && s.deque.pending != [] {
      assert s.deque.pending[0] == |s.deque.freed|;
      assert t.deque.freed == Range(0, |t.deque.freed|);
      assert t.deque.pending == Range(|t.deque.freed|, PushedCount(t));
    }
  }

  lemma {:induction false} RunKeepsInv(s: State, schedule: seq<Step>)
    requires Inv(s)
    ensures Inv(Exec(s, schedule))
    decreases |schedule|
  {
    if schedule == [] {
    } else {
      var step := schedule[0];
      if step.Complete? || step.Release? || step.Pop? {
        CompletionKeepsInv(s, step);
      } else {
        WriterKeepsInv(s, step);
      }
      RunKeepsInv(Apply(s, schedule[0]), schedule[1..]);
    }
  }

  lemma InvPromises(s: State)
    requires Inv(s)
    ensures Exclusive(s) && Lifetimes(s)
  {
    forall r | r in s.wire.onWire ensures Alive(s, r) && r !in s.deque.freed {
      assert r == |s.wire.completed| == StartedCount(s) - 1;
      if Pc(s).Started? { assert s.writers[0].r == r; }
      else { assert s.deque.pending[r - |s.deque.freed|] == r; }
    }
    forall r | r in s.deque.freed ensures r in s.wire.completed {
      assert s.wire.completed[r] == r;
    }
  }

  /** With one writer thread, in every interleaving, at most one write is outstanding and
      its response stays alive until its own completion. */
  lemma OneWriterIsSafe(n: nat, schedule: seq<Step>)
    requires n <= 1
    ensures Exclusive(Exec(Init(n), schedule))
    ensures Lifetimes(Exec(Init(n), schedule))
  {
    RunKeepsInv(Init(n), schedule);
    InvPromises(Exec(Init(n), schedule));
  }

  /** With one writer, at most one completion of a whole run finds the deque empty, so a
      quiescent stream retains exactly that many finished responses, the newest ones. */
  lemma OneWriterRetention(n: nat, schedule: seq<Step>)
    requires n <= 1
    ensures var s := Exec(Init(n), schedule);
            && s.deque.misses <= 1
            && (Quiescent(s) ==>
                  && |s.deque.pending| == s.deque.misses
                  && s.deque.freed + s.deque.pending == s.wire.completed == Range(0, s.accepted))
  {
    RunKeepsInv(Init(n), schedule);
    var s := Exec(Init(n), schedule);
    if Quiescent(s) {
      assert s.deque.freed + s.deque.pending == Range(0, s.accepted);
    }
  }

  lemma FirstWrite()
    ensures Exec(Init(1), [Wait(0), Store(0), StartWrite(0)])
            == State(true, [Started(0)], 1, Wire({0}, [], 0, 0), Deque([], [], 0))
  {
    RunThree(Apply, Init(1), Wait(0), Store(0), StartWrite(0));
  }

  /** The bound is reached: a completion that overtakes the push leaves its own response
      behind, finished but retained. */
  lemma OneMissIsReachable()
    ensures var s := Exec(Init(1), [Wait(0), Store(0), StartWrite(0)] + [Complete(0), Release, Pop, Push(0)]);
            Quiescent(s) && s.deque.misses == 1 && s.deque.pending == [0] && s.wire.completed == [0]
  {
    FirstWrite();
    RunConcat(Apply, Init(1), [Wait(0), Store(0), StartWrite(0)], [Complete(0), Release, Pop, Push(0)]);
    var s := State(true, [Started(0)], 1, Wire({0}, [], 0, 0), Deque([], [], 0));
    RunFour(Apply, s, Complete(0), Release, Pop, Push(0));
  }

  // ----- Two writers -----

  /** Both writers pass the wait before either stores: wait and store are no test-and-set. */
  function Race(): seq<Step> {
    [Wait(0), Wait(1), Store(0)] + [Store(1), StartWrite(0), StartWrite(1)]
  }

  lemma TwoWritersRace(n: nat)
    requires n >= 2
    ensures var s := Exec(Init(n), Race());
            && s.wire == Wire({0, 1}, [], 0, 0) && s.deque == Deque([], [], 0)
            && |s.writers| == n && s.writers[0] == Started(0) && s.writers[1] == Started(1)
  {
    var s := Exec(Init(n), [Wait(0), Wait(1), Store(0)]);
    RunConcat(Apply, Init(n), [Wait(0), Wait(1), Store(0)], [Store(1), StartWrite(0), StartWrite(1)]);
    RunThree(Apply, Init(n), Wait(0), Wait(1), Store(0));
    RunThree(Apply, s, Store(1), StartWrite(0), StartWrite(1));
    assert s.writers[0] == Stored(0) && s.writers[1] == Passed(1);
  }

  /** Then the second response is pushed first, and the completion of the first write frees it
      while it is still on the wire. */
  function WrongPop(): seq<Step> {
    [Push(1), Complete(0), Release, Pop]
  }

  lemma TwoWritersFreeEarly(n: nat)
    requires n >= 2
    ensures var s := Exec(Init(n), Race() + WrongPop()); 1 in s.wire.onWire && s.deque.freed == [1]
  {
    TwoWritersRace(n);
    RunConcat(Apply, Init(n), Race(), WrongPop());
    RunFour(Apply, Exec(Init(n), Race()), Push(1), Complete(0), Release, Pop);
  }

  /** Exclusion is exactly the assumption that a stream has one writer thread. */
  lemma ExclusionIffOneWriter(n: nat)
    ensures (forall schedule: seq<Step> :: Exclusive(Exec(Init(n), schedule))) <==> n <= 1
  {
    if n <= 1 {
      forall schedule: seq<Step> ensures Exclusive(Exec(Init(n), schedule)) {
        OneWriterIsSafe(n, schedule);
      }
    } else {
      TwoWritersRace(n);
      var s := Exec(Init(n), Race());
      assert 0 in s.wire.onWire && 1 in s.wire.onWire && !Exclusive(s);
    }
  }

  /** So is keeping each response alive until its own write has completed. */
  lemma LifetimesIffOneWriter(n: nat)
    ensures (forall schedule: seq<Step> :: Lifetimes(Exec(Init(n), schedule))) <==> n <= 1
  {
    if n <= 1 {
      forall schedule: seq<Step> ensures Lifetimes(Exec(Init(n), schedule)) {
        OneWriterIsSafe(n, schedule);
      }
    } else {
      TwoWritersFreeEarly(n);
      assert !Lifetimes(Exec(Init(n), Race() + WrongPop()));
    }
  }

  // ----- No writer waits for ever -----

  /** Whoever set the flag still has to clear it: it is about to start its write, or the write
      is outstanding, or its completion is under way. */
  ghost predicate Owed(s: State) {
    s.writing ==> SomeStored(s.writers) || s.wire.onWire != {} || s.wire.releasing > 0
  }

  ghost predicate SomeStored(writers: seq<Writer>) {
    exists w :: 0 <= w < |writers| && writers[w].Stored?
  }

  lemma StepKeepsOwed(s: State, step: Step)
    requires Owed(s)
    ensures Owed(Apply(s, step))
  {
    var t := Apply(s, step);
    if Enabled(s, step) {
      match step
      case Store(w) => assert t.writers[w].Stored?;
      case StartWrite(w) => assert s.writers[w].r in t.wire.onWire;
      case Wait(w) => OthersStay(s.writers, w, Passed(s.accepted));
      case Push(w) => OthersStay(s.writers, w, Idle);
      case _ =>
    }
  }

  /** A thread that was not about to start its write changes; one that was is still there. */
  lemma OthersStay(writers: seq<Writer>, w: nat, pc: Writer)
    requires w < |writers| && !writers[w].Stored?
    ensures SomeStored(writers) ==> SomeStored(writers[w := pc])
  {
    if SomeStored(writers) {
      var v :| 0 <= v < |writers| && writers[v].Stored?;
      assert writers[w := pc][v].Stored?;
    }
  }

  lemma {:induction false} RunKeepsOwed(s: State, schedule: seq<Step>)
    requires Owed(s)
    ensures Owed(Exec(s, schedule))
    decreases |schedule|
  {
    if schedule == [] {
    } else {
      StepKeepsOwed(s, schedule[0]);
      RunKeepsOwed(Apply(s, schedule[0]), schedule[1..]);
    }
  }

  /** With any number of writers, in every interleaving, a writer that waits is let go: at most
      three steps of whoever holds the flag clear it, and none of them waits for anything. */
  lemma BlockedWriterIsLetGo(n: nat, schedule: seq<Step>) returns (more: seq<Step>)
    requires Exec(Init(n), schedule).writing
    ensures 0 < |more| <= 3 && !Exec(Exec(Init(n), schedule), more).writing
    ensures forall i | 0 <= i < |more| :: more[i].StartWrite? || more[i].Complete? || more[i].Release?
    ensures Enabled(Exec(Init(n), schedule), more[0])
  {
    var s := Exec(Init(n), schedule);
    RunKeepsOwed(Init(n), schedule);
    if s.wire.releasing > 0 {
      more := [Release];
      RunOne(Apply, s, Release);
    } else if s.wire.onWire != {} {
      var r :| r in s.wire.onWire;
      more := [Complete(r), Release];
      RunTwo(Apply, s, Complete(r), Release);
    } else {
      var w :| 0 <= w < |s.writers| && s.writers[w].Stored?;
      var r := s.writers[w].r;
      more := [StartWrite(w), Complete(r), Release];
      RunThree(Apply, s, StartWrite(w), Complete(r), Release);
    }
  }

  // ----- The object whose methods are those steps -----

  /** Each method keeps the invariant of one writer thread, and so its promises; with more
      writers it is still the step, but promises nothing. */
  class Reactor {
    var writingInProgress: bool
    var pendingWrites: seq<nat>
    var writers: seq<Writer>
    var accepted: nat
    var onWire: set<nat>
    var completed: seq<nat>
    var releasing: nat
    var popping: nat
    var freed: seq<nat>
    var misses: nat

    function View(): State
      reads this
    {
      State(writingInProgress, writers, accepted, Wire(onWire, completed, releasing, popping),
            Deque(pendingWrites, freed, misses))
    }

    predicate OneWriter()
      reads this
    {
      |writers| <= 1
    }

    ghost predicate Valid()
      reads this
    {
      OneWriter() ==> Inv(View())
    }

    constructor (n: nat)
      ensures View() == Init(n) && Valid()
    {
      writingInProgress, pendingWrites := false, [];
      writers, accepted := seq(n, _ => Idle), 0;
      onWire, completed, releasing, popping, freed, misses := {}, [], 0, 0, [], 0;
    }

    /** WriteResponse up to the return of the wait; false while the thread blocks. It returns
        only when no write is outstanding and no completion is still to clear the flag. */
    method WriteResponseWait(w: nat) returns (passed: bool)
      requires Valid() && w < |writers| && writers[w].Idle?
      modifies this
      ensures View() == Apply(old(View()), Wait(w)) && Valid()
      ensures passed == !old(writingInProgress)
      ensures OneWriter() && passed ==> onWire == {} && releasing == 0
    {
      ghost var before := View();
      passed := !writingInProgress;
      if passed {
        writers := writers[w := Passed(accepted)];
        accepted := accepted + 1;
      }
      if OneWriter() { WriterKeepsInv(before, Wait(w)); }
    }

    /** When the flag goes up, no write is outstanding. */
    method WriteResponseStore(w: nat)
      requires Valid() && w < |writers| && writers[w].Passed?
      modifies this
      ensures View() == Apply(old(View()), Store(w)) && Valid()
      ensures OneWriter() ==> onWire == {}
    {
      ghost var before := View();
      writers := writers[w := Stored(writers[w].r)];
      writingInProgress := true;
      if OneWriter() { WriterKeepsInv(before, Store(w)); }
    }

    /** The write started is the only one. */
    method WriteResponseStart(w: nat)
      requires Valid() && w < |writers| && writers[w].Stored?
      modifies this
      ensures View() == Apply(old(View()), StartWrite(w)) && Valid()
      ensures OneWriter() ==> onWire == {old(writers[w]).r} && Lifetimes(View())
    {
      ghost var before := View();
      var r := writers[w].r;
      writers := writers[w := Started(r)];
      onWire := onWire + {r};
      if OneWriter() {
        WriterKeepsInv(before, StartWrite(w));
        InvPromises(View());
      }
    }

    /** The deque takes the response over before the frame lets go of it. */
    method WriteResponsePush(w: nat)
      requires Valid() && w < |writers| && writers[w].Started?
      modifies this
      ensures View() == Apply(old(View()), Push(w)) && Valid()
      ensures OneWriter() ==> forall r | r in onWire :: r in pendingWrites
    {
      ghost var before := View();
      pendingWrites := pendingWrites + [writers[w].r];
      writers := writers[w := Idle];
      if OneWriter() {
        WriterKeepsInv(before, Push(w));
        InvPromises(View());
      }
    }

    /** Writes complete in the order in which their responses were accepted. */
    method WriteCompleted(r: nat)
      requires Valid() && r in onWire
      modifies this
      ensures View() == Apply(old(View()), Complete(r)) && Valid()
      ensures OneWriter() ==> r == |old(completed)| && onWire == {}
    {
      ghost var before := View();
      onWire := onWire - {r};
      completed := completed + [r];
      releasing := releasing + 1;
      if OneWriter() { CompletionKeepsInv(before, Complete(r)); }
    }

    /** The flag is cleared only when no write is outstanding. */
    method OnWriteDoneRelease()
      requires Valid() && releasing > 0
      modifies this
      ensures View() == Apply(old(View()), Release) && Valid()
      ensures OneWriter() ==> onWire == {} && releasing == 0
    {
      ghost var before := View();
      writingInProgress := false;
      releasing, popping := releasing - 1, popping + 1;
      if OneWriter() { CompletionKeepsInv(before, Release); }
    }

    /** What is freed is no response of an outstanding write. */
    method OnWriteDonePop()
      requires Valid() && popping > 0
      modifies this
      ensures View() == Apply(old(View()), Pop) && Valid()
      ensures OneWriter() ==> misses <= 1 && Lifetimes(View())
    {
      ghost var before := View();
      popping := popping - 1;
      if pendingWrites != [] {
        freed := freed + [pendingWrites[0]];
        pendingWrites := pendingWrites[1..];
      } else {
        misses := misses + 1;
      }
      if OneWriter() {
        CompletionKeepsInv(before, Pop);
        InvPromises(View());
      }
    }
  }
}
