/** Outbound calls of the C++ client: fresh message ids, asynchronous completions in any
    order, and the stack of shared memory regions that responses bring along. A call's
    completion runs as one step, as does `ReceiveMemShare`; a schedule is any sequence of
    steps, and a step that is not enabled is skipped. */
module Calls {
  import opened Messages
  import opened Runs

  const IDS: nat := 0x1_0000_0000_0000_0000

  /** A call in flight: its message id and the caller's response buffer. */
  datatype Call = Call(id: nat, buffer: nat)

  /** A mapped region: the how-manieth mapping of the client, and its size in bytes. */
  datatype Region = Region(serial: nat, size: nat)

  datatype Reply =
    | Failed(status: Status)
    | Response(id: nat, handles: seq<string>, datagrams: seq<Bytes>)

  /** A completion: which call, gRPC's reply, and for each handle the size of the region it
      maps to, or None if opening or mapping it fails. */
  datatype Completion = Completion(c: nat, reply: Reply, sizes: seq<Option<nat>>)

  predicate WellFormed(x: Completion) {
    x.reply.Response? ==> |x.sizes| == |x.reply.handles|
  }

  /** What a callback was told; None is OK. */
  datatype Report = Report(c: nat, error: Option<Status>)

  /** The received regions. */
  datatype Memory = Memory(
    stack: seq<Region>,              // received_memshares_, top last
    mapped: seq<Region>,             // every region ever pushed, in order
    returned: seq<Region>,           // handed out by ReceiveMemShare
    lost: seq<Region>)               // popped, but not a whole number of items

  datatype State = State(
    lastId: nat,                     // ipc_message_id_
    calls: seq<Call>,
    pending: set<nat>,
    buffers: map<nat, Bytes>,        // the callers' response buffers
    reports: seq<Report>,
    journal: seq<Completion>,        // completions so far, in order
    mem: Memory)

  datatype Step = Invoke(buffer: nat) | Complete(x: Completion) | Receive(itemSize: nat)

  function Init(buffers: map<nat, Bytes>): State {
    State(0, [], {}, buffers, [], [], Memory([], [], [], []))
  }

  /** How many handles are mapped before the first failure. */
  function MappedPrefix(sizes: seq<Option<nat>>): (k: nat)
    ensures k <= |sizes|
    ensures forall i | 0 <= i < k :: sizes[i].Some?
    ensures k < |sizes| ==> sizes[k].None?
  {
    if sizes == [] || sizes[0].None? then 0 else 1 + MappedPrefix(sizes[1..])
  }

  function Regions(start: nat, sizes: seq<Option<nat>>, k: nat): (rs: seq<Region>)
    requires k <= |sizes| && forall i | 0 <= i < k :: sizes[i].Some?
    ensures |rs| == k
  {
    seq(k, i requires 0 <= i < k => Region(start + i, sizes[i].value))
  }

  function NewRegions(start: nat, id: nat, x: Completion): seq<Region> {
    if x.reply.Failed? || x.reply.id != id then [] else Regions(start, x.sizes, MappedPrefix(x.sizes))
  }

  /** The status a completion reports, in the order of the source's checks. */
  function Verdict(id: nat, x: Completion): Option<Status> {
    if x.reply.Failed? then Some(x.reply.status)
    else if x.reply.id != id then Some(Status(Internal, "Mismatched IPC message id"))
    else if MappedPrefix(x.sizes) < |x.sizes| then Some(Status(Internal, "Failed to map shared memory"))
    else if x.reply.datagrams == [] then Some(Status(Internal, "Missing response payload"))
    else None
  }

  function PushAll(m: Memory, regions: seq<Region>): Memory {
    m.(stack := m.stack + regions, mapped := m.mapped + regions)
  }

  /** The top region leaves the stack; the caller gets it if it is a whole number of items. */
  function PopTop(m: Memory, itemSize: nat): Memory
    requires itemSize > 0
  {
    if m.stack == [] then m else
    var top := m.stack[|m.stack| - 1];
    var rest := m.(stack := m.stack[..|m.stack| - 1]);
    if top.size % itemSize == 0 then rest.(returned := m.returned + [top]) else rest.(lost := m.lost + [top])
  }

  predicate Enabled(s: State, step: Step) {
    match step
    case Invoke(_) => true
    case Complete(x) => x.c in s.pending && x.c < |s.calls| && WellFormed(x)
    case Receive(itemSize) => itemSize > 0
  }

  function Apply(s: State, step: Step): State {
    if !Enabled(s, step) then s else
    match step
    case Invoke(b) =>
      var id := (s.lastId + 1) % IDS;
      s.(lastId := id, calls := s.calls + [Call(id, b)], pending := s.pending + {|s.calls|})
    case Complete(x) =>
      var call := s.calls[x.c];
      var verdict := Verdict(call.id, x);
      s.(pending := s.pending - {x.c}, journal := s.journal + [x], reports := s.reports + [Report(x.c, verdict)],
         mem := PushAll(s.mem, NewRegions(|s.mem.mapped|, call.id, x)),
         buffers := if verdict.None? then s.buffers[call.buffer := x.reply.datagrams[0]] else s.buffers)
    case Receive(itemSize) =>
      s.(mem := PopTop(s.mem, itemSize))
  }

  function Exec(s: State, schedule: seq<Step>): State {
    Run(Apply, s, schedule)
  }

  // ----- Message ids -----

  ghost predicate Numbered(s: State) {
    && s.lastId == |s.calls| % IDS
    && forall i | 0 <= i < |s.calls| :: s.calls[i].id == (i + 1) % IDS
  }

  ghost predicate DistinctIds(s: State) {
    forall i, j | 0 <= i < j < |s.calls| :: s.calls[i].id != s.calls[j].id
  }

  lemma ModStep(a: nat)
    ensures (a % IDS + 1) % IDS == (a + 1) % IDS
  {
  }

  lemma StepKeepsNumbered(s: State, step: Step)
    requires Numbered(s)
    ensures Numbered(Apply(s, step))
  {
    ModStep(|s.calls|);
  }

  lemma {:induction false} RunKeepsNumbered(s: State, schedule: seq<Step>)
    requires Numbered(s)
    ensures Numbered(Exec(s, schedule))
    decreases |schedule|
  {
    if schedule == [] {
    } else {
      StepKeepsNumbered(s, schedule[0]);
      RunKeepsNumbered(Apply(s, schedule[0]), schedule[1..]);
    }
  }

  lemma CloseNumbersDiffer(i: nat, j: nat)
    requires i < j < i + IDS
    ensures i % IDS != j % IDS
  {
  }

  /** In any interleaving, message ids are pairwise distinct if and only if no more than 2^64
      calls were made. */
  lemma IdsDistinctIff(buffers: map<nat, Bytes>, schedule: seq<Step>)
    ensures var s := Exec(Init(buffers), schedule); DistinctIds(s) <==> |s.calls| <= 18_446_744_073_709_551_616
  {
    var s := Exec(Init(buffers), schedule);
    RunKeepsNumbered(Init(buffers), schedule);
    if |s.calls| <= IDS {
      forall i, j | 0 <= i < j < |s.calls| ensures s.calls[i].id != s.calls[j].id {
        CloseNumbersDiffer(i + 1, j + 1);
      }
    } else {
      assert s.calls[0].id == 1 % IDS && s.calls[IDS].id == (IDS + 1) % IDS;
    }
  }

  // ----- Callbacks and buffers -----

  /** A reply that answers this call: it carries the call's id, all its handles map, and it
      has a datagram. */
  predicate Answers(id: nat, x: Completion) {
    && x.reply.Response? && x.reply.id == id
    && (forall i | 0 <= i < |x.sizes| :: x.sizes[i].Some?)
    && x.reply.datagrams != []
  }

  /** The buffer's content: the first datagram of the last answered call that was given this
      buffer, or what the caller put there. */
  function LastAnswer(s0: map<nat, Bytes>, calls: seq<Call>, journal: seq<Completion>, b: nat): Option<Bytes>
    requires forall x | x in journal :: x.c < |calls|
  {
    if journal == [] then (if b in s0 then Some(s0[b]) else None) else
    var x := journal[|journal| - 1];
    if calls[x.c].buffer == b && Answers(calls[x.c].id, x) then Some(x.reply.datagrams[0])
    else LastAnswer(s0, calls, journal[..|journal| - 1], b)
  }

  predicate Done(journal: seq<Completion>, c: nat) {
    exists i :: 0 <= i < |journal| && journal[i].c == c
  }

  /** What the callback is told: gRPC's own status if the call failed, an internal error if
      the reply is another call's, a handle fails to map or there is no datagram, in this
      order, and OK if the reply answers the call. */
  predicate Told(id: nat, x: Completion, error: Option<Status>) {
    if x.reply.Failed? then error == Some(x.reply.status)
    else if x.reply.id != id then error == Some(Status(Internal, "Mismatched IPC message id"))
    else if exists i :: 0 <= i < |x.sizes| && x.sizes[i].None? then
      error == Some(Status(Internal, "Failed to map shared memory"))
    else if x.reply.datagrams == [] then error == Some(Status(Internal, "Missing response payload"))
    else error == None
  }

  /** Completions are of calls, no call completes twice, the pending ones are the others; the
      callback of each completion was fired for it, with OK exactly when it was answered, and
      else with the error that stopped it. */
  ghost predicate Settled(s: State) {
    && (forall i | 0 <= i < |s.journal| :: s.journal[i].c < |s.calls|)
    && (forall i, j | 0 <= i < j < |s.journal| :: s.journal[i].c != s.journal[j].c)
    && (forall c: nat :: c in s.pending <==> c < |s.calls| && !Done(s.journal, c))
    && |s.reports| == |s.journal|
    && (forall i | 0 <= i < |s.journal| ::
          && s.reports[i].c == s.journal[i].c
          && (s.reports[i].error.None? <==> Answers(s.calls[s.journal[i].c].id, s.journal[i]))
          && Told(s.calls[s.journal[i].c].id, s.journal[i], s.reports[i].error))
  }

  ghost predicate Buffered(s0: map<nat, Bytes>, s: State) {
    && (forall x | x in s.journal :: x.c < |s.calls|)
    && forall b: nat :: (if b in s.buffers then Some(s.buffers[b]) else None) == LastAnswer(s0, s.calls, s.journal, b)
  }

  lemma VerdictIff(id: nat, x: Completion)
    ensures Verdict(id, x).None? <==> Answers(id, x)
    ensures Told(id, x, Verdict(id, x))
  {
    if MappedPrefix(x.sizes) < |x.sizes| {
      assert x.sizes[MappedPrefix(x.sizes)].None?;
    }
  }

  lemma DoneAppend(journal: seq<Completion>, x: Completion, c: nat)
    ensures Done(journal + [x], c) <==> Done(journal, c) || x.c == c
  {
    var more := journal + [x];
    if Done(journal, c) {
      var i :| 0 <= i < |journal| && journal[i].c == c;
      assert more[i].c == c;
    } else if x.c == c {
      assert more[|journal|].c == c;
    }
  }

  lemma CompletionKeepsSettled(s: State, x: Completion)
    requires Settled(s) && Enabled(s, Complete(x))
    ensures Settled(Apply(s, Complete(x)))
  {
    VerdictIff(s.calls[x.c].id, x);
    forall c: nat ensures Done(s.journal + [x], c) <==> Done(s.journal, c) || x.c == c {
      DoneAppend(s.journal, x, c);
    }
    forall i | 0 <= i < |s.journal| ensures s.journal[i].c != x.c {
      assert Done(s.journal, s.journal[i].c);
    }
  }

  lemma StepKeepsSettled(s: State, step: Step)
    requires Settled(s)
    ensures Settled(Apply(s, step))
  {
    if step.Complete? && Enabled(s, step) {
      CompletionKeepsSettled(s, step.x);
    }
  }

  lemma {:induction false} LastAnswerMoreCalls(s0: map<nat, Bytes>, calls: seq<Call>, more: Call,
                                               journal: seq<Completion>, b: nat)
    requires forall x | x in journal :: x.c < |calls|
    ensures LastAnswer(s0, calls + [more], journal, b) == LastAnswer(s0, calls, journal, b)
  {
    if journal == [] {
    } else {
      LastAnswerMoreCalls(s0, calls, more, journal[..|journal| - 1], b);
    }
  }

  lemma InvokeKeepsBuffered(s0: map<nat, Bytes>, s: State, buffer: nat)
    requires Buffered(s0, s)
    ensures Buffered(s0, Apply(s, Invoke(buffer)))
  {
    var t := Apply(s, Invoke(buffer));
    forall b: nat ensures LastAnswer(s0, t.calls, t.journal, b) == LastAnswer(s0, s.calls, s.journal, b) {
      LastAnswerMoreCalls(s0, s.calls, t.calls[|s.calls|], s.journal, b);
    }
  }

  lemma CompletionKeepsBuffered(s0: map<nat, Bytes>, s: State, x: Completion)
    requires Buffered(s0, s) && Enabled(s, Complete(x))
    ensures Buffered(s0, Apply(s, Complete(x)))
  {
    var t := Apply(s, Complete(x));
    VerdictIff(s.calls[x.c].id, x);
    assert t.journal[..|t.journal| - 1] == s.journal;
  }

  lemma StepKeepsBuffered(s0: map<nat, Bytes>, s: State, step: Step)
    requires Buffered(s0, s)
    ensures Buffered(s0, Apply(s, step))
  {
    if Enabled(s, step) {
      match step
      case Invoke(buffer) => InvokeKeepsBuffered(s0, s, buffer);
      case Complete(x) => CompletionKeepsBuffered(s0, s, x);
      case Receive(_) =>
    }
  }

  lemma {:induction false} RunKeepsSettled(s0: map<nat, Bytes>, s: State, schedule: seq<Step>)
    requires Settled(s) && Buffered(s0, s)
    ensures Settled(Exec(s, schedule)) && Buffered(s0, Exec(s, schedule))
    decreases |schedule|
  {
    if schedule == [] {
    } else {
      StepKeepsSettled(s, schedule[0]);
      StepKeepsBuffered(s0, s, schedule[0]);
      RunKeepsSettled(s0, Apply(s, schedule[0]), schedule[1..]);
    }
  }

  /** With completions in any order, every call that is no longer pending has had its own
      callback fired exactly once, OK exactly when the reply answers that very call; and each
      buffer holds the first datagram of the last OK call that was given it, so an error
      changes no buffer. */
  lemma CallsSettleOnce(buffers: map<nat, Bytes>, schedule: seq<Step>)
    ensures var s := Exec(Init(buffers), schedule); Settled(s) && Buffered(buffers, s)
    ensures var s := Exec(Init(buffers), schedule);
            BuffersOf(s.calls) == Invoked(schedule) && s.journal == Completions([], 0, schedule)
  {
    RunKeepsSettled(buffers, Init(buffers), schedule);
    CallsAreMade(Init(buffers), schedule);
    CompletionsAreHandled(Init(buffers), schedule);
    assert BuffersOf([]) + Invoked(schedule) == Invoked(schedule);
  }

  /** The buffers given to the calls of a schedule, in order. */
  function Invoked(schedule: seq<Step>): seq<nat>
    decreases |schedule|
  {
    if schedule == [] then [] else Given(schedule[0]) + Invoked(schedule[1..])
  }

  /** What a schedule adds to the completions so far: the first one of each call made before
      it, in order. */
  function Completions(journal: seq<Completion>, calls: nat, schedule: seq<Step>): seq<Completion>
    decreases |schedule|
  {
    if schedule == [] then journal else
    var step, rest := schedule[0], schedule[1..];
    if step.Complete? && step.x.c < calls && !Done(journal, step.x.c) && WellFormed(step.x) then
      Completions(journal + [step.x], calls, rest)
    else
      Completions(journal, if step.Invoke? then calls + 1 else calls, rest)
  }

  function BuffersOf(calls: seq<Call>): (bs: seq<nat>)
    ensures |bs| == |calls|
  {
    seq(|calls|, i requires 0 <= i < |calls| => calls[i].buffer)
  }

  function Given(step: Step): seq<nat> {
    if step.Invoke? then [step.buffer] else []
  }

  lemma CallIsMade(s: State, step: Step)
    ensures BuffersOf(Apply(s, step).calls) == BuffersOf(s.calls) + Given(step)
  {
  }

  /** Every call of the schedule is made, in order, with its buffer. */
  lemma {:induction false} CallsAreMade(s: State, schedule: seq<Step>)
    ensures BuffersOf(Exec(s, schedule).calls) == BuffersOf(s.calls) + Invoked(schedule)
    decreases |schedule|
  {
    if schedule == [] {
    } else {
      CallIsMade(s, schedule[0]);
      CallsAreMade(Apply(s, schedule[0]), schedule[1..]);
      var a, b, c := BuffersOf(s.calls), Given(schedule[0]), Invoked(schedule[1..]);
      assert (a + b) + c == a + (b + c);
    }
  }

  ghost predicate Open(s: State) {
    && (forall i | 0 <= i < |s.journal| :: s.journal[i].c < |s.calls|)
    && forall c: nat :: c in s.pending <==> c < |s.calls| && !Done(s.journal, c)
  }

  lemma StepKeepsOpen(s: State, step: Step)
    requires Open(s)
    ensures Open(Apply(s, step))
  {
    if step.Complete? {
      forall c: nat ensures Done(s.journal + [step.x], c) <==> Done(s.journal, c) || step.x.c == c {
        DoneAppend(s.journal, step.x, c);
      }
    }
  }

  /** Every first completion of a call is handled, and no other. */
  lemma {:induction false} CompletionsAreHandled(s: State, schedule: seq<Step>)
    requires Open(s)
    ensures Exec(s, schedule).journal == Completions(s.journal, |s.calls|, schedule)
    decreases |schedule|
  {
    if schedule == [] {
    } else {
      StepKeepsOpen(s, schedule[0]);
      CompletionsAreHandled(Apply(s, schedule[0]), schedule[1..]);
    }
  }

  // ----- Received regions -----

  /** Nothing is mapped twice or invented: mapped = returned + lost + still on the stack. */
  ghost predicate Conserved(m: Memory) {
    && (forall i | 0 <= i < |m.mapped| :: m.mapped[i].serial == i)
    && multiset(m.mapped) == multiset(m.returned) + multiset(m.lost) + multiset(m.stack)
  }

  /** The stack holds what is left in mapping order, so its top is the most recent. */
  ghost predicate Lifo(m: Memory) {
    && (forall i, j | 0 <= i < j < |m.stack| :: m.stack[i].serial < m.stack[j].serial)
    && (forall i | 0 <= i < |m.stack| :: m.stack[i].serial < |m.mapped|)
  }

  lemma PushKeepsConserved(m: Memory, regions: seq<Region>)
    requires Conserved(m) && Lifo(m)
    requires forall i | 0 <= i < |regions| :: regions[i].serial == |m.mapped| + i
    ensures Conserved(PushAll(m, regions)) && Lifo(PushAll(m, regions))
  {
    assert multiset(m.mapped + regions) == multiset(m.mapped) + multiset(regions);
  }

  lemma PopKeepsLifo(m: Memory, itemSize: nat)
    requires Lifo(m) && itemSize > 0
    ensures Lifo(PopTop(m, itemSize))
  {
    assert m.stack != [] ==> PopTop(m, itemSize).stack == m.stack[..|m.stack| - 1];
  }

  lemma PopKeepsConserved(m: Memory, itemSize: nat)
    requires Conserved(m) && itemSize > 0
    ensures Conserved(PopTop(m, itemSize))
  {
    if m.stack != [] {
      var rest, top := m.stack[..|m.stack| - 1], m.stack[|m.stack| - 1];
      Moved(m.returned, m.lost, rest, top);
      assert m.stack == rest + [top];
      if top.size % itemSize == 0 {
        assert PopTop(m, itemSize) == m.(stack := rest, returned := m.returned + [top]);
      } else {
        assert PopTop(m, itemSize) == m.(stack := rest, lost := m.lost + [top]);
      }
    }
  }

  lemma Moved(returned: seq<Region>, lost: seq<Region>, rest: seq<Region>, top: Region)
    ensures multiset(returned) + multiset(lost) + multiset(rest + [top]) ==
            multiset(returned + [top]) + multiset(lost) + multiset(rest) ==
            multiset(returned) + multiset(lost + [top]) + multiset(rest)
  {
    assert multiset(rest + [top]) == multiset(rest) + multiset{top};
    assert multiset(returned + [top]) == multiset(returned) + multiset{top};
    assert multiset(lost + [top]) == multiset(lost) + multiset{top};
  }

  lemma StepKeepsConserved(s: State, step: Step)
    requires Conserved(s.mem) && Lifo(s.mem)
    ensures Conserved(Apply(s, step).mem) && Lifo(Apply(s, step).mem)
  {
    if Enabled(s, step) {
      match step
      case Complete(x) => PushKeepsConserved(s.mem, NewRegions(|s.mem.mapped|, s.calls[x.c].id, x));
      case Receive(n) =>
        PopKeepsConserved(s.mem, n);
        PopKeepsLifo(s.mem, n);
      case Invoke(_) =>
    }
  }

  lemma {:induction false} RunKeepsConserved(s: State, schedule: seq<Step>)
    requires Conserved(s.mem) && Lifo(s.mem)
    ensures Conserved(Exec(s, schedule).mem) && Lifo(Exec(s, schedule).mem)
    decreases |schedule|
  {
    if schedule == [] {
    } else {
      StepKeepsConserved(s, schedule[0]);
      RunKeepsConserved(Apply(s, schedule[0]), schedule[1..]);
    }
  }

  /** What conservation means for single regions. */
  lemma ConservedOnce(m: Memory)
    requires Conserved(m)
    ensures forall i, j | 0 <= i < j < |m.returned| :: m.returned[i] != m.returned[j]
    ensures forall r | r in m.stack :: r !in m.returned && r !in m.lost
  {
    forall r: Region ensures multiset(m.mapped)[r] <= 1 { OnceEach(m.mapped, r); }
    forall i, j | 0 <= i < j < |m.returned| ensures m.returned[i] != m.returned[j] {
      TwiceIn(m.returned, i, j);
      assert multiset(m.mapped)[m.returned[i]] >= multiset(m.returned)[m.returned[i]];
    }
    forall r | r in m.stack ensures r !in m.returned && r !in m.lost {
      assert r in multiset(m.stack);
      assert r in m.returned ==> r in multiset(m.returned);
      assert r in m.lost ==> r in multiset(m.lost);
      assert multiset(m.mapped)[r] == multiset(m.returned)[r] + multiset(m.lost)[r] + multiset(m.stack)[r];
    }
  }

  /** Over any run, the regions mapped are those each response contributed; they are
      conserved, each is returned at most once, and ReceiveMemShare hands out the most
      recently mapped region that is left. */
  lemma RegionsConserved(buffers: map<nat, Bytes>, schedule: seq<Step>)
    ensures Traced(Exec(Init(buffers), schedule))
    ensures var m := Exec(Init(buffers), schedule).mem;
            && Conserved(m)
            && (forall i, j | 0 <= i < j < |m.returned| :: m.returned[i] != m.returned[j])
            && (forall r | r in m.stack :: r !in m.returned && r !in m.lost
                                         && r.serial <= m.stack[|m.stack| - 1].serial)
  {
    RunKeepsConserved(Init(buffers), schedule);
    MappedIsContributed(Init(buffers), schedule);
    ConservedOnce(Exec(Init(buffers), schedule).mem);
  }

  /** The sizes of the regions before the first handle that fails to map. */
  function LeadingSizes(sizes: seq<Option<nat>>): seq<nat> {
    if sizes == [] || sizes[0].None? then [] else [sizes[0].value] + LeadingSizes(sizes[1..])
  }

  /** What the completions bring, in completion order: the leading sizes of every response
      that carries its call's id, whether the call then succeeds or not. */
  function Contributed(calls: seq<Call>, journal: seq<Completion>): seq<nat>
    requires forall x | x in journal :: x.c < |calls|
  {
    if journal == [] then [] else
    var x := journal[|journal| - 1];
    Contributed(calls, journal[..|journal| - 1])
    + (if x.reply.Response? && x.reply.id == calls[x.c].id then LeadingSizes(x.sizes) else [])
  }

  function SizesOf(rs: seq<Region>): (ns: seq<nat>)
    ensures |ns| == |rs|
  {
    seq(|rs|, i requires 0 <= i < |rs| => rs[i].size)
  }

  ghost predicate Traced(s: State) {
    && (forall x | x in s.journal :: x.c < |s.calls|)
    && SizesOf(s.mem.mapped) == Contributed(s.calls, s.journal)
  }

  lemma {:induction false} LeadingSizesOf(start: nat, sizes: seq<Option<nat>>)
    ensures SizesOf(Regions(start, sizes, MappedPrefix(sizes))) == LeadingSizes(sizes)
    decreases |sizes|
  {
    if sizes == [] || sizes[0].None? {
    } else {
      var k := MappedPrefix(sizes[1..]);
      LeadingSizesOf(start + 1, sizes[1..]);
      assert Regions(start, sizes, k + 1)[1..] == Regions(start + 1, sizes[1..], k);
      assert SizesOf(Regions(start, sizes, k + 1)) == [sizes[0].value] + SizesOf(Regions(start, sizes, k + 1)[1..]);
    }
  }

  lemma {:induction false} ContributedMoreCalls(calls: seq<Call>, more: Call, journal: seq<Completion>)
    requires forall x | x in journal :: x.c < |calls|
    ensures Contributed(calls + [more], journal) == Contributed(calls, journal)
  {
    if journal == [] {
    } else {
      ContributedMoreCalls(calls, more, journal[..|journal| - 1]);
    }
  }

  lemma CompletionKeepsTraced(s: State, x: Completion)
    requires Traced(s) && Enabled(s, Complete(x))
    ensures Traced(Apply(s, Complete(x)))
  {
    var t := Apply(s, Complete(x));
    var regions := NewRegions(|s.mem.mapped|, s.calls[x.c].id, x);
    LeadingSizesOf(|s.mem.mapped|, x.sizes);
    assert t.journal[..|t.journal| - 1] == s.journal;
    assert SizesOf(s.mem.mapped + regions) == SizesOf(s.mem.mapped) + SizesOf(regions);
  }

  lemma StepKeepsTraced(s: State, step: Step)
    requires Traced(s)
    ensures Traced(Apply(s, step))
  {
    var t := Apply(s, step);
    if Enabled(s, step) {
      match step
      case Invoke(b) => ContributedMoreCalls(s.calls, t.calls[|s.calls|], s.journal);
      case Complete(x) => CompletionKeepsTraced(s, x);
      case Receive(_) =>
    }
  }

  /** Over any run, the regions mapped are exactly those before the first failure in each
      response that carried its call's id, in completion order. */
  lemma {:induction false} MappedIsContributed(s: State, schedule: seq<Step>)
    requires Traced(s)
    ensures Traced(Exec(s, schedule))
    decreases |schedule|
  {
    if schedule == [] {
    } else {
      StepKeepsTraced(s, schedule[0]);
      MappedIsContributed(Apply(s, schedule[0]), schedule[1..]);
    }
  }

  lemma {:induction false} OnceEach(rs: seq<Region>, r: Region)
    requires forall i | 0 <= i < |rs| :: rs[i].serial == i
    ensures multiset(rs)[r] <= 1
  {
    if rs == [] {
    } else {
      var n := |rs| - 1;
      OnceEach(rs[..n], r);
      assert rs == rs[..n] + [rs[n]];
      if rs[n] == r {
        assert r !in rs[..n];
        assert multiset(rs[..n])[r] == 0;
      }
    }
  }

  lemma TwiceIn(rs: seq<Region>, i: nat, j: nat)
    requires i < j < |rs|
    ensures rs[i] == rs[j] ==> multiset(rs)[rs[i]] >= 2
  {
    assert rs == rs[..j] + rs[j..];
    assert rs[..j][i] == rs[i] && rs[j..][0] == rs[j];
    assert rs[i] in rs[..j] && rs[j] in rs[j..];
    assert multiset(rs) == multiset(rs[..j]) + multiset(rs[j..]);
  }

  // ----- Lost regions -----

  /** A receive that pops a region and hands it to nobody: the item size does not divide it. */
  predicate Loses(s: State, step: Step) {
    && step.Receive? && Enabled(s, step)
    && s.mem.stack != [] && s.mem.stack[|s.mem.stack| - 1].size % step.itemSize != 0
  }

  /** The regions popped that way along a schedule, in order. */
  function LostAlong(s: State, schedule: seq<Step>): seq<Region>
    decreases |schedule|
  {
    if schedule == [] then []
    else (if Loses(s, schedule[0]) then [s.mem.stack[|s.mem.stack| - 1]] else [])
         + LostAlong(Apply(s, schedule[0]), schedule[1..])
  }

  lemma {:induction false} LostIsLostAlong(s: State, schedule: seq<Step>)
    ensures Exec(s, schedule).mem.lost == s.mem.lost + LostAlong(s, schedule)
    decreases |schedule|
  {
    if schedule == [] {
    } else {
      LostIsLostAlong(Apply(s, schedule[0]), schedule[1..]);
    }
  }

  lemma {:induction false} LostAlongEmptyIff(s: State, schedule: seq<Step>)
    ensures LostAlong(s, schedule) == [] <==>
              forall i | 0 <= i < |schedule| :: !Loses(Exec(s, schedule[..i]), schedule[i])
    decreases |schedule|
  {
    if schedule == [] {
    } else {
      var s1, rest := Apply(s, schedule[0]), schedule[1..];
      LostAlongEmptyIff(s1, rest);
      forall i | 0 <= i < |rest|
        ensures Exec(s, schedule[..i + 1]) == Exec(s1, rest[..i]) && rest[i] == schedule[i + 1]
      {
        assert schedule[..i + 1][1..] == rest[..i];
      }
      assert Exec(s, schedule[..0]) == s;
      assert forall i | 1 <= i < |schedule| ::
          Exec(s, schedule[..i]) == Exec(s1, rest[..i - 1]) && schedule[i] == rest[i - 1];
    }
  }

  lemma PartsAddUp(a: multiset<Region>, b: multiset<Region>, c: multiset<Region>)
    ensures a + b + c == a + c <==> b == multiset{}
  {
    if b == multiset{} {
      assert a + b == a;
    } else {
      assert |a + b + c| == |a| + |b| + |c| && |a + c| == |a| + |c|;
    }
  }

  lemma WholeIffNoneLost(m: Memory)
    requires Conserved(m)
    ensures multiset(m.mapped) == multiset(m.returned) + multiset(m.stack) <==> m.lost == []
  {
    PartsAddUp(multiset(m.returned), multiset(m.lost), multiset(m.stack));
    assert |multiset(m.lost)| == |m.lost|;
  }

  /** Over any run, the lost regions are, in order, those received as items of a size that
      does not divide them; and every mapped region is returned or still there if and only if
      no receive of the run met such a region. */
  lemma NothingLostIff(buffers: map<nat, Bytes>, schedule: seq<Step>)
    ensures var m := Exec(Init(buffers), schedule).mem;
            && m.lost == LostAlong(Init(buffers), schedule)
            && (multiset(m.mapped) == multiset(m.returned) + multiset(m.stack) <==>
                  forall i | 0 <= i < |schedule| :: !Loses(Exec(Init(buffers), schedule[..i]), schedule[i]))
  {
    var m := Exec(Init(buffers), schedule).mem;
    LostIsLostAlong(Init(buffers), schedule);
    assert m.lost == LostAlong(Init(buffers), schedule);
    LostAlongEmptyIff(Init(buffers), schedule);
    RunKeepsConserved(Init(buffers), schedule);
    WholeIffNoneLost(m);
  }

  /** A region of three bytes, received as two-byte items. */
  function OddRegion(): Completion {
    Completion(0, Response(1, ["h"], [[]]), [Some(3)])
  }

  lemma ARegionIsLost()
    ensures var m := Exec(Init(map[]), [Invoke(0), Complete(OddRegion()), Receive(2)]).mem;
            m.mapped == m.lost == [Region(0, 3)] && m.returned == m.stack == []
  {
    var s1 := Apply(Init(map[]), Invoke(0));
    var s2 := Apply(s1, Complete(OddRegion()));
    RunThree(Apply, Init(map[]), Invoke(0), Complete(OddRegion()), Receive(2));
    assert MappedPrefix([Some(3)]) == 1 by { assert [Some(3)][1..] == []; }
    assert s2.mem.mapped == s2.mem.stack == [Region(0, 3)];
  }

  // ----- The invariant -----

  /** All of the above at once; `s0` is what the callers put into their buffers. */
  ghost predicate Inv(s0: map<nat, Bytes>, s: State) {
    && Numbered(s) && Settled(s) && Buffered(s0, s)
    && Traced(s) && Conserved(s.mem) && Lifo(s.mem)
  }

  lemma StepKeepsInv(s0: map<nat, Bytes>, s: State, step: Step)
    requires Inv(s0, s)
    ensures Inv(s0, Apply(s, step))
  {
    StepKeepsNumbered(s, step);
    StepKeepsSettled(s, step);
    StepKeepsBuffered(s0, s, step);
    StepKeepsTraced(s, step);
    StepKeepsConserved(s, step);
  }

  lemma FreshId(s: State)
    requires Numbered(s)
    ensures forall i | 0 <= i < |s.calls| < i + IDS :: s.calls[i].id != (s.lastId + 1) % IDS
  {
    ModStep(|s.calls|);
    forall i | 0 <= i < |s.calls| < i + IDS ensures s.calls[i].id != (s.lastId + 1) % IDS {
      CloseNumbersDiffer(i + 1, |s.calls| + 1);
    }
  }

  /** The region that a receive hands out. */
  function Handed(m: Memory, itemSize: nat): Option<Region>
    requires itemSize > 0
  {
    if m.stack != [] && m.stack[|m.stack| - 1].size % itemSize == 0 then Some(m.stack[|m.stack| - 1]) else None
  }

  /** How many items the vector that is returned has. */
  function ItemsIn(r: Option<Region>, itemSize: nat): nat
    requires itemSize > 0
  {
    if r.Some? then r.value.size / itemSize else 0
  }

  /** What a receive returns is the most recently mapped region that is left, whole, and was
      never returned before; it returns nothing exactly when there is none or the item size
      does not divide it. */
  ghost predicate Received(m: Memory, itemSize: nat, r: Option<Region>, items: nat)
    requires itemSize > 0
  {
    && (r.None? <==> m.stack == [] || m.stack[|m.stack| - 1].size % itemSize != 0)
    && items * itemSize == (if r.Some? then r.value.size else 0)
    && PopTop(m, itemSize).returned == m.returned + (if r.Some? then [r.value] else [])
    && (r.Some? ==> r.value !in m.returned && r.value in m.stack)
    && (r.Some? ==> forall x | x in m.stack :: x.serial <= r.value.serial)
  }

  lemma HandedOnce(m: Memory, itemSize: nat)
    requires Conserved(m) && Lifo(m) && itemSize > 0
    ensures Received(m, itemSize, Handed(m, itemSize), ItemsIn(Handed(m, itemSize), itemSize))
  {
    ConservedOnce(m);
    assert m.returned + [] == m.returned;
  }

  lemma FirstReport(s: State, c: nat)
    requires Settled(s) && c in s.pending
    ensures forall i | 0 <= i < |s.reports| :: s.reports[i].c != c
  {
    forall i | 0 <= i < |s.reports| ensures s.reports[i].c != c {
      assert s.journal[i].c != c by { assert !Done(s.journal, c); }
    }
  }

  // ----- The client object -----

  class CallClient {
    ghost const initial: map<nat, Bytes>   // the buffers as the callers left them
    var ipcMessageId: nat
    var receivedMemshares: seq<Region>
    var calls: seq<Call>
    var pending: set<nat>
    var buffers: map<nat, Bytes>
    var reports: seq<Report>
    var journal: seq<Completion>
    var mapped: seq<Region>
    var returned: seq<Region>
    var lost: seq<Region>

    function View(): State
      reads this
    {
      State(ipcMessageId, calls, pending, buffers, reports, journal,
            Memory(receivedMemshares, mapped, returned, lost))
    }

    ghost predicate Valid()
      reads this
    {
      Inv(initial, View())
    }

    constructor (buffers: map<nat, Bytes>)
      ensures View() == Init(buffers) && initial == buffers && Valid()
    {
      initial := buffers;
      ipcMessageId, receivedMemshares, calls, pending := 0, [], [], {};
      this.buffers, reports, journal := buffers, [], [];
      mapped, returned, lost := [], [], [];
    }

    /** The id is none that any of the last 2^64 - 1 calls has. */
    method AsyncIsolateRpcCall(buffer: nat) returns (id: nat)
      requires Valid()
      modifies this
      ensures View() == Apply(old(View()), Invoke(buffer)) && Valid()
      ensures id == ipcMessageId
      ensures forall i | 0 <= i < |old(calls)| < i + IDS :: old(calls)[i].id != id
    {
      FreshId(View());
      StepKeepsInv(initial, View(), Invoke(buffer));
      id := InvokeStep(buffer);
    }

    method InvokeStep(buffer: nat) returns (id: nat)
      modifies this
      ensures View() == Apply(old(View()), Invoke(buffer)) && id == ipcMessageId
    {
      ipcMessageId := (ipcMessageId + 1) % IDS;
      id := ipcMessageId;
      pending := pending + {|calls|};
      calls := calls + [Call(id, buffer)];
    }

    /** The lambda passed to InvokeEz: the callback of this call is fired, and never was
        before; only an answer changes a buffer. */
    method OnInvokeEzDone(x: Completion)
      requires Valid() && x.c in pending && x.c < |calls| && WellFormed(x)
      modifies this
      ensures View() == Apply(old(View()), Complete(x)) && Valid()
      ensures forall i | 0 <= i < |old(reports)| :: old(reports)[i].c != x.c
      ensures !Answers(old(calls)[x.c].id, x) ==> buffers == old(buffers)
      ensures |reports| == |old(reports)| + 1
      ensures reports[|reports| - 1].c == x.c && Told(old(calls)[x.c].id, x, reports[|reports| - 1].error)
    {
      FirstReport(View(), x.c);
      VerdictIff(calls[x.c].id, x);
      StepKeepsInv(initial, View(), Complete(x));
      CompletionStep(x);
    }

    method CompletionStep(x: Completion)
      requires x.c in pending && x.c < |calls| && WellFormed(x)
      modifies this
      ensures View() == Apply(old(View()), Complete(x))
    {
      var call := calls[x.c];
      pending := pending - {x.c};
      journal := journal + [x];
      if x.reply.Failed? {
        reports := reports + [Report(x.c, Some(x.reply.status))];
        return;
      }
      if x.reply.id != call.id {
        reports := reports + [Report(x.c, Some(Status(Internal, "Mismatched IPC message id")))];
        return;
      }
      var ok := MapHandles(x.sizes);
      if !ok {
        reports := reports + [Report(x.c, Some(Status(Internal, "Failed to map shared memory")))];
        return;
      }
      if x.reply.datagrams == [] {
        reports := reports + [Report(x.c, Some(Status(Internal, "Missing response payload")))];
        return;
      }
      buffers := buffers[call.buffer := x.reply.datagrams[0]];
      reports := reports + [Report(x.c, None)];
    }

    /** The loop over the handles: each is mapped and pushed until one fails. */
    method MapHandles(sizes: seq<Option<nat>>) returns (ok: bool)
      modifies this`receivedMemshares, this`mapped
      ensures ok <==> MappedPrefix(sizes) == |sizes|
      ensures mapped == old(mapped) + Regions(|old(mapped)|, sizes, MappedPrefix(sizes))
      ensures receivedMemshares == old(receivedMemshares) + Regions(|old(mapped)|, sizes, MappedPrefix(sizes))
    {
      var i := 0;
      while i < |sizes|
        invariant 0 <= i <= MappedPrefix(sizes)
        invariant mapped == old(mapped) + Regions(|old(mapped)|, sizes, i)
        invariant receivedMemshares == old(receivedMemshares) + Regions(|old(mapped)|, sizes, i)
      {
        if sizes[i].None? {
          return false;
        }
        var region := Region(|mapped|, sizes[i].value);
        mapped := mapped + [region];
        receivedMemshares := receivedMemshares + [region];
        i := i + 1;
      }
      return true;
    }

    /** ReceiveMemShareInternal, and the size check around it. */
    method ReceiveStep(itemSize: nat) returns (r: Option<Region>, items: nat)
      requires itemSize > 0
      modifies this
      ensures View() == Apply(old(View()), Receive(itemSize))
      ensures r == Handed(old(View()).mem, itemSize)
      ensures items == ItemsIn(r, itemSize)
    {
      r, items := None, 0;
      if receivedMemshares != [] {
        var top := receivedMemshares[|receivedMemshares| - 1];
        receivedMemshares := receivedMemshares[..|receivedMemshares| - 1];
        if top.size % itemSize == 0 {
          r, items := Some(top), top.size / itemSize;
          returned := returned + [top];
        } else {
          lost := lost + [top];
        }
      }
    }

    /** ReceiveMemShare: the region and how many items it is; None is the empty vector. */
    method ReceiveMemShare(itemSize: nat) returns (r: Option<Region>, items: nat)
      requires Valid() && itemSize > 0
      modifies this
      ensures View() == Apply(old(View()), Receive(itemSize)) && Valid()
      ensures Received(old(View()).mem, itemSize, r, items)
    {
      HandedOnce(View().mem, itemSize);
      StepKeepsInv(initial, View(), Receive(itemSize));
      r, items := ReceiveStep(itemSize);
    }
  }
}
