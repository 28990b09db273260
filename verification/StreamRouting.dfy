/** The read half of the C++ `Reactor`: which service handler sees which message of an
    incoming stream, while the enforcer may change the isolate state at any moment. Each
    `OnReadDone` is one step; a schedule is any sequence of steps, and a read that is not
    outstanding does not complete. `SetIsolateReady` stores what an update to READY stores,
    and is that step here. */
module StreamRouting {
  import opened Messages
  import opened Runs
  import Readiness

  datatype Message = Message(service: string, body: Bytes)

  /** A call into a service. */
  datatype Call =
    | Start(service: string, m: Message)       // IsolateStreamRpcMethodHandler
    | Forward(service: string, m: Message)     // ForwardStreamingMessage
    | Closed(service: string)                  // RequestStreamClosed

  datatype State = State(
    services: set<string>,      // isolate_rpc_service_map_, copied when the stream opened
    isolate: int,               // *current_state_
    request: Message,           // invoke_isolate_req_
    started: bool,              // is_rpc_started_
    reading: bool,              // a StartRead is outstanding
    calls: seq<Call>,
    finishes: seq<Code>)

  datatype Step = Read(m: Message) | ReadEnd | Update(v: int)

  const NoMessage := Message("", [])

  function Init(services: set<string>, isolate: int): State {
    State(services, isolate, NoMessage, false, true, [], [])
  }

  function Apply(s: State, step: Step): State {
    match step
    case Update(v) => s.(isolate := Readiness.CppUpdate(v))
    case ReadEnd =>
      if !s.reading then s else
      if s.request.service !in s.services then s.(reading := false, finishes := s.finishes + [Unknown])
      else s.(reading := false, calls := s.calls + [Closed(s.request.service)])
    case Read(m) =>
      if !s.reading then s else
      var s1 := s.(request := m);
      if m.service !in s.services then s1.(reading := false, finishes := s.finishes + [Unknown])
      else if s.started then s1.(calls := s.calls + [Forward(m.service, m)])
      else if !Readiness.Admits(s.isolate) then s1.(reading := false, finishes := s.finishes + [FailedPrecondition])
      else s1.(started := true, calls := s.calls + [Start(m.service, m)])
  }

  function Exec(s: State, schedule: seq<Step>): State {
    Run(Apply, s, schedule)
  }

  // ----- The stream on its own -----

  /** The reads of a schedule: its messages up to the end of the stream. */
  function Reads(schedule: seq<Step>): seq<Message>
    decreases |schedule|
  {
    if schedule == [] || schedule[0].ReadEnd? then []
    else (if schedule[0].Read? then [schedule[0].m] else []) + Reads(schedule[1..])
  }

  predicate Ends(schedule: seq<Step>)
    decreases |schedule|
  {
    schedule != [] && (schedule[0].ReadEnd? || Ends(schedule[1..]))
  }

  /** The isolate state when the first message arrives. */
  function StateAtFirst(isolate: int, schedule: seq<Step>): int
    decreases |schedule|
  {
    if schedule == [] || !schedule[0].Update? then isolate
    else StateAtFirst(Readiness.CppUpdate(schedule[0].v), schedule[1..])
  }

  /** How many messages come before the first one that names no registered service. */
  function Routable(services: set<string>, ms: seq<Message>): (k: nat)
    ensures k <= |ms|
    ensures forall i | 0 <= i < k :: ms[i].service in services
    ensures k < |ms| ==> ms[k].service !in services
  {
    if ms == [] || ms[0].service !in services then 0 else 1 + Routable(services, ms[1..])
  }

  function Forwards(ms: seq<Message>): (cs: seq<Call>)
    ensures |cs| == |ms|
    ensures forall i | 0 <= i < |ms| :: cs[i] == Forward(ms[i].service, ms[i])
  {
    seq(|ms|, i requires 0 <= i < |ms| => Forward(ms[i].service, ms[i]))
  }

  /** What a started stream still brings: the routable messages in order, each to the service
      it names, and the end of the stream to the service named last. */
  function Continuation(services: set<string>, last: string, ms: seq<Message>, ends: bool): seq<Call> {
    var k := Routable(services, ms);
    Forwards(ms[..k])
    + (if k == |ms| && ends then [Closed(if ms == [] then last else ms[|ms| - 1].service)] else [])
  }

  /** A started stream is finished by its reads exactly when a message is unroutable. */
  function Refusal(services: set<string>, ms: seq<Message>): seq<Code> {
    if Routable(services, ms) < |ms| then [Unknown] else []
  }

  ghost predicate Live(s: State) {
    s.started && s.reading && s.request.service in s.services
  }

  lemma {:induction false} DeadStreamsStayDead(s: State, schedule: seq<Step>)
    requires !s.reading
    ensures Exec(s, schedule).calls == s.calls && Exec(s, schedule).finishes == s.finishes
    decreases |schedule|
  {
    if schedule == [] {
    } else {
      DeadStreamsStayDead(Apply(s, schedule[0]), schedule[1..]);
    }
  }

  lemma ContinuationCons(services: set<string>, last: string, m: Message, rest: seq<Message>, ends: bool)
    ensures Continuation(services, last, [m] + rest, ends) ==
            if m.service in services then [Forward(m.service, m)] + Continuation(services, m.service, rest, ends)
            else []
    ensures Refusal(services, [m] + rest) == if m.service in services then Refusal(services, rest) else [Unknown]
  {
    var ms := [m] + rest;
    assert ms[1..] == rest;
    if m.service in services {
      var k := Routable(services, rest);
      assert ms[..k + 1] == [m] + rest[..k];
      assert Forwards(ms[..k + 1]) == [Forward(m.service, m)] + Forwards(rest[..k]);
    }
  }

  lemma ReadsCons(schedule: seq<Step>)
    requires schedule != []
    ensures Reads(schedule) == match schedule[0]
                               case Read(m) => [m] + Reads(schedule[1..])
                               case ReadEnd => []
                               case Update(_) => Reads(schedule[1..])
  {
  }

  /** Once started, a stream is neither cut nor reordered by state updates. */
  lemma {:induction false} StartedStreamRuns(s: State, schedule: seq<Step>)
    requires Live(s)
    ensures Exec(s, schedule).calls ==
            s.calls + Continuation(s.services, s.request.service, Reads(schedule), Ends(schedule))
    ensures Exec(s, schedule).finishes == s.finishes + Refusal(s.services, Reads(schedule))
    decreases |schedule|
  {
    if schedule == [] {
      assert Continuation(s.services, s.request.service, [], false) == [];
    } else {
      var s1 := Apply(s, schedule[0]);
      ReadsCons(schedule);
      match schedule[0]
      case Update(_) =>
        StartedStreamRuns(s1, schedule[1..]);
      case ReadEnd =>
        DeadStreamsStayDead(s1, schedule[1..]);
        assert Continuation(s.services, s.request.service, [], true) == [Closed(s.request.service)];
      case Read(m) =>
        if Live(s1) {
          StartedStreamRuns(s1, schedule[1..]);
        } else {
          DeadStreamsStayDead(s1, schedule[1..]);
        }
        ReadContinues(s, m, Reads(schedule[1..]), Ends(schedule[1..]));
    }
  }

  lemma ReadContinues(s: State, m: Message, rest: seq<Message>, ends: bool)
    requires Live(s)
    ensures var s1 := Apply(s, Read(m));
            s.calls + Continuation(s.services, s.request.service, [m] + rest, ends) ==
            if Live(s1) then s1.calls + Continuation(s1.services, s1.request.service, rest, ends) else s1.calls
    ensures var s1 := Apply(s, Read(m));
            s.finishes + Refusal(s.services, [m] + rest) ==
            if Live(s1) then s1.finishes + Refusal(s1.services, rest) else s1.finishes
  {
    ContinuationCons(s.services, s.request.service, m, rest, ends);
    var more := Continuation(s.services, m.service, rest, ends);
    assert (s.calls + [Forward(m.service, m)]) + more == s.calls + ([Forward(m.service, m)] + more);
  }

  /** The first message decides. */
  lemma FirstRead(services: set<string>, isolate: int, m: Message, rest: seq<Step>)
    ensures var s := Exec(Apply(Init(services, isolate), Read(m)), rest);
            if Readiness.Admits(isolate) && m.service in services then
              && s.calls == [Start(m.service, m)] + Continuation(services, m.service, Reads(rest), Ends(rest))
              && s.finishes == Refusal(services, Reads(rest))
            else
              s.calls == [] && s.finishes == [if m.service !in services then Unknown else FailedPrecondition]
  {
    var s1 := Apply(Init(services, isolate), Read(m));
    if Readiness.Admits(isolate) && m.service in services {
      StartedStreamRuns(s1, rest);
    } else {
      DeadStreamsStayDead(s1, rest);
    }
  }

  /** Every stream: a stream whose first message comes while the isolate is ready and names a
      registered service is started with that message exactly once; the messages up to the
      first unroutable one follow in order, then the end of the stream; it is finished, with
      UNKNOWN, exactly when there is an unroutable one. Readiness counts only at the first
      message. Any other stream with a message reaches no service at all and is finished once,
      with UNKNOWN if the service is not registered, else with FAILED_PRECONDITION. */
  lemma {:induction false} StreamsAreRouted(services: set<string>, isolate: int, schedule: seq<Step>)
    requires Reads(schedule) != []
    ensures var ms := Reads(schedule);
            var s := Exec(Init(services, isolate), schedule);
            if Readiness.Admits(StateAtFirst(isolate, schedule)) && ms[0].service in services then
              && s.calls == [Start(ms[0].service, ms[0])]
                            + Continuation(services, ms[0].service, ms[1..], Ends(schedule))
              && s.finishes == Refusal(services, ms[1..])
            else
              && s.calls == []
              && s.finishes == [if ms[0].service !in services then Unknown else FailedPrecondition]
    decreases |schedule|
  {
    ReadsCons(schedule);
    match schedule[0]
    case Update(v) =>
      assert Apply(Init(services, isolate), schedule[0]) == Init(services, Readiness.CppUpdate(v));
      StreamsAreRouted(services, Readiness.CppUpdate(v), schedule[1..]);
    case Read(m) =>
      FirstRead(services, isolate, m, schedule[1..]);
      assert Reads(schedule)[1..] == Reads(schedule[1..]);
  }

  /** The plain case: all messages name one registered service of a ready isolate. */
  lemma OneServiceStream(services: set<string>, isolate: int, schedule: seq<Step>, name: string)
    requires Reads(schedule) != [] && name in services
    requires forall m | m in Reads(schedule) :: m.service == name
    requires Readiness.Admits(StateAtFirst(isolate, schedule))
    ensures var ms := Reads(schedule);
            Exec(Init(services, isolate), schedule).calls ==
            [Start(name, ms[0])] + Forwards(ms[1..]) + (if Ends(schedule) then [Closed(name)] else [])
  {
    var ms := Reads(schedule);
    var rest := ms[1..];
    StreamsAreRouted(services, isolate, schedule);
    assert ms[0] in ms;
    assert forall m | m in rest :: m in ms;
    AllRoutable(services, name, rest);
  }

  lemma AllRoutable(services: set<string>, name: string, ms: seq<Message>)
    requires name in services && forall m | m in ms :: m.service == name
    ensures forall ends: bool :: Continuation(services, name, ms, ends) ==
                                 Forwards(ms) + (if ends then [Closed(name)] else [])
  {
    assert Routable(services, ms) == |ms|;
    assert ms[..|ms|] == ms;
    assert ms != [] ==> ms[|ms| - 1] in ms;
  }

  /** Every stream that ends before any message, whatever updates come: it is refused, unless
      a service has the empty name, since the lookup uses the message buffer, still blank. */
  lemma {:induction false} EmptyStream(services: set<string>, isolate: int, schedule: seq<Step>)
    requires Reads(schedule) == [] && Ends(schedule)
    ensures var s := Exec(Init(services, isolate), schedule);
            if "" in services then s.calls == [Closed("")] && s.finishes == []
            else s.calls == [] && s.finishes == [Unknown]
    decreases |schedule|
  {
    ReadsCons(schedule);
    var s1 := Apply(Init(services, isolate), schedule[0]);
    if schedule[0].Update? {
      EmptyStream(services, s1.isolate, schedule[1..]);
    } else {
      DeadStreamsStayDead(s1, schedule[1..]);
    }
  }

  // ----- The object whose methods are those steps -----

  class StreamReactor {
    const services: set<string>
    var isolate: int
    var request: Message
    var isRpcStarted: bool
    var reading: bool
    var calls: seq<Call>
    var finishes: seq<Code>

    function View(): State
      reads this
    {
      State(services, isolate, request, isRpcStarted, reading, calls, finishes)
    }

    constructor (services: set<string>, isolate: int)
      ensures View() == Init(services, isolate)
    {
      this.services, this.isolate := services, isolate;
      request, isRpcStarted, reading := NoMessage, false, true;
      calls, finishes := [], [];
    }

    method OnReadDone(message: Option<Message>)
      requires reading
      modifies this
      ensures View() == Apply(old(View()), if message.Some? then Read(message.value) else ReadEnd)
    {
      reading := false;
      if message.Some? {
        request := message.value;
      }
      if request.service !in services {
        finishes := finishes + [Unknown];
        return;
      }
      if message.None? {
        calls := calls + [Closed(request.service)];
        return;
      }
      if !isRpcStarted {
        if isolate != Readiness.READY {
          finishes := finishes + [FailedPrecondition];
          return;
        }
        isRpcStarted := true;
        calls := calls + [Start(request.service, request)];
      } else {
        calls := calls + [Forward(request.service, request)];
      }
      reading := true;
    }
  }
}
