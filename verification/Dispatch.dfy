/** Dispatching a request to a service: the Rust `RpcDispatcher`, unary and streaming, and the
    unary path of the C++ bridge. A service is given by what its handlers compute; a stream is
    the finite sequence of its items, an item being a message or a status. */
module Dispatch {
  import opened Messages
  import opened Sequences
  import Readiness

  // ----- Rust -----

  datatype RustService = RustService(
    unary: (string, Bytes) -> Result<IsolateResponse>,
    streaming: (string, seq<Result<IsolateRequest>>) -> Result<seq<Result<IsolateResponse>>>)

  datatype Resolved = Resolved(metadata: Metadata, service: RustService)

  /** resolve_service: metadata, then readiness, then the service map. */
  function Resolve(services: map<string, RustService>, state: int, metadata: Option<Metadata>): Result<Resolved> {
    if metadata.None? then Err(Status(InvalidArgument, "Missing control plane metadata"))
    else if !Readiness.Admits(state) then Err(Status(FailedPrecondition, "Isolate is not ready"))
    else if metadata.value.service !in services then Err(Status(NotFound, "Service not supported by isolate"))
    else Ok(Resolved(metadata.value, services[metadata.value.service]))
  }

  /** The dispatcher's mark on a response: the request's id, and that it was answered here. */
  function Stamp(id: nat, r: IsolateResponse): IsolateResponse {
    r.(metadata := Some(r.metadata.GetOr(NoMetadata).(ipcMessageId := id, responderIsLocal := true)))
  }

  function StampItem(id: nat, item: Result<IsolateResponse>): Result<IsolateResponse> {
    if item.Ok? then Ok(Stamp(id, item.value)) else item
  }

  function FirstDatagram(payload: Option<seq<Bytes>>): Option<Bytes> {
    if payload.Some? && payload.value != [] then Some(payload.value[0]) else None
  }

  function InvokeIsolate(services: map<string, RustService>, state: int, req: IsolateRequest): Result<IsolateResponse> {
    var resolved := Resolve(services, state, req.metadata);
    if resolved.Err? then Err(resolved.status) else
    var Resolved(metadata, service) := resolved.value;
    var bytes := FirstDatagram(req.input);
    if bytes.None? then Err(Status(InvalidArgument, "Missing datagram in request payload")) else
    StampItem(metadata.ipcMessageId, service.unary(metadata.method_, bytes.value))
  }

  /** A stream whose next item may have been taken into a slot by peeking. */
  datatype Peekable<T> = Peekable(slot: Option<T>, rest: seq<T>) {
    /** What a consumer of the stream will see. */
    function Contents(): seq<T> {
      if slot.Some? then [slot.value] + rest else rest
    }

    function Peek(): (Peekable<T>, Option<T>) {
      if slot.Some? then (this, slot)
      else if rest == [] then (this, None)
      else (Peekable(Some(rest[0]), rest[1..]), Some(rest[0]))
    }
  }

  /** Peeking takes nothing away from the stream and shows its first item. */
  lemma PeekLosesNothing<T>(p: Peekable<T>)
    ensures var (q, first) := p.Peek();
            q.Contents() == p.Contents() && first == if p.Contents() == [] then None else Some(p.Contents()[0])
  {
  }

  /** stream_invoke_isolate: the items of the response stream. */
  function StreamInvoke(services: map<string, RustService>, state: int, requests: seq<Result<IsolateRequest>>)
    : seq<Result<IsolateResponse>>
  {
    var (peekable, first) := Peekable(None, requests).Peek();
    if first.None? then [Err(Status(InvalidArgument, "Stream ended unexpectedly"))] else
    if first.value.Err? then [Err(first.value.status)] else
    var resolved := Resolve(services, state, first.value.value.metadata);
    if resolved.Err? then [Err(resolved.status)] else
    var Resolved(metadata, service) := resolved.value;
    var responses := service.streaming(metadata.method_, peekable.Contents());
    if responses.Err? then [Err(responses.status)] else
    StampAll(metadata.ipcMessageId, responses.value)
  }

  function StampAll(id: nat, items: seq<Result<IsolateResponse>>): (out: seq<Result<IsolateResponse>>)
    ensures |out| == |items|
    ensures forall i | 0 <= i < |items| :: out[i] == StampItem(id, items[i])
  {
    Map(item => StampItem(id, item), items)
  }

  /** The request stream is admitted: its first item names a registered service of a ready
      isolate. */
  predicate Admitted(services: map<string, RustService>, state: int, requests: seq<Result<IsolateRequest>>) {
    && requests != [] && requests[0].Ok?
    && requests[0].value.metadata.Some?
    && Readiness.Admits(state)
    && requests[0].value.metadata.value.service in services
  }

  /** The handler of the service an admitted stream names, applied to the whole stream. */
  function Handled(services: map<string, RustService>, state: int, requests: seq<Result<IsolateRequest>>)
    : Result<seq<Result<IsolateResponse>>>
    requires Admitted(services, state, requests)
  {
    var metadata := requests[0].value.metadata.value;
    services[metadata.service].streaming(metadata.method_, requests)
  }

  /** Peeking loses nothing: the handler sees the whole request stream. The output is the
      handler's output with length, order and errors preserved, every success carrying the
      first message's id and the local flag and nothing else changed; every failing path
      yields exactly one error: that of the first item, the first hurdle's, or the handler's. */
  lemma StreamOutput(services: map<string, RustService>, state: int, requests: seq<Result<IsolateRequest>>)
    ensures var out := StreamInvoke(services, state, requests);
            if Admitted(services, state, requests) && Handled(services, state, requests).Ok? then
              var items := Handled(services, state, requests).value;
              && |out| == |items|
              && forall i | 0 <= i < |out| ::
                   if items[i].Err? then out[i] == items[i]
                   else && out[i].Ok?
                        && out[i].value.output == items[i].value.output && out[i].value.iscope == items[i].value.iscope
                        && out[i].value.metadata == Some(items[i].value.metadata.GetOr(NoMetadata).(
                             ipcMessageId := requests[0].value.metadata.value.ipcMessageId, responderIsLocal := true))
            else
              && |out| == 1 && out[0].Err?
              && if requests == [] then out[0].status == Status(InvalidArgument, "Stream ended unexpectedly")
                 else if requests[0].Err? then out[0].status == requests[0].status
                 else if requests[0].value.metadata.None? then
                   out[0].status == Status(InvalidArgument, "Missing control plane metadata")
                 else if !Readiness.Admits(state) then
                   out[0].status == Status(FailedPrecondition, "Isolate is not ready")
                 else if requests[0].value.metadata.value.service !in services then
                   out[0].status == Status(NotFound, "Service not supported by isolate")
                 else out[0].status == Handled(services, state, requests).status
  {
    PeekLosesNothing(Peekable(None, requests));
  }

  /** A unary request succeeds exactly when it has metadata, the isolate is ready, the service
      is registered, there is a datagram, and the handler succeeds on the first one; the
      answer is the handler's with the request's id and the local flag. Otherwise the status
      names the first hurdle, or is the handler's own. */
  predicate RustAnswers(services: map<string, RustService>, state: int, req: IsolateRequest,
                        r: Result<IsolateResponse>)
  {
    if req.metadata.None? then r == Err(Status(InvalidArgument, "Missing control plane metadata")) else
    var m := req.metadata.value;
    if !Readiness.Admits(state) then r == Err(Status(FailedPrecondition, "Isolate is not ready"))
    else if m.service !in services then r == Err(Status(NotFound, "Service not supported by isolate"))
    else if req.input == None || req.input == Some([]) then
      r == Err(Status(InvalidArgument, "Missing datagram in request payload"))
    else var answer := services[m.service].unary(m.method_, req.input.value[0]);
         if answer.Err? then r == answer
         else && r.Ok? && r.value.output == answer.value.output && r.value.iscope == answer.value.iscope
              && r.value.metadata == Some(answer.value.metadata.GetOr(NoMetadata).(
                   ipcMessageId := m.ipcMessageId, responderIsLocal := true))
  }

  lemma UnaryOutput(services: map<string, RustService>, state: int, req: IsolateRequest)
    ensures RustAnswers(services, state, req, InvokeIsolate(services, state, req))
  {
  }

  class RpcDispatcher {
    var serviceMap: map<string, RustService>
    var currentState: int
    ghost var updates: seq<int>

    ghost predicate Valid()
      reads this
    {
      currentState == Readiness.RustState(updates)
    }

    constructor (name: string, service: RustService)
      ensures serviceMap == map[name := service] && updates == [] && Valid() && Readiness.Admits(currentState)
    {
      serviceMap := map[name := service];
      currentState := Readiness.READY;
      updates := [];
    }

    /** From now on requests to this name go to this service, all others where they went. */
    method AddService(name: string, service: RustService)
      requires Valid()
      modifies this
      ensures serviceMap == old(serviceMap)[name := service] && currentState == old(currentState)
      ensures updates == old(updates) && Valid()
      ensures forall m: Metadata :: Resolve(serviceMap, currentState, Some(m)) ==
                if m.service != name then old(Resolve(serviceMap, currentState, Some(m)))
                else if Readiness.Admits(currentState) then Ok(Resolved(m, service))
                else Err(Status(FailedPrecondition, "Isolate is not ready"))
    {
      serviceMap := serviceMap[name := service];
    }

    /** Work is admitted afterwards exactly when the update asks for STARTING or READY; the reply
        is the state that every earlier update together leaves. */
    method UpdateIsolateState(moveTo: int) returns (reply: int)
      requires Valid()
      modifies this
      ensures updates == old(updates) + [moveTo] && Valid()
      ensures currentState == reply == Readiness.RustUpdate(moveTo)
      ensures Readiness.Admits(reply) <==> moveTo == Readiness.STARTING || moveTo == Readiness.READY
      ensures serviceMap == old(serviceMap)
    {
      var target := if Readiness.Known(moveTo) then moveTo else Readiness.UNSPECIFIED;
      currentState := if target == Readiness.STARTING then Readiness.READY else target;
      reply := currentState;
      updates := updates + [moveTo];
      Readiness.LastChangeWins(Readiness.RustUpdate, Readiness.READY, updates);
    }

    /** The generator body: resolve by the peeked item, then stamp each item in turn. */
    method StreamInvokeIsolate(requests: seq<Result<IsolateRequest>>) returns (out: seq<Result<IsolateResponse>>)
      ensures out == StreamInvoke(serviceMap, currentState, requests)
    {
      var (peekable, first) := Peekable(None, requests).Peek();
      if first.None? {
        return [Err(Status(InvalidArgument, "Stream ended unexpectedly"))];
      }
      if first.value.Err? {
        return [Err(first.value.status)];
      }
      var resolved := Resolve(serviceMap, currentState, first.value.value.metadata);
      if resolved.Err? {
        return [Err(resolved.status)];
      }
      var id := resolved.value.metadata.ipcMessageId;
      var responses := resolved.value.service.streaming(resolved.value.metadata.method_, peekable.Contents());
      if responses.Err? {
        return [Err(responses.status)];
      }
      var items := responses.value;
      out := [];
      var i := 0;
      while i < |items|
        invariant 0 <= i <= |items| && out == StampAll(id, items)[..i]
      {
        var item := items[i];
        if item.Ok? {
          var metadata := item.value.metadata.GetOr(NoMetadata);
          metadata := metadata.(ipcMessageId := id, responderIsLocal := true);
          item := Ok(item.value.(metadata := Some(metadata)));
        }
        out := out + [item];
        i := i + 1;
      }
    }

    method Invoke(req: IsolateRequest) returns (r: Result<IsolateResponse>)
      ensures r == InvokeIsolate(serviceMap, currentState, req)
      ensures RustAnswers(serviceMap, currentState, req, r)
    {
      var resolved := Resolve(serviceMap, currentState, req.metadata);
      if resolved.Err? {
        return Err(resolved.status);
      }
      var metadata := resolved.value.metadata;
      if req.input.None? || req.input.value == [] {
        return Err(Status(InvalidArgument, "Missing datagram in request payload"));
      }
      r := resolved.value.service.unary(metadata.method_, req.input.value[0]);
      if r.Ok? {
        var stamped := r.value.metadata.GetOr(NoMetadata);
        stamped := stamped.(ipcMessageId := metadata.ipcMessageId, responderIsLocal := true);
        r := Ok(r.value.(metadata := Some(stamped)));
      }
    }
  }

  // ----- C++ -----

  /** What IsolateRpcMethodHandler has produced when it calls done. */
  datatype CppReply = CppReply(error: Option<Status>, bytes: Bytes, memory: seq<string>, fileshares: seq<string>)

  datatype CppService = CppService(name: string, handler: (string, seq<Bytes>) -> CppReply)

  function ForwardRequest(service: CppService, req: IsolateRequest): Result<IsolateResponse> {
    var metadata := req.metadata.GetOr(NoMetadata);
    var datagrams := req.input.GetOr([]);
    if metadata.service != service.name then Err(Status(InvalidArgument, "Mismatched service name"))
    else if datagrams == [] then Err(Status(InvalidArgument, "Missing datagram"))
    else
      var reply := service.handler(metadata.method_, datagrams);
      if reply.error.Some? then Err(reply.error.value)
      else Ok(IsolateResponse(Some(NoMetadata.(ipcMessageId := metadata.ipcMessageId, responderIsLocal := true,
                                               sharedMemoryHandles := reply.memory,
                                               fileshareHandles := reply.fileshares)),
                              Some([0]), Some([reply.bytes])))
  }

  function CppInvokeIsolate(services: map<string, CppService>, state: int, req: IsolateRequest)
    : Result<IsolateResponse>
  {
    var name := req.metadata.GetOr(NoMetadata).service;
    if !Readiness.Admits(state) then Err(Status(FailedPrecondition, "Isolate is not ready"))
    else if name !in services then Err(Status(Unknown, "Service not supported by isolate"))
    else ForwardRequest(services[name], req)
  }

  /** A unary request succeeds exactly when the isolate is ready, the service is registered
      under its own name, there is a datagram, and the handler succeeds on all of them; the answer carries the
      handler's bytes and handles, the request's id and the local flag, and scope 0. */
  predicate CppAnswers(services: map<string, CppService>, state: int, req: IsolateRequest,
                       r: Result<IsolateResponse>)
  {
    var m, ds := req.metadata.GetOr(NoMetadata), req.input.GetOr([]);
    if !Readiness.Admits(state) then r == Err(Status(FailedPrecondition, "Isolate is not ready"))
    else if m.service !in services then r == Err(Status(Unknown, "Service not supported by isolate"))
    else if services[m.service].name != m.service then r == Err(Status(InvalidArgument, "Mismatched service name"))
    else if ds == [] then r == Err(Status(InvalidArgument, "Missing datagram"))
    else var reply := services[m.service].handler(m.method_, ds);
         if reply.error.Some? then r == Err(reply.error.value)
         else && r.Ok? && r.value.output == Some([reply.bytes]) && r.value.iscope == Some([0])
              && r.value.metadata.Some?
              && r.value.metadata.value.ipcMessageId == m.ipcMessageId && r.value.metadata.value.responderIsLocal
              && r.value.metadata.value.sharedMemoryHandles == reply.memory
              && r.value.metadata.value.fileshareHandles == reply.fileshares
  }

  lemma CppUnaryOutput(services: map<string, CppService>, state: int, req: IsolateRequest)
    ensures CppAnswers(services, state, req, CppInvokeIsolate(services, state, req))
  {
  }

  /** Registration keys a service by its own name; a name already taken keeps its service. */
  function AddIsolateRpcService(services: map<string, CppService>, service: CppService): (r: map<string, CppService>)
    ensures r.Keys == services.Keys + {service.name}
    ensures forall k | k in services :: r[k] == services[k]
    ensures service.name !in services ==> r[service.name] == service
    ensures KeyedByName(services) ==> KeyedByName(r)
  {
    if service.name in services then services else services[service.name := service]
  }

  /** Which handler answers a request for this name, if any. */
  function Answering(services: map<string, CppService>, name: string): Option<CppService> {
    if name in services then Some(services[name]) else None
  }

  predicate KeyedByName(services: map<string, CppService>) {
    forall k | k in services :: services[k].name == k
  }

  class EzIsolateBridge {
    var services: map<string, CppService>
    var currentState: int
    ghost var history: seq<Readiness.Change>

    ghost predicate Valid()
      reads this
    {
      KeyedByName(services) && currentState == Readiness.CppState(history)
    }

    constructor (service: CppService)
      ensures services == AddIsolateRpcService(map[], service) && currentState == Readiness.UNSPECIFIED
      ensures history == [] && Valid() && !Readiness.Admits(currentState)
      ensures forall name: string :: Answering(services, name) == if name == service.name then Some(service) else None
    {
      services := map[service.name := service];
      currentState := Readiness.UNSPECIFIED;
      history := [];
    }

    /** A request to this name is answered by this service if the name was free, else by the
        one that has it; all others are answered as before. */
    method AddService(service: CppService)
      requires Valid()
      modifies this
      ensures services == AddIsolateRpcService(old(services), service) && currentState == old(currentState)
      ensures history == old(history) && Valid()
      ensures forall name: string :: Answering(services, name) ==
                if name == service.name && name !in old(services) then Some(service)
                else Answering(old(services), name)
    {
      if service.name !in services {
        services := services[service.name := service];
      }
    }

    /** Work is admitted, whatever the enforcer asked for before. */
    method SetIsolateReady()
      requires Valid()
      modifies this
      ensures history == old(history) + [Readiness.SetReady] && Valid()
      ensures Readiness.Admits(currentState) && services == old(services)
    {
      currentState := Readiness.READY;
      history := history + [Readiness.SetReady];
      Readiness.LastChangeWins(Readiness.CppStored, Readiness.UNSPECIFIED, history);
    }

    /** Work is admitted afterwards exactly when the update asks for STARTING or READY. */
    method UpdateIsolateState(moveTo: int) returns (reply: int)
      requires Valid()
      modifies this
      ensures history == old(history) + [Readiness.Update(moveTo)] && Valid()
      ensures currentState == reply == Readiness.CppUpdate(moveTo)
      ensures Readiness.Admits(reply) <==> moveTo == Readiness.STARTING || moveTo == Readiness.READY
      ensures services == old(services)
    {
      var newState := moveTo;
      if moveTo == Readiness.STARTING {
        newState := Readiness.READY;
      }
      currentState := newState;
      reply := newState;
      history := history + [Readiness.Update(moveTo)];
      Readiness.LastChangeWins(Readiness.CppStored, Readiness.UNSPECIFIED, history);
    }

    method Invoke(req: IsolateRequest) returns (r: Result<IsolateResponse>)
      ensures r == CppInvokeIsolate(services, currentState, req)
      ensures CppAnswers(services, currentState, req, r)
    {
      var name := req.metadata.GetOr(NoMetadata).service;
      if currentState != Readiness.READY {
        return Err(Status(FailedPrecondition, "Isolate is not ready"));
      }
      if name !in services {
        return Err(Status(Unknown, "Service not supported by isolate"));
      }
      r := ForwardRequest(services[name], req);
    }
  }

  // ----- The two bridges side by side -----

  /** The two handlers came to the same outcome: the same bytes, or the same error code. */
  predicate SameOutcome(c: CppReply, r: Result<IsolateResponse>) {
    if c.error.Some? then r.Err? && r.status.code == c.error.value.code
    else r.Ok? && r.value.output == Some([c.bytes])
  }

  /** The two bridges gave the same answer: payload, id and local flag, or the error code. */
  predicate SameAnswer(c: Result<IsolateResponse>, r: Result<IsolateResponse>, id: nat) {
    if c.Ok? then
      && r.Ok? && c.value.output == r.value.output
      && c.value.metadata.Some? && c.value.metadata.value.ipcMessageId == id && c.value.metadata.value.responderIsLocal
      && r.value.metadata.Some? && r.value.metadata.value.ipcMessageId == id && r.value.metadata.value.responderIsLocal
    else
      r.Err? && r.status.code == c.status.code
  }

  /** For every request with metadata, to isolates with services of the same names: the two
      bridges give the same answer if and only if the isolate is not ready, or the service is
      registered and the handlers, if they are reached, came to the same outcome, C++ on all
      datagrams and Rust on the first. An unregistered service is UNKNOWN in C++ and NOT_FOUND
      in Rust. */
  lemma BridgesAgreeIff(cpp: map<string, CppService>, rust: map<string, RustService>, state: int, req: IsolateRequest)
    requires KeyedByName(cpp) && cpp.Keys == rust.Keys && req.metadata.Some?
    ensures var m, ds := req.metadata.value, req.input.GetOr([]);
            var c, r := CppInvokeIsolate(cpp, state, req), InvokeIsolate(rust, state, req);
            && (SameAnswer(c, r, m.ipcMessageId) <==>
                  || !Readiness.Admits(state)
                  || (m.service in cpp &&
                      (ds == [] || SameOutcome(cpp[m.service].handler(m.method_, ds),
                                               rust[m.service].unary(m.method_, ds[0])))))
            && (Readiness.Admits(state) && m.service !in cpp ==>
                  c.Err? && c.status.code == Unknown && r.Err? && r.status.code == NotFound)
  {
    UnaryOutput(rust, state, req);
    CppUnaryOutput(cpp, state, req);
  }

  /** Without metadata Rust always refuses; C++ looks up the empty name, and succeeds exactly
      if the isolate is ready, a service is registered under that name, and its handler
      succeeds on the datagrams and the empty method name. */
  lemma MissingMetadata(cpp: map<string, CppService>, rust: map<string, RustService>, state: int, req: IsolateRequest)
    requires KeyedByName(cpp) && req.metadata.None?
    ensures InvokeIsolate(rust, state, req) == Err(Status(InvalidArgument, "Missing control plane metadata"))
    ensures CppInvokeIsolate(cpp, state, req).Ok? <==>
              && Readiness.Admits(state) && "" in cpp && req.input.GetOr([]) != []
              && cpp[""].handler("", req.input.GetOr([])).error.None?
  {
  }
}
