/** A call from one isolate to another, end to end: the Rust client's `RpcHandler`, the mock
    enforcer (unary forwarding, or the stream bridge), the Rust dispatcher, and the service
    adapter with the conversions of utils.rs. Messages travel through abstract codecs. */
module Transparency {
  import opened Messages
  import opened Sequences
  import opened Dispatch
  import Readiness
  import Bridge = StreamBridge

  /** How messages of one type are put into bytes. */
  datatype Codec<!M> = Codec(encode: M -> Bytes, decode: Bytes -> Option<M>)

  ghost predicate Faithful<M(!new)>(c: Codec<M>) {
    forall m: M :: c.decode(c.encode(m)) == Some(m)
  }

  // ----- The service side -----

  /** message_to_invoke_isolate_response. */
  function ToResponse<M>(c: Codec<M>, scope: int, m: M): IsolateResponse {
    IsolateResponse(None, Some([scope]), Some([c.encode(m)]))
  }

  /** invoke_isolate_stream_to_message_stream, one item. */
  function FromRequest<M>(c: Codec<M>, item: Result<IsolateRequest>): Result<M> {
    if item.Err? then Err(item.status) else
    var bytes := FirstDatagram(item.value.input);
    if bytes.None? then Err(Status(InvalidArgument, "Missing datagram in request payload")) else
    var m := c.decode(bytes.value);
    if m.None? then Err(Status(Internal, "Failed to decode request")) else Ok(m.value)
  }

  /** message_stream_to_invoke_isolate_stream, one item. */
  function ToItem<M>(c: Codec<M>, scope: int, item: Result<M>): Result<IsolateResponse> {
    if item.Err? then Err(item.status) else Ok(ToResponse(c, scope, item.value))
  }

  /** A user's service: what each method computes, and how each streaming method maps the
      stream of its messages. */
  datatype UserService<!Q, !A> = UserService(
    methods: map<string, Q -> Result<A>>,
    streams: map<string, seq<Result<Q>> -> Result<seq<Result<A>>>>)

  /** The generated adapter that offers a user's service to the dispatcher. */
  function Adapter<Q, A>(cq: Codec<Q>, ca: Codec<A>, scope: int, user: UserService<Q, A>): RustService {
    RustService((method_, bytes) => AdaptUnary(cq, ca, scope, user, method_, bytes),
                (method_, items) => AdaptStream(cq, ca, scope, user, method_, items))
  }

  function AdaptUnary<Q, A>(cq: Codec<Q>, ca: Codec<A>, scope: int, user: UserService<Q, A>, method_: string,
                            bytes: Bytes): Result<IsolateResponse>
  {
    if method_ !in user.methods then Err(Status(Unimplemented, "Method is not implemented for this service")) else
    var m := cq.decode(bytes);
    if m.None? then Err(Status(InvalidArgument, "Unable to parse request")) else
    ToItem(ca, scope, user.methods[method_](m.value))
  }

  function AdaptStream<Q, A>(cq: Codec<Q>, ca: Codec<A>, scope: int, user: UserService<Q, A>, method_: string,
                             items: seq<Result<IsolateRequest>>): Result<seq<Result<IsolateResponse>>>
  {
    if method_ !in user.streams then Err(Status(Unimplemented, "Method is not implemented for this service")) else
    var answers := user.streams[method_](Map(item => FromRequest(cq, item), items));
    if answers.Err? then Err(answers.status) else Ok(Map(item => ToItem(ca, scope, item), answers.value))
  }

  // ----- The isolates and the mock enforcer -----

  datatype Isolate = Isolate(services: map<string, RustService>, state: int)

  /** MockEnforcerImpl::InvokeEz: a fresh request with the service, the method and the first
      datagram; the reply gets the id of the original request. The client always sends one
      datagram, which is what reading datagrams(0) relies on. */
  function InvokeEz(routes: map<string, Isolate>, req: EzRequest): Result<EzResponse>
    requires FirstDatagram(req.payload).Some?
  {
    var metadata := req.metadata.GetOr(NoMetadata);
    if metadata.service !in routes then Err(Status(Unavailable, "Service not found")) else
    var isolate := routes[metadata.service];
    var forwarded := IsolateRequest(Some(NoMetadata.(service := metadata.service, method_ := metadata.method_)), None,
                                    Some([FirstDatagram(req.payload).value]));
    var reply := InvokeIsolate(isolate.services, isolate.state, forwarded);
    if reply.Err? then Err(reply.status) else
    var bytes := FirstDatagram(reply.value.output);
    Ok(EzResponse(Some(NoMetadata.(ipcMessageId := metadata.ipcMessageId)), None, Some([bytes.GetOr([])])))
  }

  // ----- The client side -----

  datatype RpcHandler = RpcHandler(domain: string, service: string, scope: int)

  /** create_invoke_ez_request. */
  function CreateRequest(h: RpcHandler, id: nat, method_: string, bytes: Bytes): EzRequest {
    EzRequest(Some(NoMetadata.(ipcMessageId := id, requesterIsLocal := true, domain := h.domain,
                               service := h.service, method_ := method_)),
              Some([h.scope]), Some([bytes]))
  }

  /** decode_invoke_ez_response. */
  function DecodeResponse<M>(c: Codec<M>, r: EzResponse): Result<M> {
    var bytes := FirstDatagram(r.payload);
    if bytes.None? then Err(Status(Internal, "Missing response payload")) else
    var m := c.decode(bytes.value);
    if m.None? then Err(Status(Internal, "Failed to decode response")) else Ok(m.value)
  }

  /** isolate_rpc_call_helper, once the reply is there: the id check, then the payload. */
  function Accept<A>(ca: Codec<A>, id: nat, reply: Result<EzResponse>): Result<A> {
    if reply.Err? then Err(reply.status) else
    if reply.value.metadata.GetOr(NoMetadata).ipcMessageId != id then
      Err(Status(Internal, "Mismatched IPC message id"))
    else
    DecodeResponse(ca, reply.value)
  }

  /** isolate_rpc_call, with the id the client drew. */
  function RpcCall<Q, A>(routes: map<string, Isolate>, cq: Codec<Q>, ca: Codec<A>, h: RpcHandler, id: nat,
                         method_: string, m: Q): Result<A>
  {
    Accept(ca, id, InvokeEz(routes, CreateRequest(h, id, method_, cq.encode(m))))
  }

  // ----- Unary calls are transparent -----

  /** Whatever reply arrives, from any enforcer: a failure is passed on; a reply to another
      call, one without a datagram and one that does not decode are internal errors; and a
      message comes back only from a reply to this very call, decoded from its first datagram. */
  lemma AcceptIff<A>(ca: Codec<A>, id: nat, reply: Result<EzResponse>)
    ensures var r := Accept(ca, id, reply);
            match reply
            case Err(status) => r == Err(status)
            case Ok(EzResponse(metadata, _, payload)) =>
              if id != (match metadata case Some(m) => m.ipcMessageId case None => 0) then
                r == Err(Status(Internal, "Mismatched IPC message id"))
              else match payload
                   case None => r == Err(Status(Internal, "Missing response payload"))
                   case Some(datagrams) =>
                     if |datagrams| == 0 then r == Err(Status(Internal, "Missing response payload"))
                     else match ca.decode(datagrams[0])
                          case None => r == Err(Status(Internal, "Failed to decode response"))
                          case Some(a) => r == Ok(a)
  {
  }

  /** For every message, every id and any codecs: the status of the first hurdle, or what the
      method makes of the message as the service decodes it, as the client decodes that. */
  lemma UnaryOutcome<Q, A>(routes: map<string, Isolate>, cq: Codec<Q>, ca: Codec<A>, scope: int,
      user: UserService<Q, A>, h: RpcHandler, id: nat, method_: string, m: Q)
    requires h.service in routes && h.service in routes[h.service].services ==>
               routes[h.service].services[h.service] == Adapter(cq, ca, scope, user)
    ensures var result := RpcCall(routes, cq, ca, h, id, method_, m);
            if h.service !in routes then result == Err(Status(Unavailable, "Service not found"))
            else if !Readiness.Admits(routes[h.service].state) then
              result == Err(Status(FailedPrecondition, "Isolate is not ready"))
            else if h.service !in routes[h.service].services then
              result == Err(Status(NotFound, "Service not supported by isolate"))
            else if method_ !in user.methods then
              result == Err(Status(Unimplemented, "Method is not implemented for this service"))
            else match cq.decode(cq.encode(m))
                 case None => result == Err(Status(InvalidArgument, "Unable to parse request"))
                 case Some(q) =>
                   match user.methods[method_](q)
                   case Err(status) => result == Err(status)
                   case Ok(a) =>
                     match ca.decode(ca.encode(a))
                     case None => result == Err(Status(Internal, "Failed to decode response"))
                     case Some(answer) => result == Ok(answer)
  {
    if h.service in routes && Readiness.Admits(routes[h.service].state) && h.service in routes[h.service].services {
      var isolate := routes[h.service];
      var service := isolate.services[h.service];
      var bytes := cq.encode(m);
      assert service.unary(method_, bytes) == AdaptUnary(cq, ca, scope, user, method_, bytes);
      var forwarded := IsolateRequest(Some(NoMetadata.(service := h.service, method_ := method_)), None, Some([bytes]));
      assert InvokeIsolate(isolate.services, isolate.state, forwarded) == StampItem(0, service.unary(method_, bytes));
    }
  }

  /** For every message and every id, the call returns what the method computes, success or
      error: the id check always passes and no codec error ever shows. When the call cannot
      get that far, the status says which of the four hurdles stopped it. */
  lemma UnaryIsTransparent<Q(!new), A(!new)>(routes: map<string, Isolate>, cq: Codec<Q>, ca: Codec<A>, scope: int,
      user: UserService<Q, A>, h: RpcHandler, id: nat, method_: string, m: Q)
    requires Faithful(cq) && Faithful(ca)
    requires h.service in routes && h.service in routes[h.service].services ==>
               routes[h.service].services[h.service] == Adapter(cq, ca, scope, user)
    ensures var result := RpcCall(routes, cq, ca, h, id, method_, m);
            if h.service !in routes then result.Err? && result.status.code == Unavailable
            else if !Readiness.Admits(routes[h.service].state) then
              result.Err? && result.status.code == FailedPrecondition
            else if h.service !in routes[h.service].services then result.Err? && result.status.code == NotFound
            else if method_ !in user.methods then result.Err? && result.status.code == Unimplemented
            else result == user.methods[method_](m)
  {
    UnaryOutcome(routes, cq, ca, scope, user, h, id, method_, m);
    assert cq.decode(cq.encode(m)) == Some(m);
    if method_ in user.methods && user.methods[method_](m).Ok? {
      assert ca.decode(ca.encode(user.methods[method_](m).value)) == Some(user.methods[method_](m).value);
    }
  }

  // ----- Streams -----

  /** What gRPC delivers of a response stream: the messages before the first error. */
  function Delivered<T>(items: seq<Result<T>>): (r: seq<T>)
    ensures |r| <= |items|
    ensures forall i | 0 <= i < |r| :: items[i] == Ok(r[i])
    ensures |r| < |items| ==> items[|r|].Err?
  {
    if items == [] || items[0].Err? then [] else [items[0].value] + Delivered(items[1..])
  }

  /** stream_isolate_rpc_call: the requests sent, and the reading of a response. */
  function StreamRequests<Q>(cq: Codec<Q>, h: RpcHandler, id: nat, method_: string, ms: seq<Q>): (rs: seq<EzRequest>)
    ensures |rs| == |ms|
    ensures forall i | 0 <= i < |ms| :: rs[i] == CreateRequest(h, id, method_, cq.encode(ms[i]))
  {
    Map(m => CreateRequest(h, id, method_, cq.encode(m)), ms)
  }

  function StreamAnswers<A>(ca: Codec<A>, rs: seq<EzResponse>): (items: seq<Result<A>>)
    ensures |items| == |rs|
    ensures forall i | 0 <= i < |rs| :: items[i] == DecodeResponse(ca, rs[i])
  {
    Map(r => DecodeResponse(ca, r), rs)
  }

  /** The isolate's response stream to what the bridge wrote to it. */
  function Served(isolate: Isolate, written: seq<IsolateRequest>): seq<Result<IsolateResponse>> {
    StreamInvoke(isolate.services, isolate.state, Map(r => Ok(r), written))
  }

  /** The bridge in a run that carried this stream: every request was read, no write failed,
      and the reader has read the whole response stream of the isolate. */
  ghost predicate Carried(routes: map<string, Isolate>, s: Bridge.State, requests: seq<EzRequest>, service: string) {
    && service in routes
    && s.flow.read == requests
    && s.tally.aborts == 0 && (s.up.Waiting? || s.up.Ended?) && !s.reader.Handing?
    && s.flow.got == Delivered(Served(routes[service], s.flow.written))
  }

  /** What reaches the enforcer and the isolate of each message sent: the client's id, domain,
      service and method, its local flag and the encoded message, both times; the scope gets
      as far as the enforcer. */
  lemma RequestsArrive<Q>(routes: map<string, Isolate>, cq: Codec<Q>, h: RpcHandler, id: nat, method_: string,
      ms: seq<Q>, schedule: seq<Bridge.Step>)
    requires Carried(routes, Bridge.Exec(Bridge.Init(routes.Keys), schedule),
                     StreamRequests(cq, h, id, method_, ms), h.service)
    ensures var flow := Bridge.Exec(Bridge.Init(routes.Keys), schedule).flow;
            && |flow.read| == |flow.written| == |ms|
            && forall i | 0 <= i < |ms| ::
                 && flow.read[i].iscope == Some([h.scope])
                 && flow.written[i].metadata == Some(Metadata(id, true, false, h.domain, h.service, method_, [], []))
                 && flow.written[i].input == Some([cq.encode(ms[i])])
                 && flow.written[i].iscope == None
  {
    Bridge.NothingWithheld(routes.Keys, schedule);
  }

  /** Such runs exist for every non-empty stream to a routed service. */
  lemma StreamCanBeCarried(routes: map<string, Isolate>, requests: seq<EzRequest>) returns (schedule: seq<Bridge.Step>)
    requires requests != [] && Bridge.Service(requests[0]) in routes
    ensures Carried(routes, Bridge.Exec(Bridge.Init(routes.Keys), schedule), requests, Bridge.Service(requests[0]))
  {
    var answers := Delivered(Served(routes[Bridge.Service(requests[0])], Map(ToIsolate, requests)));
    schedule := Bridge.AnyStreamCanPass(routes.Keys, requests, answers);
  }

  function AllOk<T>(xs: seq<T>): (items: seq<Result<T>>)
    ensures |items| == |xs| && forall i | 0 <= i < |xs| :: items[i] == Ok(xs[i])
  {
    Map(x => Ok(x), xs)
  }

  lemma {:induction false} DeliveredAlike<T, U>(xs: seq<Result<T>>, ys: seq<Result<U>>)
    requires |xs| == |ys| && forall i | 0 <= i < |xs| :: xs[i].Ok? <==> ys[i].Ok?
    ensures |Delivered(xs)| == |Delivered(ys)|
  {
    if xs == [] || xs[0].Err? {
    } else {
      assert ys[0].Ok?;
      DeliveredAlike(xs[1..], ys[1..]);
    }
  }

  /** How one item of a request stream looks to the service. */
  ghost predicate SeenAs<Q>(cq: Codec<Q>, item: Result<IsolateRequest>, seen: Result<Q>) {
    match item
    case Err(status) => seen == Err(status)
    case Ok(IsolateRequest(_, _, input)) =>
      if input == None || input == Some([]) then
        seen == Err(Status(InvalidArgument, "Missing datagram in request payload"))
      else match cq.decode(input.value[0])
           case None => seen == Err(Status(Internal, "Failed to decode request"))
           case Some(m) => seen == Ok(m)
  }

  /** How one answer of the service looks to the dispatcher. */
  predicate SentAs<A>(ca: Codec<A>, scope: int, answer: Result<A>, item: Result<IsolateResponse>) {
    match answer
    case Err(status) => item == Err(status)
    case Ok(a) => item == Ok(IsolateResponse(None, Some([scope]), Some([ca.encode(a)])))
  }

  /** For any codecs and any stream: the service sees every item, in order, as its message or
      the error that stands for it, and its answers go out in order; a method that does not
      exist is UNIMPLEMENTED. */
  lemma AdapterKeepsStreams<Q, A>(cq: Codec<Q>, ca: Codec<A>, scope: int, user: UserService<Q, A>, method_: string,
      items: seq<Result<IsolateRequest>>, seen: seq<Result<Q>>)
    requires |seen| == |items| && forall i | 0 <= i < |items| :: SeenAs(cq, items[i], seen[i])
    ensures var out := Adapter(cq, ca, scope, user).streaming(method_, items);
            if method_ !in user.streams then
              out == Err(Status(Unimplemented, "Method is not implemented for this service"))
            else match user.streams[method_](seen)
                 case Err(status) => out == Err(status)
                 case Ok(answers) =>
                   && out.Ok? && |out.value| == |answers|
                   && forall i | 0 <= i < |answers| :: SentAs(ca, scope, answers[i], out.value[i])
  {
    var messages := Map(item => FromRequest(cq, item), items);
    forall i | 0 <= i < |items| ensures messages[i] == seen[i] {
      assert SeenAs(cq, items[i], seen[i]);
    }
    assert messages == seen;
  }

  /** What the dispatcher sends for one answer of the service. */
  function Stamped<A>(ca: Codec<A>, scope: int, id: nat, answer: Result<A>): Result<IsolateResponse> {
    match answer
    case Err(status) => Err(status)
    case Ok(a) =>
      Ok(IsolateResponse(Some(Metadata(id, false, true, "", "", "", [], [])), Some([scope]), Some([ca.encode(a)])))
  }

  /** The dispatcher hands the service its own messages; its answers go back in order, each with
      the id of the stream, the local flag, the service's scope and the encoded message. */
  lemma ServedItems<Q(!new), A(!new)>(isolate: Isolate, cq: Codec<Q>, ca: Codec<A>, scope: int,
      user: UserService<Q, A>, h: RpcHandler, id: nat, method_: string, ms: seq<Q>, written: seq<IsolateRequest>)
    requires Faithful(cq) && ms != []
    requires written == Map(ToIsolate, StreamRequests(cq, h, id, method_, ms))
    requires Readiness.Admits(isolate.state)
    requires h.service in isolate.services && isolate.services[h.service] == Adapter(cq, ca, scope, user)
    requires method_ in user.streams
    ensures var answers := user.streams[method_](AllOk(ms));
            var items := Served(isolate, written);
            if answers.Err? then items == [Err(answers.status)]
            else |items| == |answers.value|
                 && forall i | 0 <= i < |items| :: items[i] == Stamped(ca, scope, id, answers.value[i])
  {
    var requests := Map(r => Ok(r), written);
    forall i | 0 <= i < |requests| ensures SeenAs(cq, requests[i], AllOk(ms)[i]) {
      assert requests[i] == Ok(ToIsolate(CreateRequest(h, id, method_, cq.encode(ms[i]))));
      assert cq.decode(cq.encode(ms[i])) == Some(ms[i]);
    }
    AdapterKeepsStreams(cq, ca, scope, user, method_, requests, AllOk(ms));
    assert requests[0].value.metadata.value.service == h.service;
    StreamOutput(isolate.services, isolate.state, requests);
  }

  /** For every non-empty message sequence and every run of the bridge that carried it, the
      client reads exactly the answers the service gave before its first error, in order; a
      stream the service refuses outright arrives as an empty one. */
  lemma StreamIsTransparent<Q(!new), A(!new)>(routes: map<string, Isolate>, cq: Codec<Q>, ca: Codec<A>, scope: int,
      user: UserService<Q, A>, h: RpcHandler, id: nat, method_: string, ms: seq<Q>, schedule: seq<Bridge.Step>)
    requires Faithful(cq) && Faithful(ca) && ms != []
    requires Carried(routes, Bridge.Exec(Bridge.Init(routes.Keys), schedule),
                     StreamRequests(cq, h, id, method_, ms), h.service)
    requires Readiness.Admits(routes[h.service].state)
    requires h.service in routes[h.service].services
    requires routes[h.service].services[h.service] == Adapter(cq, ca, scope, user)
    requires method_ in user.streams
    ensures var s := Bridge.Exec(Bridge.Init(routes.Keys), schedule);
            var answers := user.streams[method_](AllOk(ms));
            StreamAnswers(ca, s.flow.handed) == if answers.Ok? then AllOk(Delivered(answers.value)) else []
  {
    var s := Bridge.Exec(Bridge.Init(routes.Keys), schedule);
    var answers := user.streams[method_](AllOk(ms));
    Bridge.NothingWithheld(routes.Keys, schedule);
    ServedItems(routes[h.service], cq, ca, scope, user, h, id, method_, ms, s.flow.written);
    var items := Served(routes[h.service], s.flow.written);
    if answers.Ok? {
      DeliveredAlike(items, answers.value);
      var read := StreamAnswers(ca, s.flow.handed);
      forall i | 0 <= i < |read| ensures read[i] == Ok(Delivered(answers.value)[i]) {
        var a := Delivered(answers.value)[i];
        assert items[i] == Stamped(ca, scope, id, Ok(a));
        assert s.flow.handed[i].payload == Some([ca.encode(a)]);
        assert ca.decode(ca.encode(a)) == Some(a);
      }
    }
  }

  /** The service handles the streaming method element by element. */
  ghost predicate Elementwise<Q(!new), A>(user: UserService<Q, A>, method_: string, f: Q -> Result<A>) {
    && method_ in user.streams
    && forall ms: seq<Q> ::
         var answers := user.streams[method_](AllOk(ms));
         answers.Ok? && |answers.value| == |ms| && forall i | 0 <= i < |ms| :: answers.value[i] == f(ms[i])
  }

  function Results<Q, A>(f: Q -> Result<A>, ms: seq<Q>): (rs: seq<Result<A>>)
    ensures |rs| == |ms| && forall i | 0 <= i < |ms| :: rs[i] == f(ms[i])
  {
    Map(f, ms)
  }

  /** A stream handled element by element comes back as the elementwise results, in order,
      if and only if no element fails: the bridge reports a failed stream as a finished one,
      so from the first error on the client sees nothing. */
  lemma ElementwiseIff<Q(!new), A(!new)>(routes: map<string, Isolate>, cq: Codec<Q>, ca: Codec<A>, scope: int,
      user: UserService<Q, A>, h: RpcHandler, id: nat, method_: string, f: Q -> Result<A>, ms: seq<Q>,
      schedule: seq<Bridge.Step>)
    requires Faithful(cq) && Faithful(ca) && ms != []
    requires Carried(routes, Bridge.Exec(Bridge.Init(routes.Keys), schedule),
                     StreamRequests(cq, h, id, method_, ms), h.service)
    requires Readiness.Admits(routes[h.service].state)
    requires h.service in routes[h.service].services
    requires routes[h.service].services[h.service] == Adapter(cq, ca, scope, user)
    requires Elementwise(user, method_, f)
    ensures var handed := Bridge.Exec(Bridge.Init(routes.Keys), schedule).flow.handed;
            StreamAnswers(ca, handed) == Results(f, ms) <==> forall i | 0 <= i < |ms| :: f(ms[i]).Ok?
  {
    var answers := user.streams[method_](AllOk(ms)).value;
    assert answers == Results(f, ms);
    StreamIsTransparent(routes, cq, ca, scope, user, h, id, method_, ms, schedule);
    var got := AllOk(Delivered(answers));
    if forall i | 0 <= i < |ms| :: f(ms[i]).Ok? {
      assert |Delivered(answers)| == |answers|;
      assert forall i | 0 <= i < |ms| :: got[i] == answers[i];
    } else {
      var i :| 0 <= i < |ms| && f(ms[i]).Err?;
      assert |got| <= i;
    }
  }

  /** An isolate that is not ready, or does not offer the service, answers a carried stream
      with an error that the client never sees: its stream is empty and ends normally. */
  lemma RefusedStreamLooksEmpty<Q(!new)>(routes: map<string, Isolate>, cq: Codec<Q>, h: RpcHandler, id: nat,
      method_: string, ms: seq<Q>, schedule: seq<Bridge.Step>)
    requires Carried(routes, Bridge.Exec(Bridge.Init(routes.Keys), schedule),
                     StreamRequests(cq, h, id, method_, ms), h.service)
    requires !Readiness.Admits(routes[h.service].state) || h.service !in routes[h.service].services
    ensures Bridge.Exec(Bridge.Init(routes.Keys), schedule).flow.handed == []
  {
    var s := Bridge.Exec(Bridge.Init(routes.Keys), schedule);
    var isolate := routes[h.service];
    Bridge.NothingWithheld(routes.Keys, schedule);
    StreamOutput(isolate.services, isolate.state, Map(r => Ok(r), s.flow.written));
    if ms != [] {
      assert s.flow.written[0] == ToIsolate(CreateRequest(h, id, method_, cq.encode(ms[0])));
    }
  }
}
