/** The envelopes that the bridges exchange, and the conversions the mock enforcer makes
    between them. A protobuf sub-message that may be unset is an Option; reading an unset
    one in C++ gives the default value. */
module Messages {

  datatype Option<+T> = None | Some(value: T) {
    function GetOr(default: T): T {
      match this
      case Some(v) => v
      case None => default
    }
  }

  /** The error codes of a failed call; success is a Result of its own. */
  datatype Code =
    | InvalidArgument | FailedPrecondition | NotFound | Unknown | Unavailable | Internal
    | Unimplemented | Other(number: int)

  datatype Status = Status(code: Code, message: string)

  datatype Result<+T> = Ok(value: T) | Err(status: Status)

  type Bytes = seq<bv8>

  datatype Metadata = Metadata(
    ipcMessageId: nat,
    requesterIsLocal: bool,
    responderIsLocal: bool,
    domain: string,
    service: string,
    method_: string,
    sharedMemoryHandles: seq<string>,
    fileshareHandles: seq<string>)

  const NoMetadata := Metadata(0, false, false, "", "", "", [], [])

  datatype EzRequest = EzRequest(metadata: Option<Metadata>, iscope: Option<seq<int>>, payload: Option<seq<Bytes>>)
  datatype EzResponse = EzResponse(metadata: Option<Metadata>, iscope: Option<seq<int>>, payload: Option<seq<Bytes>>)
  datatype IsolateRequest =
    IsolateRequest(metadata: Option<Metadata>, iscope: Option<seq<int>>, input: Option<seq<Bytes>>)
  datatype IsolateResponse =
    IsolateResponse(metadata: Option<Metadata>, iscope: Option<seq<int>>, output: Option<seq<Bytes>>)

  /** StreamBridge towards the isolate: metadata and payload are copied, the scope is not. */
  function ToIsolate(r: EzRequest): IsolateRequest {
    IsolateRequest(Some(r.metadata.GetOr(NoMetadata)), None, Some(r.payload.GetOr([])))
  }

  /** StreamBridge towards the caller. */
  function FromIsolate(r: IsolateResponse): EzResponse {
    EzResponse(Some(r.metadata.GetOr(NoMetadata)), None, Some(r.output.GetOr([])))
  }
}
