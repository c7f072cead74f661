/** The hook between asio and WinHTTP: one state word, one result slot and one
    manual-reset event, shared by the thread that issues a call and the WinHTTP
    thread that runs the status callback. */
module WinHttpContext {
  import opened Basics
  import opened DynamicBuffers

  datatype CtxState =
    | Idle | SendRequest | HeadersAvailable | DataAvailable | ReadComplete | WriteComplete | Error

  /** The WinHTTP calls the library issues. */
  datatype Api =
    | Send
    | ReceiveResponse
    | QueryData
    | ReadData(count: nat)
    | WriteData(count: nat)

  /** The API_... code an error notice carries. */
  datatype ApiId = ApiSend | ApiReceive | ApiQuery | ApiRead | ApiWrite

  /** A status callback with the information that comes with it. */
  datatype Notice =
    | SendRequestComplete
    | HeadersReady
    | DataReady(infoLength: nat, value: nat)
    | ReadDone(infoLength: nat)
    | WriteDone(infoLength: nat, value: nat)
    | RequestError(result: ApiId, error: ErrorCode)
    | Unhandled

  const SIZEOF_DWORD: nat := 4

  function StateFor(api: Api): CtxState {
    match api
    case Send => SendRequest
    case ReceiveResponse => HeadersAvailable
    case QueryData => DataAvailable
    case ReadData(_) => ReadComplete
    case WriteData(_) => WriteComplete
  }

  function IdOf(api: Api): ApiId {
    match api
    case Send => ApiSend
    case ReceiveResponse => ApiReceive
    case QueryData => ApiQuery
    case ReadData(_) => ApiRead
    case WriteData(_) => ApiWrite
  }

  /** The value of the shared context, with its single-word writes. */
  datatype Context = Context(state: CtxState, signaled: bool, ec: ErrorCode, len: nat) {

    function SetState(s: CtxState): Context { this.(state := s) }

    function ResetEvent(): Context { this.(signaled := false) }

    function SetEvent(): Context { this.(signaled := true) }

    function WriteEc(e: ErrorCode): Context { this.(ec := e) }

    function WriteLen(n: nat): Context { this.(len := n) }

    function StepReset(): Context { ResetEvent().WriteEc(0).WriteLen(0) }

    function StepComplete(c: Completion): Context { WriteEc(c.ec).WriteLen(c.len).SetEvent() }
  }

  /** Every assertion the status callback makes before it completes the step. */
  predicate CallbackAsserts(state: CtxState, n: Notice) {
    match n
    case SendRequestComplete => state == SendRequest
    case HeadersReady => state == HeadersAvailable
    case DataReady(info, _) => info == SIZEOF_DWORD && state == DataAvailable
    case ReadDone(_) => state == ReadComplete
    case WriteDone(info, _) => info == SIZEOF_DWORD && state == WriteComplete
    case RequestError(result, error) =>
      && error != 0
      && (match state
          case DataAvailable => result == ApiQuery
          case HeadersAvailable => result == ApiReceive
          case ReadComplete => result == ApiRead
          case SendRequest => result == ApiSend
          case WriteComplete => result == ApiWrite
          case _ => false)
    case Unhandled => false
  }

  /** The result the callback stores for a notice. */
  function ResultOf(n: Notice): Completion {
    match n
    case DataReady(_, v) => Completion(0, v)
    case ReadDone(info) => Completion(0, info)
    case WriteDone(_, v) => Completion(0, v)
    case RequestError(_, e) => Completion(e, 0)
    case _ => Completion(0, 0)
  }

  /** The environment: the notices, and bytes, with which WinHTTP may answer an
      accepted call. A read never delivers more than was asked for, a length is
      a DWORD, and an error notice names the call and a non-zero error. */
  predicate Matches(api: Api, n: Notice, data: seq<byte>) {
    if n.RequestError? then n.result == IdOf(api) && n.error != 0 && data == []
    else
      match api
      case Send => n == SendRequestComplete && data == []
      case ReceiveResponse => n == HeadersReady && data == []
      case QueryData => n.DataReady? && n.infoLength == SIZEOF_DWORD && n.value < DWORD_RANGE && data == []
      case ReadData(k) => n == ReadDone(|data|) && |data| <= k
      case WriteData(k) => n.WriteDone? && n.infoLength == SIZEOF_DWORD && n.value <= k && data == []
  }

  /** A matching notice meets every assertion of the callback in exactly one
      state of the context, the one its initiator sets. */
  lemma MatchingNoticeAsserts(api: Api, n: Notice, data: seq<byte>, state: CtxState)
    requires Matches(api, n, data)
    ensures CallbackAsserts(state, n) <==> state == StateFor(api)
  {
    match api
    case Send =>
    case ReceiveResponse =>
    case QueryData =>
    case ReadData(_) =>
    case WriteData(_) =>
  }

  /** What became of a call by the time the API function returns: refused with
      an error, still pending, or already answered from inside the call. */
  datatype Reply = Refused(error: ErrorCode) | Pending | Inline(notice: Notice)

  function Initiated(c: Context, api: Api, reply: Reply): Context {
    var armed := c.SetState(StateFor(api)).StepReset();
    match reply
    case Refused(e) => armed.SetState(Error).StepComplete(Completion(e, 0))
    case Pending => armed
    case Inline(n) => armed.StepComplete(ResultOf(n))
  }

  /** The completion a wait on the event hands over: send and receive use the
      operation without a length. */
  function HandedOver(api: Api, c: Context): Completion {
    Completion(c.ec, if api.Send? || api.ReceiveResponse? then 0 else c.len)
  }

  class RequestContext {
    var state: CtxState
    var signaled: bool
    var stepEc: ErrorCode
    var stepLen: nat

    function View(): Context
      reads this
    {
      Context(state, signaled, stepEc, stepLen)
    }

    constructor ()
      ensures View() == Context(Idle, false, 0, 0)
    {
      state := Idle;
      signaled := false;
      stepEc := 0;
      stepLen := 0;
    }

    method SetState(s: CtxState)
      modifies this
      ensures View() == old(View()).SetState(s)
    {
      state := s;
    }

    method StepComplete(ec: ErrorCode, len: nat)
      modifies this
      ensures View() == old(View()).StepComplete(Completion(ec, len))
    {
      stepEc := ec;
      stepLen := len;
      signaled := true;
    }

    method StepReset()
      modifies this
      ensures View() == old(View()).StepReset()
    {
      signaled := false;
      stepEc := 0;
      stepLen := 0;
    }

    /** The async_* initiators up to the registration of the wait. */
    method Initiate(api: Api, reply: Reply)
      requires reply.Inline? ==> CallbackAsserts(StateFor(api), reply.notice)
      modifies this
      ensures View() == Initiated(old(View()), api, reply)
      ensures match reply
              case Refused(e) => View() == Context(Error, true, e, 0)
              case Pending => View() == Context(StateFor(api), false, 0, 0)
              case Inline(_) => state == StateFor(api) && signaled
    {
      SetState(StateFor(api));
      StepReset();
      if reply.Inline? {
        StatusCallback(this, reply.notice);
      }
      if reply.Refused? {
        SetState(Error);
        StepComplete(reply.error, 0);
      }
    }
  }

  /** The status callback. Its assertions are the caller's obligation. */
  method StatusCallback(context: RequestContext?, n: Notice)
    requires context != null ==> CallbackAsserts(context.state, n)
    modifies context
    ensures context != null ==> context.View() == old(context.View()).StepComplete(ResultOf(n))
    ensures context != null ==>
      && context.signaled && context.state == old(context.state)
      && match n
         case DataReady(_, value) => context.stepEc == 0 && context.stepLen == value
         case ReadDone(info) => context.stepEc == 0 && context.stepLen == info
         case WriteDone(_, value) => context.stepEc == 0 && context.stepLen == value
         case RequestError(_, error) => context.stepEc == error && context.stepLen == 0
         case _ => context.stepEc == 0 && context.stepLen == 0
  {
    if context == null {
      return;
    }
    match n {
      case DataReady(_, value) => context.StepComplete(0, value);
      case HeadersReady => context.StepComplete(0, 0);
      case ReadDone(info) => context.StepComplete(0, info);
      case SendRequestComplete => context.StepComplete(0, 0);
      case WriteDone(_, value) => context.StepComplete(0, value);
      case RequestError(_, error) => context.StepComplete(error, 0);
      case Unhandled => assert false;
    }
  }
}
