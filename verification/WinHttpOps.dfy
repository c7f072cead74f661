/** The composed WinHTTP operations: resumable machines that issue their next
    call only from the completion of the previous one. */
module WinHttpOps {
  import opened Basics
  import opened DynamicBuffers
  import opened WinHttpContext

  /** What an operation does when it is resumed. */
  datatype Action =
    | Issue(api: Api)
    | Complete(result: Completion)
    | AssertFailed

  datatype BodyState = BodyIdle | BodyQuery | BodyRead | BodyDone

  datatype ExecState = ExecIdle | ExecSend | ExecReceive | ExecDone

  datatype SomeState = SomeIdle | SomeQuery | SomeRead | SomeDone

  datatype WriteState = WriteIdle | Writing | Written

  /** A handler waiting for the completion of a WinHTTP call. While async_exec
      reads the body its own handler sits inside the body operation's. */
  datatype Client =
    | Exec(exec: ExecState, body: Option<BodyState>)
    | Body(reader: BodyState)
    | ReadSome(some: SomeState, room: nat)
    | WriteSome(write: WriteState, total: nat)

  /** async_read_body_op, with the buffer it commits to. */
  function BodyStep(st: BodyState, buf: Storage, c: Completion): (BodyState, Storage, Action)
    requires buf.Valid()
  {
    if c.ec != 0 then (st, buf, Complete(c))
    else
      match st
      case BodyIdle => (BodyQuery, buf, Issue(QueryData))
      // an answer of 0 is followed by a read of 0 bytes, which fetches trailers
      case BodyQuery => (BodyRead, buf.Prepare(c.len + 1), Issue(ReadData(c.len % DWORD_RANGE)))
      case BodyRead =>
        if c.len != 0 then (BodyQuery, buf.Commit(c.len), Issue(QueryData))
        else (BodyDone, buf, Complete(Completion(0, 0)))
      case BodyDone => (st, buf, AssertFailed)
  }

  /** async_exec_op without the body operation it starts. */
  function ExecStep(st: ExecState, c: Completion): (ExecState, Action)
    requires st != ExecReceive || c.ec != 0
  {
    if c.ec != 0 then (st, Complete(c))
    else
      match st
      case ExecIdle => (ExecSend, Issue(Send))
      case ExecSend => (ExecReceive, Issue(ReceiveResponse))
      case ExecDone => (st, Complete(Completion(0, 0)))
  }

  function SomeStep(st: SomeState, room: nat, c: Completion): (SomeState, Action) {
    if c.ec != 0 then (st, Complete(c))
    else
      match st
      case SomeIdle => (SomeQuery, Issue(QueryData))
      case SomeQuery => (SomeRead, Issue(ReadData(Min(c.len, room) % DWORD_RANGE)))
      case SomeRead => (SomeDone, Complete(c))
      case SomeDone => (st, AssertFailed)
  }

  function WriteStep(st: WriteState, total: nat, c: Completion): (WriteState, Action) {
    if c.ec != 0 then (st, Complete(c))
    else
      match st
      case WriteIdle => (Writing, Issue(WriteData(total % DWORD_RANGE)))
      case Writing => (Written, Complete(c))
      case Written => (st, AssertFailed)
  }

  /** Resumes whichever handler is waiting. */
  function Resume(cl: Client, buf: Storage, c: Completion): (r: (Client, Storage, Action))
    requires buf.Valid()
    ensures r.1.Valid()
  {
    match cl
    case Exec(st, Some(b)) =>
      var (b', buf', a) := BodyStep(b, buf, c);
      if a.Complete? && st == ExecDone then
        // the body operation completes into async_exec's handler
        var (st', a') := ExecStep(st, a.result);
        (Exec(st', None), buf', a')
      else (Exec(st, Some(b')), buf', a)
    case Exec(st, None) =>
      if st == ExecReceive && c.ec == 0 then
        var (b, buf', a) := BodyStep(BodyIdle, buf, Completion(0, 0));
        (Exec(ExecDone, Some(b)), buf', a)
      else
        var (st', a) := ExecStep(st, c);
        (Exec(st', None), buf, a)
    case Body(b) =>
      var (b', buf', a) := BodyStep(b, buf, c);
      (Body(b'), buf', a)
    case ReadSome(s, room) =>
      var (s', a) := SomeStep(s, room, c);
      (ReadSome(s', room), buf, a)
    case WriteSome(w, total) =>
      var (w', a) := WriteStep(w, total, c);
      (WriteSome(w', total), buf, a)
  }

  class ReadBodyOp {
    const buff: DynamicBuffer
    var state: BodyState

    constructor (buff: DynamicBuffer)
      ensures this.buff == buff && state == BodyIdle
    {
      this.buff := buff;
      state := BodyIdle;
    }

    method Resume(ec: ErrorCode, len: nat) returns (a: Action)
      requires buff.Valid()
      modifies this, buff
      ensures (state, buff.View(), a) == old(BodyStep(state, buff.View(), Completion(ec, len)))
      ensures buff.Valid()
    {
      if ec != 0 {
        return Complete(Completion(ec, len));
      }
      match state {
        case BodyIdle =>
          state := BodyQuery;
          a := Issue(QueryData);
        case BodyQuery =>
          state := BodyRead;
          buff.Prepare(len + 1);
          a := Issue(ReadData(len % DWORD_RANGE));
        case BodyRead =>
          if len != 0 {
            buff.Commit(len);
            state := BodyQuery;
            a := Issue(QueryData);
          } else {
            state := BodyDone;
            a := Complete(Completion(ec, 0));
          }
        case BodyDone =>
          a := AssertFailed;
      }
    }
  }

  class ExecOp {
    const buff: DynamicBuffer
    var state: ExecState
    var body: ReadBodyOp?

    ghost predicate Valid()
      reads this, body, buff
    {
      buff.Valid() && (body != null ==> body.buff == buff)
    }

    function View(): Client
      reads this, body
    {
      Exec(state, if body == null then None else Some(body.state))
    }

    constructor (buff: DynamicBuffer)
      requires buff.Valid()
      ensures this.buff == buff && Valid() && View() == Exec(ExecIdle, None) && body == null
    {
      this.buff := buff;
      state := ExecIdle;
      body := null;
    }

    /** The completion of a WinHTTP call reaches the handler that waits for it. */
    method Deliver(ec: ErrorCode, len: nat) returns (a: Action)
      requires Valid()
      requires body != null ==> state == ExecDone
      modifies this, buff, body
      ensures Valid() && (body == null || body == old(body) || fresh(body))
      ensures (View(), buff.View(), a) == old(Resume(View(), buff.View(), Completion(ec, len)))
    {
      if body != null {
        a := body.Resume(ec, len);
        if a.Complete? {
          body := null;
          a := Step(a.result.ec, a.result.len);
        }
      } else {
        a := Step(ec, len);
      }
    }

    /** async_exec_op's own step; the third one starts the body operation. */
    method Step(ec: ErrorCode, len: nat) returns (a: Action)
      requires Valid() && body == null
      modifies this, buff
      ensures Valid() && (body == null || fresh(body))
      ensures (View(), buff.View(), a) == old(Resume(View(), buff.View(), Completion(ec, len)))
    {
      if ec != 0 {
        return Complete(Completion(ec, len));
      }
      match state {
        case ExecIdle =>
          state := ExecSend;
          a := Issue(Send);
        case ExecSend =>
          state := ExecReceive;
          a := Issue(ReceiveResponse);
        case ExecReceive =>
          state := ExecDone;
          body := new ReadBodyOp(buff);
          a := body.Resume(0, 0);
        case ExecDone =>
          a := Complete(Completion(ec, 0));
      }
    }
  }

  class ReadSomeOp {
    const room: nat
    var state: SomeState

    constructor (room: nat)
      ensures this.room == room && state == SomeIdle
    {
      this.room := room;
      state := SomeIdle;
    }

    method Resume(ec: ErrorCode, len: nat) returns (a: Action)
      modifies this
      ensures (state, a) == old(SomeStep(state, room, Completion(ec, len)))
    {
      if ec != 0 {
        return Complete(Completion(ec, len));
      }
      match state {
        case SomeIdle =>
          state := SomeQuery;
          a := Issue(QueryData);
        case SomeQuery =>
          state := SomeRead;
          a := Issue(ReadData(Min(len, room) % DWORD_RANGE));
        case SomeRead =>
          state := SomeDone;
          a := Complete(Completion(ec, len));
        case SomeDone =>
          a := AssertFailed;
      }
    }
  }

  class WriteSomeOp {
    const total: nat
    var state: WriteState

    constructor (total: nat)
      ensures this.total == total && state == WriteIdle
    {
      this.total := total;
      state := WriteIdle;
    }

    method Resume(ec: ErrorCode, len: nat) returns (a: Action)
      modifies this
      ensures (state, a) == old(WriteStep(state, total, Completion(ec, len)))
    {
      if ec != 0 {
        return Complete(Completion(ec, len));
      }
      match state {
        case WriteIdle =>
          state := Writing;
          a := Issue(WriteData(total % DWORD_RANGE));
        case Writing =>
          state := Written;
          a := Complete(Completion(ec, len));
        case Written =>
          a := AssertFailed;
      }
    }
  }
}
