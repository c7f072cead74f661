/** The http.sys receive operations: a request head whose buffer grows until it
    fits, and a body collected in pieces until the end of file. */
module HttpSysReceive {
  import opened Basics
  import opened DynamicBuffers

  const NO_ERROR: ErrorCode := 0
  const ERROR_HANDLE_EOF: ErrorCode := 38
  const ERROR_MORE_DATA: ErrorCode := 234

  const ID_SIZE: nat := 8

  /** Room asked for beside the request structure in the first attempt. */
  const EXTRA_SIZE: nat := 1024

  /** The size of the request structure and the place of its request id. */
  datatype Layout = Layout(structSize: nat, idOffset: nat) {
    predicate Valid() {
      idOffset + ID_SIZE <= structSize < USHORT_RANGE
    }
  }

  datatype RxState = RxIdle | Receiving

  /** Ask for a request head, ask for body bytes, or complete. violated: the
      growth assertion has failed. */
  datatype Action =
    | AskRequest(id: seq<byte>, size: nat, violated: bool)
    | AskBody(size: nat)
    | Complete(result: Completion)

  /** An operation, its buffer, and what it did last. */
  datatype Rx = Rx(st: RxState, buf: Storage, last: Action)

  /** Whether a completion is answered by another receive, and if not, with
      success or not. */
  datatype Verdict = Retry | Finished(ok: bool)

  function RequestVerdict(ec: ErrorCode): Verdict {
    if ec == ERROR_MORE_DATA then Retry else Finished(ec == NO_ERROR || ec == ERROR_HANDLE_EOF)
  }

  function BodyVerdict(ec: ErrorCode): Verdict {
    if ec == NO_ERROR then Retry else Finished(ec == ERROR_HANDLE_EOF)
  }

  const NULL_ID: seq<byte> := [0, 0, 0, 0, 0, 0, 0, 0]

  /** The bytes from pos on, or nothing where the vector is too short. */
  function Slice(v: seq<byte>, pos: nat, n: nat): seq<byte> {
    if pos + n <= |v| then v[pos..pos + n] else []
  }

  function Overwritten(v: seq<byte>, pos: nat, d: seq<byte>): (r: seq<byte>)
    ensures |r| == |v|
  {
    if pos + |d| <= |v| then v[..pos] + d + v[pos + |d|..] else v
  }

  /** recieve: prepare, null the id the first time, ask with the id found. */
  function Ask(lay: Layout, buf: Storage, len: nat, init: bool): (Storage, seq<byte>)
    requires buf.Valid()
  {
    var b := buf.Prepare(len);
    var pos := buf.size + lay.idOffset;
    var b' := if init then b.(vec := Overwritten(b.vec, pos, NULL_ID)) else b;
    (b', Slice(b'.vec, pos, ID_SIZE))
  }

  /** async_receive_op. */
  function RequestStep(lay: Layout, st: RxState, buf: Storage, c: Completion): (r: (RxState, Storage, Action))
    requires buf.Valid()
    ensures r.1.Valid()
  {
    match st
    case RxIdle =>
      if c.ec != 0 then (st, buf, Complete(c))
      else
        var (b, id) := Ask(lay, buf, lay.structSize + EXTRA_SIZE, true);
        (Receiving, b, AskRequest(id, (lay.structSize + EXTRA_SIZE) % DWORD_RANGE, false))
    case Receiving =>
      if c.ec == ERROR_HANDLE_EOF then (st, buf, Complete(Completion(0, c.len)))
      else if c.ec == ERROR_MORE_DATA then
        var (b, id) := Ask(lay, buf, c.len, false);
        (st, b, AskRequest(id, c.len % DWORD_RANGE, c.len <= buf.size))
      else if c.ec != 0 then (st, buf, Complete(c))
      else (st, buf.Commit(c.len), Complete(c))
  }

  /** async_receive_body_op. */
  function BodyStep(hint: nat, st: RxState, buf: Storage, c: Completion): (r: (RxState, Storage, Action))
    requires buf.Valid()
    ensures r.1.Valid()
  {
    match st
    case RxIdle =>
      if c.ec != 0 then (st, buf, Complete(c))
      else (Receiving, buf.Prepare(hint), AskBody(hint % DWORD_RANGE))
    case Receiving =>
      if c.ec == ERROR_HANDLE_EOF then (st, buf.Commit(c.len), Complete(Completion(0, c.len)))
      else if c.ec != 0 then (st, buf, Complete(c))
      else
        // after a short answer one byte is enough to meet the end of file
        var next := if c.len < hint then 1 else hint;
        (st, buf.Commit(c.len).Prepare(next), AskBody(next % DWORD_RANGE))
  }

  /** The verdicts are what the steps do with a completion. */
  lemma VerdictsDecide(lay: Layout, hint: nat, buf: Storage, c: Completion)
    requires buf.Valid()
    ensures var a := RequestStep(lay, Receiving, buf, c).2;
      match RequestVerdict(c.ec)
      case Retry => a.AskRequest?
      case Finished(ok) => a.Complete? && (a.result.ec == 0 <==> ok)
    ensures var a := BodyStep(hint, Receiving, buf, c).2;
      match BodyVerdict(c.ec)
      case Retry => a.AskBody?
      case Finished(ok) => a.Complete? && (a.result.ec == 0 <==> ok)
    ensures RequestVerdict(c.ec) == if c.ec == 234 then Retry else Finished(c.ec == 0 || c.ec == 38)
    ensures BodyVerdict(c.ec) == if c.ec == 0 then Retry else Finished(c.ec == 38)
    ensures c.ec != 0 ==>
      && RequestStep(lay, RxIdle, buf, c) == (RxIdle, buf, Complete(c))
      && BodyStep(hint, RxIdle, buf, c) == (RxIdle, buf, Complete(c))
  {
  }

  class ReceiveOp {
    const layout: Layout
    const buff: DynamicBuffer
    var state: RxState

    constructor (layout: Layout, buff: DynamicBuffer)
      ensures this.layout == layout && this.buff == buff && state == RxIdle
    {
      this.layout := layout;
      this.buff := buff;
      state := RxIdle;
    }

    method Resume(ec: ErrorCode, len: nat) returns (a: Action)
      requires buff.Valid()
      modifies this, buff
      ensures buff.Valid()
      ensures (state, buff.View(), a) == old(RequestStep(layout, state, buff.View(), Completion(ec, len)))
    {
      match state {
        case RxIdle =>
          if ec != 0 {
            a := Complete(Completion(ec, len));
          } else {
            state := Receiving;
            var id := Receive(layout.structSize + EXTRA_SIZE, true);
            a := AskRequest(id, (layout.structSize + EXTRA_SIZE) % DWORD_RANGE, false);
          }
        case Receiving =>
          if ec != 0 {
            if ec == ERROR_HANDLE_EOF {
              a := Complete(Completion(0, len));
            } else if ec == ERROR_MORE_DATA {
              var grows := len > buff.size;
              var id := Receive(len, false);
              a := AskRequest(id, len % DWORD_RANGE, !grows);
            } else {
              a := Complete(Completion(ec, len));
            }
          } else {
            buff.Commit(len);
            a := Complete(Completion(ec, len));
          }
      }
    }

    method Receive(len: nat, init: bool) returns (id: seq<byte>)
      requires buff.Valid()
      modifies buff
      ensures buff.Valid()
      ensures (buff.View(), id) == old(Ask(layout, buff.View(), len, init))
    {
      buff.Prepare(len);
      var pos := buff.size + layout.idOffset;
      if init {
        buff.vec := Overwritten(buff.vec, pos, NULL_ID);
      }
      id := Slice(buff.vec, pos, ID_SIZE);
    }
  }

  class ReceiveBodyOp {
    const hint: nat
    const buff: DynamicBuffer
    var state: RxState

    constructor (hint: nat, buff: DynamicBuffer)
      ensures this.hint == hint && this.buff == buff && state == RxIdle
    {
      this.hint := hint;
      this.buff := buff;
      state := RxIdle;
    }

    method Resume(ec: ErrorCode, len: nat) returns (a: Action)
      requires buff.Valid()
      modifies this, buff
      ensures buff.Valid()
      ensures (state, buff.View(), a) == old(BodyStep(hint, state, buff.View(), Completion(ec, len)))
    {
      match state {
        case RxIdle =>
          if ec != 0 {
            a := Complete(Completion(ec, len));
          } else {
            state := Receiving;
            buff.Prepare(hint);
            a := AskBody(hint % DWORD_RANGE);
          }
        case Receiving =>
          if ec != 0 {
            if ec == ERROR_HANDLE_EOF {
              buff.Commit(len);
              a := Complete(Completion(0, len));
            } else {
              a := Complete(Completion(ec, len));
            }
          } else {
            buff.Commit(len);
            if len < hint {
              buff.Prepare(1);
              a := AskBody(1);
            } else {
              buff.Prepare(hint);
              a := AskBody(hint % DWORD_RANGE);
            }
          }
      }
    }
  }
}
