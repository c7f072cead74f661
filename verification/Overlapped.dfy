/** Who owns an overlapped handler. Every initiator hands its handler to an
    overlapped pointer, makes the system call, and then either releases it, for
    the kernel's completion packet to find, or completes it itself. */
module Overlapped {
  import opened Basics

  const ERROR_PIPE_CONNECTED: ErrorCode := 535
  const ERROR_INSUFFICIENT_BUFFER: ErrorCode := 122

  datatype Kind = ReceiveRequest | ReceiveBody | SendResponse | PipeConnect

  /** What the system call returned. For a pipe, NoError stands for a non-zero
      return, with the last error in it. */
  datatype ApiResult =
    | NoError(lastError: ErrorCode)
    | IoPending
    | PipeConnected
    | Failure(error: ErrorCode)

  /** The environment: http.sys posts a packet when it returns NO_ERROR as well
      as when the operation is pending; a pipe posts one only when pending. */
  predicate Promised(kind: Kind, r: ApiResult) {
    r.IoPending? || (r.NoError? && !kind.PipeConnect?)
  }

  datatype Place = Held | Released | Queued(result: Completion)

  /** The error an initiator completes with. */
  function CompletionCode(kind: Kind, r: ApiResult): ErrorCode {
    match r
    case NoError(e) => e
    case IoPending => 0
    // a client that is already connected is a success
    case PipeConnected => if kind.PipeConnect? then 0 else ERROR_PIPE_CONNECTED
    case Failure(e) => e
  }

  /** An initiator that completes its handler itself reports no bytes. */
  function Completed(kind: Kind, r: ApiResult): Completion {
    Completion(CompletionCode(kind, r), 0)
  }

  class OverlappedPtr {
    var place: Place

    constructor ()
      ensures place == Held
    {
      place := Held;
    }

    method Release()
      requires place == Held
      modifies this
      ensures place == Released
    {
      place := Released;
    }

    method Complete(ec: ErrorCode, len: nat)
      requires place == Held
      modifies this
      ensures place == Queued(Completion(ec, len))
    {
      place := Queued(Completion(ec, len));
    }
  }

  /** What an initiator leaves its handler in: the kernel's hands exactly when
      the kernel has promised a packet. */
  predicate HandedOff(place: Place, kind: Kind, r: ApiResult) {
    if Promised(kind, r) then place == Released else place == Queued(Completed(kind, r))
  }

  /** violated: its assertion about the buffer has failed. */
  method AsyncReceiveRequest(r: ApiResult) returns (optr: OverlappedPtr, violated: bool)
    ensures fresh(optr) && HandedOff(optr.place, ReceiveRequest, r)
    ensures match r
            case NoError(_) => optr.place == Released
            case IoPending => optr.place == Released
            case PipeConnected => optr.place == Queued(Completion(ERROR_PIPE_CONNECTED, 0))
            case Failure(e) => optr.place == Queued(Completion(e, 0))
    ensures violated <==> r == Failure(ERROR_INSUFFICIENT_BUFFER)
  {
    optr := new OverlappedPtr();
    violated := false;
    if r.NoError? {
      optr.Release();
    } else if r.IoPending? {
      optr.Release();
    } else {
      violated := r == Failure(ERROR_INSUFFICIENT_BUFFER);
      optr.Complete(CompletionCode(ReceiveRequest, r), 0);
    }
  }

  method AsyncReceiveBody(r: ApiResult) returns (optr: OverlappedPtr)
    ensures fresh(optr) && HandedOff(optr.place, ReceiveBody, r)
    ensures match r
            case NoError(_) => optr.place == Released
            case IoPending => optr.place == Released
            case PipeConnected => optr.place == Queued(Completion(ERROR_PIPE_CONNECTED, 0))
            case Failure(e) => optr.place == Queued(Completion(e, 0))
  {
    optr := new OverlappedPtr();
    if r.IoPending? {
      optr.Release();
    } else if r.NoError? {
      optr.Release();
    } else {
      optr.Complete(CompletionCode(ReceiveBody, r), 0);
    }
  }

  method AsyncSendResponse(r: ApiResult) returns (optr: OverlappedPtr)
    ensures fresh(optr) && HandedOff(optr.place, SendResponse, r)
    ensures match r
            case NoError(_) => optr.place == Released
            case IoPending => optr.place == Released
            case PipeConnected => optr.place == Queued(Completion(ERROR_PIPE_CONNECTED, 0))
            case Failure(e) => optr.place == Queued(Completion(e, 0))
  {
    optr := new OverlappedPtr();
    if r.IoPending? {
      optr.Release();
    } else if r.NoError? {
      optr.Release();
    } else {
      optr.Complete(CompletionCode(SendResponse, r), 0);
    }
  }

  method AsyncServerConnect(r: ApiResult) returns (optr: OverlappedPtr)
    ensures fresh(optr) && HandedOff(optr.place, PipeConnect, r)
    ensures match r
            case NoError(e) => optr.place == Queued(Completion(e, 0))
            case IoPending => optr.place == Released
            case PipeConnected => optr.place == Queued(Completion(0, 0))
            case Failure(e) => optr.place == Queued(Completion(e, 0))
  {
    optr := new OverlappedPtr();
    if r.NoError? {
      optr.Complete(r.lastError, 0);
      return;
    }
    match r {
      case IoPending => optr.Release();
      case PipeConnected => optr.Complete(0, 0);
      case Failure(e) => optr.Complete(e, 0);
    }
  }

  // ---- all handlers of a process ----

  /** Handlers are numbered as they are created. owed: the packets the kernel
      will post, which follow from its answers alone, whatever the program did
      with the handler. */
  datatype World = World(
    created: nat,
    held: multiset<nat>,
    released: multiset<nat>,
    owed: multiset<nat>,
    queued: multiset<nat>,
    delivered: multiset<nat>)

  datatype Move =
    | Create
    | Return(h: nat, kind: Kind, r: ApiResult)
    | PostPacket(h: nat)
    | Run(h: nat)

  /** A rule for releasing: true to release, false to complete. */
  type Rule = (Kind, ApiResult) -> bool

  const START: World := World(0, multiset{}, multiset{}, multiset{}, multiset{}, multiset{})

  predicate Can(w: World, m: Move) {
    match m
    case Create => true
    case Return(h, _, _) => h in w.held
    case PostPacket(h) => h in w.owed
    case Run(h) => h in w.queued
  }

  function Do(rule: Rule, w: World, m: Move): World
    requires Can(w, m)
  {
    match m
    case Create => w.(created := w.created + 1, held := w.held + multiset{w.created})
    case Return(h, kind, r) =>
      var w' := w.(held := w.held - multiset{h},
                   owed := if Promised(kind, r) then w.owed + multiset{h} else w.owed);
      if rule(kind, r) then w'.(released := w.released + multiset{h})
      else w'.(queued := w.queued + multiset{h})
    case PostPacket(h) =>
      w.(owed := w.owed - multiset{h},
         released := w.released - multiset{h},
         queued := w.queued + multiset{h})
    case Run(h) => w.(queued := w.queued - multiset{h}, delivered := w.delivered + multiset{h})
  }

  predicate Reaches(rule: Rule, w: World, ms: seq<Move>, end: World)
    decreases |ms|
  {
    if ms == [] then w == end else Can(w, ms[0]) && Reaches(rule, Do(rule, w, ms[0]), ms[1..], end)
  }

  /** The places a handler is in. */
  function Copies(w: World, h: nat): nat {
    w.held[h] + w.released[h] + w.queued[h] + w.delivered[h]
  }

  /** Each handler created is in exactly one place, and there is no other. */
  ghost predicate Conserved(w: World) {
    forall h: nat :: Copies(w, h) == if h < w.created then 1 else 0
  }

  /** Conserved, and every handler not yet run will be: it is still with its
      initiator or in the queue, or the kernel owes its packet. */
  ghost predicate Sound(w: World) {
    Conserved(w) && (forall h :: h in w.released ==> h in w.owed)
  }

  ghost predicate AlwaysSound(rule: Rule) {
    forall ms, end :: Reaches(rule, START, ms, end) ==> Sound(end)
  }

  /** The rule of the initiators. */
  predicate CodeRule(kind: Kind, r: ApiResult) {
    if kind.PipeConnect? then r.IoPending? else r.NoError? || r.IoPending?
  }

  /** Where that rule leaves a handler. */
  function Handoff(kind: Kind, r: ApiResult): Place {
    if CodeRule(kind, r) then Released else Queued(Completed(kind, r))
  }

  /** The run models play what the initiators do, which is what is promised. */
  lemma CodeRuleIsPromise(kind: Kind, r: ApiResult, place: Place)
    ensures CodeRule(kind, r) <==> Promised(kind, r)
    ensures HandedOff(place, kind, r) <==> place == Handoff(kind, r)
  {
  }

  ghost predicate Inv(w: World) {
    Conserved(w) && w.owed == w.released
  }

  lemma InvMove(rule: Rule, w: World, m: Move)
    requires forall kind, r :: rule(kind, r) == Promised(kind, r)
    requires Inv(w) && Can(w, m)
    ensures Inv(Do(rule, w, m))
  {
    var w' := Do(rule, w, m);
    forall h: nat ensures Copies(w', h) == if h < w'.created then 1 else 0 {
      assert Copies(w, h) == if h < w.created then 1 else 0;
      assert Copies(w', h) == Copies(w, h) + if m.Create? && h == w.created then 1 else 0;
    }
  }

  lemma {:induction false} InvAlways(rule: Rule, w: World, ms: seq<Move>, end: World)
    requires forall kind, r :: rule(kind, r) == Promised(kind, r)
    requires Inv(w) && Reaches(rule, w, ms, end)
    ensures Inv(end)
    decreases |ms|
  {
    if ms != [] {
      InvMove(rule, w, ms[0]);
      InvAlways(rule, Do(rule, w, ms[0]), ms[1..], end);
    }
  }

  /** Releasing where no packet comes loses the handler. */
  lemma WrongReleaseLoses(rule: Rule, kind: Kind, r: ApiResult)
    requires rule(kind, r) && !Promised(kind, r)
    ensures !AlwaysSound(rule)
  {
    var w1 := Do(rule, START, Create);
    var w2 := Do(rule, w1, Return(0, kind, r));
    assert Reaches(rule, w2, [], w2);
    assert [Return(0, kind, r)][1..] == [];
    assert Reaches(rule, w1, [Return(0, kind, r)], w2);
    assert [Create, Return(0, kind, r)][1..] == [Return(0, kind, r)];
    assert Reaches(rule, START, [Create, Return(0, kind, r)], w2);
    assert 0 in w2.released && 0 !in w2.owed;
  }

  /** Completing where a packet comes as well runs the handler twice. */
  lemma WrongCompleteRunsTwice(rule: Rule, kind: Kind, r: ApiResult)
    requires !rule(kind, r) && Promised(kind, r)
    ensures !AlwaysSound(rule)
  {
    var w1 := Do(rule, START, Create);
    var w2 := Do(rule, w1, Return(0, kind, r));
    var w3 := Do(rule, w2, PostPacket(0));
    assert Reaches(rule, w3, [], w3);
    assert [PostPacket(0)][1..] == [];
    assert Reaches(rule, w2, [PostPacket(0)], w3);
    assert [Return(0, kind, r), PostPacket(0)][1..] == [PostPacket(0)];
    assert Reaches(rule, w1, [Return(0, kind, r), PostPacket(0)], w3);
    assert [Create, Return(0, kind, r), PostPacket(0)][1..] == [Return(0, kind, r), PostPacket(0)];
    assert Reaches(rule, START, [Create, Return(0, kind, r), PostPacket(0)], w3);
    assert Copies(w3, 0) == 2;
    assert !Conserved(w3);
  }

  /** Every handler is delivered exactly once in every run if and only if the
      program releases exactly when the kernel has promised a packet. */
  lemma ReleaseIffPromised(rule: Rule)
    ensures AlwaysSound(rule) <==> forall kind, r :: rule(kind, r) == Promised(kind, r)
  {
    if forall kind, r :: rule(kind, r) == Promised(kind, r) {
      forall ms, end | Reaches(rule, START, ms, end) ensures Sound(end) {
        InvAlways(rule, START, ms, end);
      }
    } else {
      var kind, r :| rule(kind, r) != Promised(kind, r);
      if rule(kind, r) {
        WrongReleaseLoses(rule, kind, r);
      } else {
        WrongCompleteRunsTwice(rule, kind, r);
      }
    }
  }

  /** The initiators of the library: no handler is lost and none runs twice. */
  lemma InitiatorsDeliverOnce(ms: seq<Move>, end: World)
    requires Reaches(CodeRule, START, ms, end)
    ensures Sound(end) && (forall h :: end.delivered[h] <= 1)
    ensures (forall m :: Can(end, m) ==> m.Create?) ==>
      forall h :: 0 <= h < end.created ==> end.delivered[h] == 1
  {
    ReleaseIffPromised(CodeRule);
    assert AlwaysSound(CodeRule);
    assert Sound(end);
    forall h: nat ensures end.delivered[h] <= 1 {
      assert Copies(end, h) <= 1;
    }
    if forall m :: Can(end, m) ==> m.Create? {
      forall h | 0 <= h < end.created ensures end.delivered[h] == 1 {
        assert !Can(end, Return(h, ReceiveRequest, IoPending));
        assert !Can(end, PostPacket(h)) && !Can(end, Run(h));
        assert Copies(end, h) == 1;
      }
    }
  }
}
