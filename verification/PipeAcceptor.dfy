/** The move form of accepting named-pipe clients: the acceptor keeps the pipe
    being connected in a slot, and moves it out to the handler. */
module PipeAcceptor {
  import opened Basics
  import opened Overlapped

  /** Pipe instances are numbered as they are created. */
  type PipeId = nat

  class Acceptor {
    /** pipe_; None while the handle is closed. */
    var pipe: Option<PipeId>

    constructor ()
      ensures pipe == None
    {
      pipe := None;
    }

    /** named_pipe::server_create; assigning to an open handle throws. */
    method ServerCreate(created: Option<PipeId>, lastError: ErrorCode) returns (ec: ErrorCode, threw: bool)
      requires created.None? ==> lastError != 0
      modifies this
      ensures ec == (if created.Some? then 0 else lastError)
      ensures threw <==> created.Some? && old(pipe).Some?
      ensures pipe == (if created.Some? && !threw then created else old(pipe))
    {
      if created.None? {
        return lastError, false;
      }
      if pipe.Some? {
        return 0, true;
      }
      pipe := created;
      return 0, false;
    }

    /** std::move(pipe_) into the handler. */
    method MoveOut() returns (moved: Option<PipeId>)
      modifies this
      ensures moved == old(pipe) && pipe == None
    {
      moved := pipe;
      pipe := None;
    }

    /** async_accept up to the connect call's return. When the pipe cannot be
        created the handler runs at once with what is in the slot. */
    method AsyncAccept(created: Option<PipeId>, lastError: ErrorCode, r: ApiResult)
      returns (threw: bool, handed: Option<Handed>, optr: OverlappedPtr?)
      requires created.None? ==> lastError != 0
      modifies this
      ensures threw <==> created.Some? && old(pipe).Some?
      ensures threw ==> pipe == old(pipe) && handed == None && optr == null
      ensures created.None? ==> handed == Some(Handed(lastError, old(pipe))) && pipe == None && optr == null
      ensures created.Some? && !threw ==>
        handed == None && pipe == created && optr != null && fresh(optr) && HandedOff(optr.place, PipeConnect, r)
    {
      var ec;
      handed, optr := None, null;
      ec, threw := ServerCreate(created, lastError);
      if threw {
        return;
      }
      if ec != 0 {
        var moved := MoveOut();
        handed := Some(Handed(ec, moved));
      } else {
        optr := AsyncServerConnect(r);
      }
    }

    /** The completion handler of the connect call. */
    method OnConnected(ec: ErrorCode) returns (handed: Handed)
      modifies this
      ensures handed == Handed(ec, old(pipe)) && pipe == None
    {
      var moved := MoveOut();
      handed := Handed(ec, moved);
    }
  }

  /** A handler invocation whose pipe the application has not dealt with yet. */
  datatype Handed = Handed(ec: ErrorCode, pipe: Option<PipeId>)

  /** thrown: an assignment has hit an open handle. */
  datatype Accepting = Accepting(
    slot: Option<PipeId>,
    connecting: Option<Place>,
    handed: seq<Handed>,
    sessions: multiset<PipeId>,
    closed: multiset<PipeId>,
    created: nat,
    thrown: bool)

  datatype Move =
    | Accept(error: ErrorCode)              // 0: the pipe instance is created
    | Return(r: ApiResult)
    | PostPacket(ec: ErrorCode)
    | RunConnectHandler
    | Settle                                // the application takes the oldest handed pipe

  const START: Accepting := Accepting(None, None, [], multiset{}, multiset{}, 0, false)

  predicate Can(w: Accepting, m: Move) {
    match m
    case Accept(_) => true
    case Return(_) => w.connecting == Some(Held)
    case PostPacket(_) => w.connecting == Some(Released)
    case RunConnectHandler => w.connecting.Some? && w.connecting.value.Queued?
    case Settle => w.handed != []
  }

  function Owned(p: Option<PipeId>): multiset<PipeId> {
    if p.Some? then multiset{p.value} else multiset{}
  }

  function Do(w: Accepting, m: Move): Accepting
    requires Can(w, m)
  {
    match m
    case Accept(e) =>
      if e != 0 then w.(handed := w.handed + [Handed(e, w.slot)], slot := None)
      else if w.slot.Some? then w.(thrown := true, created := w.created + 1)
      else w.(slot := Some(w.created), created := w.created + 1, connecting := Some(Held))
    case Return(r) =>
      w.(connecting := Some(Handoff(PipeConnect, r)))
    case PostPacket(ec) => w.(connecting := Some(Queued(Completion(ec, 0))))
    case RunConnectHandler =>
      w.(handed := w.handed + [Handed(w.connecting.value.result.ec, w.slot)], slot := None, connecting := None)
    case Settle =>
      var h := w.handed[0];
      if h.ec == 0 then w.(handed := w.handed[1..], sessions := w.sessions + Owned(h.pipe))
      else w.(handed := w.handed[1..], closed := w.closed + Owned(h.pipe))
  }

  function HandedPipes(hs: seq<Handed>): multiset<PipeId> {
    if hs == [] then multiset{} else HandedPipes(hs[..|hs| - 1]) + Owned(hs[|hs| - 1].pipe)
  }

  function AllPipes(w: Accepting): multiset<PipeId> {
    Owned(w.slot) + HandedPipes(w.handed) + w.sessions + w.closed
  }

  /** Every pipe created has exactly one owner. */
  ghost predicate OneOwner(w: Accepting) {
    forall p: PipeId :: AllPipes(w)[p] == if p < w.created then 1 else 0
  }

  /** The slot is open exactly while a connect is under way, and a handler told
      of success holds a pipe. */
  predicate SlotOk(w: Accepting) {
    && !w.thrown
    && (w.slot.Some? <==> w.connecting.Some?)
    && (forall i :: 0 <= i < |w.handed| && w.handed[i].ec == 0 ==> w.handed[i].pipe.Some?)
  }

  ghost predicate Good(w: Accepting) {
    SlotOk(w) && OneOwner(w)
  }

  lemma SameOwners(w: Accepting, t: Accepting)
    requires OneOwner(w) && AllPipes(t) == AllPipes(w) && t.created == w.created
    ensures OneOwner(t)
  {
  }

  lemma SumAssociates(a: multiset<PipeId>, b: multiset<PipeId>, c: multiset<PipeId>)
    ensures a + b + c == a + (b + c)
    ensures multiset{} + a == a && a + multiset{} == a
  {
  }

  lemma {:induction false} HandedFront(hs: seq<Handed>)
    requires hs != []
    ensures HandedPipes(hs) == Owned(hs[0].pipe) + HandedPipes(hs[1..])
    decreases |hs|
  {
    var n := |hs| - 1;
    var front, last := hs[..n], Owned(hs[n].pipe);
    if n > 0 {
      HandedFront(front);
      HandedSnoc(front[1..], hs[n]);
      assert front[1..] + [hs[n]] == hs[1..];
      SumAssociates(Owned(hs[0].pipe), HandedPipes(front[1..]), last);
    } else {
      SumAssociates(last, multiset{}, multiset{});
      assert front == [] && hs[1..] == [];
    }
  }

  lemma HandedSnoc(hs: seq<Handed>, h: Handed)
    ensures HandedPipes(hs + [h]) == HandedPipes(hs) + Owned(h.pipe)
  {
    assert (hs + [h])[..|hs|] == hs;
  }

  /** From the slot to a handler; from a handler to a session or to the closed. */
  lemma Regrouped(slot: multiset<PipeId>, h: multiset<PipeId>, rest: multiset<PipeId>,
                  x: multiset<PipeId>, y: multiset<PipeId>)
    ensures multiset{} + (rest + slot) + x + y == slot + rest + x + y
    ensures slot + rest + (x + h) + y == slot + (h + rest) + x + y
    ensures slot + rest + x + (y + h) == slot + (h + rest) + x + y
  {
  }

  lemma FailedAcceptMove(w: Accepting, e: ErrorCode)
    requires Good(w) && e != 0
    ensures Good(Do(w, Accept(e))) <==> w.connecting == None
  {
    var t := Do(w, Accept(e));
    HandedSnoc(w.handed, Handed(e, w.slot));
    Regrouped(Owned(w.slot), multiset{}, HandedPipes(w.handed), w.sessions, w.closed);
    assert AllPipes(t) == AllPipes(w);
  }

  lemma CreatedAcceptMove(w: Accepting)
    requires Good(w)
    ensures Good(Do(w, Accept(0))) <==> w.connecting == None
  {
    var t := Do(w, Accept(0));
    if w.slot.None? {
      forall p: PipeId ensures AllPipes(t)[p] == if p < t.created then 1 else 0 {
        assert AllPipes(w)[p] == if p < w.created then 1 else 0;
      }
    }
  }

  lemma RunMove(w: Accepting)
    requires Good(w) && Can(w, RunConnectHandler)
    ensures Good(Do(w, RunConnectHandler))
  {
    HandedSnoc(w.handed, Handed(w.connecting.value.result.ec, w.slot));
    Regrouped(Owned(w.slot), multiset{}, HandedPipes(w.handed), w.sessions, w.closed);
    assert AllPipes(Do(w, RunConnectHandler)) == AllPipes(w);
  }

  lemma SettleKeepsPipes(w: Accepting)
    requires Can(w, Settle)
    ensures AllPipes(Do(w, Settle)) == AllPipes(w)
  {
    var h, rest := w.handed[0], HandedPipes(w.handed[1..]);
    HandedFront(w.handed);
    Regrouped(Owned(w.slot), Owned(h.pipe), rest, w.sessions, w.closed);
    if h.ec == 0 {
      assert AllPipes(Do(w, Settle)) == Owned(w.slot) + rest + (w.sessions + Owned(h.pipe)) + w.closed;
    } else {
      assert AllPipes(Do(w, Settle)) == Owned(w.slot) + rest + w.sessions + (w.closed + Owned(h.pipe));
    }
  }

  lemma SettleSlot(w: Accepting)
    requires SlotOk(w) && Can(w, Settle)
    ensures SlotOk(Do(w, Settle)) && Do(w, Settle).created == w.created
  {
  }

  lemma SettleMove(w: Accepting)
    requires Good(w) && Can(w, Settle)
    ensures Good(Do(w, Settle))
  {
    var t := Do(w, Settle);
    SettleSlot(w);
    SettleKeepsPipes(w);
    SameOwners(w, t);
  }

  /** A move keeps everything in order exactly when it does not start an accept
      while one is under way. */
  lemma AcceptOnlyWhenIdle(w: Accepting, m: Move)
    requires Good(w) && Can(w, m)
    ensures Good(Do(w, m)) <==> (m.Accept? ==> w.connecting == None)
  {
    match m
    case Accept(e) =>
      if e == 0 {
        CreatedAcceptMove(w);
      } else {
        FailedAcceptMove(w, e);
      }
    case Return(_) => assert AllPipes(Do(w, m)) == AllPipes(w);
    case PostPacket(_) => assert AllPipes(Do(w, m)) == AllPipes(w);
    case RunConnectHandler => RunMove(w);
    case Settle => SettleMove(w);
  }

  /** Runs that start each accept after the last one has completed. */
  predicate Reaches(w: Accepting, ms: seq<Move>, end: Accepting)
    decreases |ms|
  {
    if ms == [] then w == end
    else
      && Can(w, ms[0]) && (ms[0].Accept? ==> w.connecting == None)
      && Reaches(Do(w, ms[0]), ms[1..], end)
  }

  lemma {:induction false} PipesHaveOneOwner(w: Accepting, ms: seq<Move>, end: Accepting)
    requires Good(w) && Reaches(w, ms, end)
    ensures Good(end)
    decreases |ms|
  {
    if ms != [] {
      AcceptOnlyWhenIdle(w, ms[0]);
      PipesHaveOneOwner(Do(w, ms[0]), ms[1..], end);
    }
  }

  /** In every such run the handle is closed whenever a pipe is assigned to it,
      each pipe created is with the slot, a handler, a session, or closed, and
      with one of them only. */
  lemma EveryAcceptRunIsGood(ms: seq<Move>, end: Accepting)
    requires Reaches(START, ms, end)
    ensures Good(end)
    ensures end.connecting == None ==> end.slot == None
  {
    PipesHaveOneOwner(START, ms, end);
  }

  /** An accept from an idle acceptor, by what ConnectNamedPipe returns: the
      handler is given the new pipe, with success for a client that is already
      connected, with the error of a failure, and otherwise with what the packet
      says. */
  lemma ConnectHandsOverPipe(w: Accepting, r: ApiResult, ec: ErrorCode)
    requires Good(w) && w.connecting == None
    ensures var pending := Do(w, Accept(0));
      && Can(pending, Move.Return(r))
      && var t := Do(pending, Move.Return(r));
         var done := if t.connecting == Some(Released) then Do(t, Move.PostPacket(ec)) else t;
         && (t.connecting == Some(Released) <==> r == IoPending)
         && Can(done, RunConnectHandler)
         && var end := Do(done, RunConnectHandler);
            && end.slot == None && end.connecting == None && !end.thrown
            && match r
               case IoPending => end.handed == w.handed + [Handed(ec, Some(w.created))]
               case PipeConnected => end.handed == w.handed + [Handed(0, Some(w.created))]
               case Failure(e) => end.handed == w.handed + [Handed(e, Some(w.created))]
               case NoError(e) => end.handed == w.handed + [Handed(e, Some(w.created))]
  {
  }

  /** When the pipe cannot be created the handler is told so, without a pipe. */
  lemma FailedCreateHandsOverNothing(w: Accepting, e: ErrorCode)
    requires Good(w) && w.connecting == None && e != 0
    ensures var t := Do(w, Accept(e));
      t.handed == w.handed + [Handed(e, None)] && t.slot == None && t.connecting == None && t.created == w.created
  {
  }

  /** What the application makes of the oldest handed pipe: a session on success,
      and it is closed otherwise. */
  lemma SettleByError(w: Accepting)
    requires Good(w) && w.handed != []
    ensures var h, t := w.handed[0], Do(w, Settle);
      && t.handed == w.handed[1..]
      && (h.ec == 0 ==> h.pipe.Some? && t.sessions == w.sessions + multiset{h.pipe.value} && t.closed == w.closed)
      && (h.ec != 0 ==>
            && t.sessions == w.sessions
            && t.closed == (if h.pipe.Some? then w.closed + multiset{h.pipe.value} else w.closed))
  {
  }

  /** Two accepts at once: if the second pipe cannot be created, the handler
      that is told so receives the pipe the first one is still connecting, and
      the first handler will be told of its completion without a pipe. */
  lemma OverlappingAcceptStealsPipe(w: Accepting, e: ErrorCode, c: Completion)
    requires Good(w) && w.connecting == Some(Queued(c)) && e != 0
    ensures w.slot.Some?
    ensures var t := Do(Do(w, Accept(e)), RunConnectHandler);
      t.handed == w.handed + [Handed(e, w.slot), Handed(c.ec, None)]
  {
  }
}
