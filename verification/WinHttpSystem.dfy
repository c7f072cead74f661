/** Two threads and WinHTTP, one word at a time: the thread that issues calls
    and runs handlers, the WinHTTP thread that runs the status callback, and
    the operating system's choices. A run is a list of moves, in any order the
    rules allow. */
module WinHttpSystem {
  import opened Basics
  import opened DynamicBuffers
  import opened WinHttpContext
  import opened WinHttpOps

  /** Where the issuing thread stands. */
  datatype Pc =
    | Opening(skip: bool)                     // async_exec: managed_open
    | SettingOption                           // async_exec: set_option
    | EarlyPosted(error: ErrorCode)           // async_exec: net::post of the token
    | StoringState(api: Api)
    | Resetting(api: Api)
    | ClearingEc(api: Api)
    | ClearingLen(api: Api)
    | Calling(api: Api)                       // about to enter the WinHTTP function
    | RefusedState(api: Api, error: ErrorCode)
    | RefusedEc(api: Api, error: ErrorCode)
    | RefusedLen(api: Api, error: ErrorCode)
    | RefusedSet(api: Api, error: ErrorCode)
    | Registering(api: Api)                   // about to start the wait on the event
    | Waiting(api: Api)
    | Posted(api: Api)                        // the wait has fired, the handler is queued
    | Ended

  /** The call WinHTTP has accepted and how far its callback has come. */
  datatype Callback =
    | NoCall
    | Outstanding(api: Api)
    | StoringEc(api: Api, notice: Notice)
    | StoringLen(api: Api, notice: Notice)
    | Signalling(api: Api, notice: Notice)

  /** What the environment did with one call. */
  datatype Answer = Rejected(error: ErrorCode) | Accepted(notice: Notice, data: seq<byte>) {

    function Result(): Completion {
      match this
      case Rejected(e) => Completion(e, 0)
      case Accepted(n, _) => ResultOf(n)
    }

    function Bytes(): seq<byte> {
      if Accepted? then data else []
    }
  }

  /** fault records a failed assertion, an unknown machine state, or bytes
      written outside the prepared area. */
  datatype Sys = Sys(
    client: Client,
    buf: Storage,
    ctx: Context,
    pc: Pc,
    cb: Callback,
    calls: seq<Api>,
    answers: seq<Answer>,
    delivered: seq<Completion>,
    tokens: seq<Completion>,
    fault: bool)

  datatype Move =
    | Advance                                 // next word written by the issuing thread
    | OpenResult(e: ErrorCode)
    | OptionResult(e: ErrorCode)
    | Accept
    | Refuse(e: ErrorCode)
    | Reply(notice: Notice, data: seq<byte>)
    | CallbackStep                            // next word written by the callback
    | Fire
    | RunHandler

  predicate Can(s: Sys, m: Move) {
    match m
    case Advance =>
      || s.pc.StoringState? || s.pc.Resetting? || s.pc.ClearingEc? || s.pc.ClearingLen?
      || s.pc.RefusedState? || s.pc.RefusedEc? || s.pc.RefusedLen? || s.pc.RefusedSet?
      || s.pc.Registering? || s.pc.EarlyPosted?
    case OpenResult(_) => s.pc.Opening?
    case OptionResult(_) => s.pc.SettingOption?
    case Accept => s.pc.Calling?
    case Refuse(e) => s.pc.Calling? && e != 0
    case Reply(n, d) => s.cb.Outstanding? && Matches(s.cb.api, n, d)
    case CallbackStep => s.cb.StoringEc? || s.cb.StoringLen? || s.cb.Signalling?
    case Fire => s.pc.Waiting? && s.ctx.signaled
    case RunHandler => s.pc.Posted?
  }

  /** Resumes the client with a completion and follows its action. */
  function Continue(s: Sys, c: Completion): (r: Sys)
    requires s.buf.Valid()
    ensures r.buf.Valid()
  {
    var (cl, b, a) := Resume(s.client, s.buf, c);
    match a
    case Issue(api) => s.(client := cl, buf := b, pc := StoringState(api))
    case Complete(r) => s.(client := cl, buf := b, pc := Ended, tokens := s.tokens + [r])
    case AssertFailed => s.(pc := Ended, fault := true)
  }

  function AdvanceMove(s: Sys): Sys
    requires Can(s, Advance)
  {
    match s.pc
    case StoringState(a) => s.(ctx := s.ctx.SetState(StateFor(a)), pc := Resetting(a))
    case Resetting(a) => s.(ctx := s.ctx.ResetEvent(), pc := ClearingEc(a))
    case ClearingEc(a) => s.(ctx := s.ctx.WriteEc(0), pc := ClearingLen(a))
    case ClearingLen(a) => s.(ctx := s.ctx.WriteLen(0), pc := Calling(a))
    case RefusedState(a, e) => s.(ctx := s.ctx.SetState(Error), pc := RefusedEc(a, e))
    case RefusedEc(a, e) => s.(ctx := s.ctx.WriteEc(e), pc := RefusedLen(a, e))
    case RefusedLen(a, e) => s.(ctx := s.ctx.WriteLen(0), pc := RefusedSet(a, e))
    case RefusedSet(a, e) => s.(ctx := s.ctx.SetEvent(), pc := Registering(a))
    case Registering(a) => s.(pc := Waiting(a))
    case EarlyPosted(e) => s.(pc := Ended, tokens := s.tokens + [Completion(e, 0)])
  }

  function CallbackMove(s: Sys): Sys
    requires Can(s, CallbackStep)
  {
    match s.cb
    case StoringEc(a, n) =>
      s.(fault := s.fault || !CallbackAsserts(s.ctx.state, n),
         ctx := s.ctx.WriteEc(ResultOf(n).ec),
         cb := StoringLen(a, n))
    case StoringLen(a, n) => s.(ctx := s.ctx.WriteLen(ResultOf(n).len), cb := Signalling(a, n))
    case Signalling(_, _) => s.(ctx := s.ctx.SetEvent(), cb := NoCall)
  }

  function Do(s: Sys, m: Move): (r: Sys)
    requires Can(s, m) && s.buf.Valid()
    ensures r.buf.Valid()
  {
    match m
    case Advance => AdvanceMove(s)
    case OpenResult(e) =>
      if e != 0 then s.(pc := EarlyPosted(e))
      else if s.pc.skip then s.(pc := SettingOption)
      else Continue(s, Completion(0, 0))
    case OptionResult(e) =>
      if e != 0 then s.(pc := EarlyPosted(e)) else Continue(s, Completion(0, 0))
    case Accept =>
      s.(cb := Outstanding(s.pc.api), pc := Registering(s.pc.api), calls := s.calls + [s.pc.api])
    case Refuse(e) =>
      s.(pc := RefusedState(s.pc.api, e),
         calls := s.calls + [s.pc.api],
         answers := s.answers + [Rejected(e)])
    case Reply(n, d) =>
      if s.buf.size + |d| <= |s.buf.vec| then
        s.(buf := s.buf.Fill(d), cb := StoringEc(s.cb.api, n), answers := s.answers + [Accepted(n, d)])
      else s.(fault := true)
    case CallbackStep => CallbackMove(s)
    case Fire => s.(pc := Posted(s.pc.api))
    case RunHandler =>
      var c := HandedOver(s.pc.api, s.ctx);
      Continue(s.(delivered := s.delivered + [c]), c)
  }

  /** The operations a run may start with: async_exec at its entry, or one of
      the stream and body operations on its first resumption. */
  predicate FreshClient(cl: Client, buf: Storage) {
    && buf.Valid()
    && match cl
       case Exec(st, b) => st == ExecIdle && b == None
       case Body(st) => st == BodyIdle
       case ReadSome(st, room) => st == SomeIdle && buf.size == 0 && room == |buf.vec|
       case WriteSome(st, _) => st == WriteIdle
  }

  /** The start of an operation; the context still holds whatever the previous
      operation on the handle left in it, possibly a set event. */
  function Begin(cl: Client, buf: Storage, leftOver: Context, skip: bool): (r: Sys)
    requires FreshClient(cl, buf)
    ensures r.buf.Valid()
  {
    var s := Sys(cl, buf, leftOver, Opening(skip), NoCall, [], [], [], [], false);
    if cl.Exec? then s else Continue(s, Completion(0, 0))
  }

  /** The state after a list of moves, if each was possible when it was made. */
  function After(s0: Sys, ms: seq<Move>): (r: Option<Sys>)
    requires s0.buf.Valid()
    ensures r.Some? ==> r.value.buf.Valid()
  {
    if ms == [] then Some(s0)
    else
      var before := After(s0, ms[..|ms| - 1]);
      if before.Some? && Can(before.value, ms[|ms| - 1]) then Some(Do(before.value, ms[|ms| - 1]))
      else None
  }

  // ---- the machine alone, fed one answer at a time ----

  datatype Machine = Machine(client: Client, buf: Storage, last: Action)

  function Started(cl: Client, buf: Storage): (r: Machine)
    requires buf.Valid()
    ensures r.buf.Valid()
  {
    var (c, b, a) := Resume(cl, buf, Completion(0, 0));
    Machine(c, b, a)
  }

  /** The bytes of an answer land in the buffer before the machine is resumed. */
  function Received(b: Storage, a: Answer): (r: Storage)
    requires b.Valid()
    ensures r.Valid()
  {
    if b.size + |a.Bytes()| <= |b.vec| then b.Fill(a.Bytes()) else b
  }

  function Feed(m: Machine, a: Answer): (r: Machine)
    requires m.buf.Valid()
    ensures r.buf.Valid()
  {
    if m.last.Issue? then
      var (c, b, act) := Resume(m.client, Received(m.buf, a), a.Result());
      Machine(c, b, act)
    else m
  }

  function Play(m: Machine, answers: seq<Answer>): (r: Machine)
    requires m.buf.Valid()
    ensures r.buf.Valid()
    decreases |answers|
  {
    if answers == [] then m else Play(Feed(m, answers[0]), answers[1..])
  }

  lemma {:induction false} PlaySnoc(m: Machine, answers: seq<Answer>, a: Answer)
    requires m.buf.Valid()
    ensures Play(m, answers + [a]) == Feed(Play(m, answers), a)
    decreases |answers|
  {
    if answers == [] {
    } else {
      assert (answers + [a])[1..] == answers[1..] + [a];
      PlaySnoc(Feed(m, answers[0]), answers[1..], a);
    }
  }

  /** An answer the environment may give to a call. */
  predicate Fits(api: Api, a: Answer) {
    match a
    case Rejected(e) => e != 0
    case Accepted(n, d) => Matches(api, n, d)
  }

  // ---- what every operation keeps between completions ----

  predicate ReaderOk(st: BodyState, buf: Storage, last: Action) {
    || (st == BodyQuery && last == Issue(QueryData))
    || (st == BodyRead && last.Issue? && last.api.ReadData? && buf.size + last.api.count < |buf.vec|)
  }

  /** Ties the state of an operation to the call it has issued, and to the room
      its buffer has for that call. */
  predicate MachineOk(m: Machine) {
    && m.buf.Valid()
    && !m.last.AssertFailed?
    && (m.last.Issue? ==>
          match m.client
          case Exec(st, None) =>
            (st == ExecSend && m.last.api == Send) || (st == ExecReceive && m.last.api == ReceiveResponse)
          case Exec(st, Some(b)) => st == ExecDone && ReaderOk(b, m.buf, m.last)
          case Body(b) => ReaderOk(b, m.buf, m.last)
          case ReadSome(st, room) =>
            && room == |m.buf.vec| && m.buf.size == 0
            && ((st == SomeQuery && m.last.api == QueryData)
                || (st == SomeRead && m.last.api.ReadData? && m.last.api.count <= room))
          case WriteSome(st, _) => st == Writing && m.last.api.WriteData?)
  }

  lemma StartedOk(cl: Client, buf: Storage)
    requires FreshClient(cl, buf)
    ensures MachineOk(Started(cl, buf)) && Started(cl, buf).last.Issue?
    ensures Started(cl, buf).buf == buf
  {
  }

  lemma FeedOk(m: Machine, a: Answer)
    requires MachineOk(m) && m.last.Issue? && Fits(m.last.api, a)
    ensures MachineOk(Feed(m, a))
    ensures m.buf.size + |a.Bytes()| <= |m.buf.vec|
  {
  }

  // ---- the inductive invariant ----

  predicate AtEntry(pc: Pc) {
    pc.Opening? || pc.SettingOption? || pc.EarlyPosted?
  }

  predicate BeforeCall(pc: Pc) {
    pc.StoringState? || pc.Resetting? || pc.ClearingEc? || pc.ClearingLen? || pc.Calling?
  }

  predicate AfterRefusal(pc: Pc) {
    pc.RefusedState? || pc.RefusedEc? || pc.RefusedLen? || pc.RefusedSet?
  }

  /** The words written so far by an initiator that has not called yet. */
  predicate Prepared(pc: Pc, c: Context)
    requires BeforeCall(pc)
  {
    && (!pc.StoringState? ==> c.state == StateFor(pc.api))
    && (pc.ClearingEc? || pc.ClearingLen? || pc.Calling? ==> !c.signaled)
  }

  /** The words written so far for a refused call. */
  predicate Recorded(pc: Pc, c: Context)
    requires AfterRefusal(pc)
  {
    && !c.signaled
    && (pc.RefusedLen? || pc.RefusedSet? ==> c.ec == pc.error)
    && (pc.RefusedSet? ==> c.len == 0)
  }

  /** The callback's progress against the context: the event is set only once
      both words of the result of this very call are in place. */
  predicate CallbackOk(s: Sys, m: Machine, api: Api)
    requires m.buf.Valid()
  {
    match s.cb
    case NoCall =>
      && |s.answers| == |s.delivered| + 1
      && s.ctx.signaled
      && Completion(s.ctx.ec, s.ctx.len) == s.answers[|s.delivered|].Result()
      && s.buf == Received(m.buf, s.answers[|s.delivered|])
    case Outstanding(a) =>
      && a == api && |s.answers| == |s.delivered|
      && !s.ctx.signaled && s.ctx.state == StateFor(a) && s.buf == m.buf
    case StoringEc(a, n) => a == api && !s.ctx.signaled && s.ctx.state == StateFor(a) && Answering(s, m, n)
    case StoringLen(a, n) => a == api && !s.ctx.signaled && s.ctx.ec == ResultOf(n).ec && Answering(s, m, n)
    case Signalling(a, n) =>
      a == api && !s.ctx.signaled && Completion(s.ctx.ec, s.ctx.len) == ResultOf(n) && Answering(s, m, n)
  }

  predicate Answering(s: Sys, m: Machine, n: Notice) {
    && |s.answers| == |s.delivered| + 1
    && s.answers[|s.delivered|].Accepted?
    && s.answers[|s.delivered|].notice == n
    && m.buf.Valid()
    && s.buf == Received(m.buf, s.answers[|s.delivered|])
  }

  /** The machine fed with the answers it has been told of. */
  function Told(m0: Machine, s: Sys): (r: Machine)
    requires m0.buf.Valid() && |s.delivered| <= |s.answers|
    ensures r.buf.Valid()
  {
    Play(m0, s.answers[..|s.delivered|])
  }

  /** The histories: one answer per call, given to the call the machine had
      issued, and each completion is the answer to its own call. */
  predicate HistoryOk(m0: Machine, s: Sys)
    requires m0.buf.Valid()
  {
    && |s.delivered| <= |s.answers| <= |s.calls| <= |s.delivered| + 1
    && (forall i :: 0 <= i < |s.delivered| ==> s.delivered[i] == s.answers[i].Result())
    && (forall i :: 0 <= i < |s.answers| ==> Fits(s.calls[i], s.answers[i]))
    && (forall i :: 0 <= i < |s.calls| && i <= |s.answers| ==>
          Play(m0, s.answers[..i]).last == Issue(s.calls[i]))
  }

  /** What holds at each point of the issuing thread, given the machine m that
      has been told of the delivered answers. */
  predicate ThreadOk(cl: Client, buf: Storage, s: Sys, m: Machine)
    requires m.buf.Valid()
  {
    if AtEntry(s.pc) then
      && s.client == cl && s.buf == buf && s.cb == NoCall && s.calls == [] && s.tokens == []
      && cl.Exec? && (s.pc.EarlyPosted? ==> s.pc.error != 0)
    else if s.pc.Ended? then
      && s.cb == NoCall && |s.calls| == |s.delivered| && |s.tokens| == 1
      && (EndedEarly(cl, buf, s)
          || (m.last == Complete(s.tokens[0]) && s.client == m.client && s.buf == m.buf))
    else
      && s.tokens == [] && s.client == m.client && m.last == Issue(s.pc.api)
      && (if BeforeCall(s.pc) then
            s.cb == NoCall && |s.calls| == |s.delivered| && s.buf == m.buf && Prepared(s.pc, s.ctx)
          else if AfterRefusal(s.pc) then
            && s.cb == NoCall && |s.calls| == |s.answers| == |s.delivered| + 1 && s.buf == m.buf
            && s.answers[|s.delivered|] == Rejected(s.pc.error)
            && Recorded(s.pc, s.ctx)
          else
            && |s.calls| == |s.delivered| + 1
            && CallbackOk(s, m, s.pc.api)
            && (s.pc.Posted? ==> s.cb == NoCall))
  }

  /** async_exec gave up before its first WinHTTP call. */
  predicate EndedEarly(cl: Client, buf: Storage, s: Sys)
    requires |s.tokens| == 1
  {
    s.calls == [] && cl.Exec? && s.client == cl && s.buf == buf && s.tokens[0].ec != 0 && s.tokens[0].len == 0
  }

  predicate Inv(cl: Client, buf: Storage, s: Sys)
    requires FreshClient(cl, buf)
  {
    var m0 := Started(cl, buf);
    && !s.fault && s.buf.Valid()
    && HistoryOk(m0, s)
    && MachineOk(Told(m0, s))
    && ThreadOk(cl, buf, s, Told(m0, s))
  }

  lemma InvBegin(cl: Client, buf: Storage, leftOver: Context, skip: bool)
    requires FreshClient(cl, buf)
    ensures Inv(cl, buf, Begin(cl, buf, leftOver, skip))
  {
    StartedOk(cl, buf);
  }

  /** Moves that touch only the context and the program counters keep what is
      known about the histories and the machine. */
  lemma SameHistories(cl: Client, buf: Storage, s: Sys, t: Sys)
    requires FreshClient(cl, buf) && Inv(cl, buf, s)
    requires t.answers == s.answers && t.calls == s.calls && t.delivered == s.delivered
    ensures HistoryOk(Started(cl, buf), t)
    ensures Told(Started(cl, buf), t) == Told(Started(cl, buf), s)
  {
  }

  lemma ThreadPrepare(cl: Client, buf: Storage, s: Sys, m: Machine)
    requires m.buf.Valid() && BeforeCall(s.pc) && Can(s, Advance) && ThreadOk(cl, buf, s, m)
    ensures ThreadOk(cl, buf, AdvanceMove(s), m)
  {
    match s.pc
    case StoringState(_) =>
    case Resetting(_) =>
    case ClearingEc(_) =>
    case ClearingLen(_) =>
  }

  lemma ThreadRecord(cl: Client, buf: Storage, s: Sys, m: Machine)
    requires m.buf.Valid() && AfterRefusal(s.pc) && ThreadOk(cl, buf, s, m)
    ensures ThreadOk(cl, buf, AdvanceMove(s), m)
  {
    match s.pc
    case RefusedState(_, _) =>
    case RefusedEc(_, _) =>
    case RefusedLen(_, _) =>
    case RefusedSet(_, _) =>
  }

  lemma ThreadRegister(cl: Client, buf: Storage, s: Sys, m: Machine)
    requires m.buf.Valid() && ThreadOk(cl, buf, s, m)
    requires (s.pc.Registering? || s.pc.EarlyPosted?) && |s.delivered| <= |s.calls|
    ensures ThreadOk(cl, buf, AdvanceMove(s), m)
  {
  }

  lemma InvAdvance(cl: Client, buf: Storage, s: Sys)
    requires FreshClient(cl, buf) && Inv(cl, buf, s) && Can(s, Advance)
    ensures Inv(cl, buf, Do(s, Advance))
  {
    SameHistories(cl, buf, s, Do(s, Advance));
    var m := Told(Started(cl, buf), s);
    if BeforeCall(s.pc) {
      ThreadPrepare(cl, buf, s, m);
    } else if AfterRefusal(s.pc) {
      ThreadRecord(cl, buf, s, m);
    } else {
      ThreadRegister(cl, buf, s, m);
    }
  }

  lemma InvCallback(cl: Client, buf: Storage, s: Sys)
    requires FreshClient(cl, buf) && Inv(cl, buf, s) && Can(s, CallbackStep)
    ensures Inv(cl, buf, Do(s, CallbackStep))
  {
    assert s.answers[|s.delivered|].Result() == ResultOf(s.cb.notice);
    assert Fits(s.calls[|s.delivered|], s.answers[|s.delivered|]);
    var a := s.answers[|s.delivered|];
    MatchingNoticeAsserts(s.cb.api, a.notice, a.data, s.ctx.state);
  }

  lemma InvEntry(cl: Client, buf: Storage, s: Sys, move: Move)
    requires FreshClient(cl, buf) && Inv(cl, buf, s) && Can(s, move)
    requires move.OpenResult? || move.OptionResult?
    ensures Inv(cl, buf, Do(s, move))
  {
    StartedOk(cl, buf);
  }

  lemma InvAccept(cl: Client, buf: Storage, s: Sys)
    requires FreshClient(cl, buf) && Inv(cl, buf, s) && Can(s, Accept)
    ensures Inv(cl, buf, Do(s, Accept))
  {
    assert s.answers[..|s.answers|] == s.answers;
  }

  /** Appending an answer changes none of the machine's earlier states. */
  lemma AnswerPrefixes(s: Sys, a: Answer)
    ensures forall i :: 0 <= i <= |s.answers| ==> (s.answers + [a])[..i] == s.answers[..i]
  {
  }

  /** The histories when a call is made and refused. */
  lemma HistoryRefuse(m0: Machine, s: Sys, e: ErrorCode)
    requires m0.buf.Valid() && s.buf.Valid() && HistoryOk(m0, s) && Can(s, Refuse(e))
    requires |s.calls| == |s.delivered| && Told(m0, s).last == Issue(s.pc.api)
    ensures HistoryOk(m0, Do(s, Refuse(e))) && Told(m0, Do(s, Refuse(e))) == Told(m0, s)
  {
    AnswerPrefixes(s, Rejected(e));
    assert s.answers[..|s.answers|] == s.answers;
  }

  lemma InvRefuse(cl: Client, buf: Storage, s: Sys, e: ErrorCode)
    requires FreshClient(cl, buf) && Inv(cl, buf, s) && Can(s, Refuse(e))
    ensures Inv(cl, buf, Do(s, Refuse(e)))
  {
    HistoryRefuse(Started(cl, buf), s, e);
  }

  lemma InvReply(cl: Client, buf: Storage, s: Sys, n: Notice, d: seq<byte>)
    requires FreshClient(cl, buf) && Inv(cl, buf, s) && Can(s, Reply(n, d))
    ensures Inv(cl, buf, Do(s, Reply(n, d)))
  {
    var a := Accepted(n, d);
    AnswerPrefixes(s, a);
    assert s.answers[..|s.answers|] == s.answers;
    var m := Told(Started(cl, buf), s);
    assert Fits(s.cb.api, a);
    FeedOk(m, a);
  }

  lemma ThreadRun(cl: Client, buf: Storage, s: Sys, m: Machine, a: Answer)
    requires m.buf.Valid() && s.buf.Valid() && MachineOk(Feed(m, a))
    requires s.tokens == [] && s.cb == NoCall && |s.calls| == |s.delivered| + 1 && !s.fault
    requires m.last.Issue? && s.client == m.client && s.buf == Received(m.buf, a)
    ensures var t := Continue(s.(delivered := s.delivered + [a.Result()]), a.Result());
            ThreadOk(cl, buf, t, Feed(m, a)) && !t.fault
  {
  }

  lemma HistoryRun(m0: Machine, s: Sys, t: Sys)
    requires m0.buf.Valid() && HistoryOk(m0, s) && |s.delivered| < |s.answers|
    requires t.answers == s.answers && t.calls == s.calls
    requires t.delivered == s.delivered + [s.answers[|s.delivered|].Result()]
    ensures HistoryOk(m0, t)
    ensures Told(m0, t) == Feed(Told(m0, s), s.answers[|s.delivered|])
  {
    var k := |s.delivered|;
    assert s.answers[..k + 1] == s.answers[..k] + [s.answers[k]];
    PlaySnoc(m0, s.answers[..k], s.answers[k]);
  }

  lemma HandsOverItsAnswer(cl: Client, buf: Storage, s: Sys)
    requires FreshClient(cl, buf) && Inv(cl, buf, s) && Can(s, RunHandler)
    ensures |s.delivered| < |s.answers|
    ensures HandedOver(s.pc.api, s.ctx) == s.answers[|s.delivered|].Result()
    ensures MachineOk(Feed(Told(Started(cl, buf), s), s.answers[|s.delivered|]))
  {
    var m, a := Told(Started(cl, buf), s), s.answers[|s.delivered|];
    assert Fits(s.calls[|s.delivered|], a);
    FeedOk(m, a);
  }

  lemma InvRun(cl: Client, buf: Storage, s: Sys)
    requires FreshClient(cl, buf) && Inv(cl, buf, s) && Can(s, RunHandler)
    ensures Inv(cl, buf, Do(s, RunHandler))
  {
    HandsOverItsAnswer(cl, buf, s);
    HistoryRun(Started(cl, buf), s, Do(s, RunHandler));
    ThreadRun(cl, buf, s, Told(Started(cl, buf), s), s.answers[|s.delivered|]);
  }

  lemma InvFire(cl: Client, buf: Storage, s: Sys)
    requires FreshClient(cl, buf) && Inv(cl, buf, s) && Can(s, Fire)
    ensures Inv(cl, buf, Do(s, Fire))
  {
    SameHistories(cl, buf, s, Do(s, Fire));
  }

  lemma InvMove(cl: Client, buf: Storage, s: Sys, move: Move)
    requires FreshClient(cl, buf) && Inv(cl, buf, s) && Can(s, move)
    ensures Inv(cl, buf, Do(s, move))
  {
    match move
    case Advance => InvAdvance(cl, buf, s);
    case OpenResult(_) => InvEntry(cl, buf, s, move);
    case OptionResult(_) => InvEntry(cl, buf, s, move);
    case Accept => InvAccept(cl, buf, s);
    case Refuse(e) => InvRefuse(cl, buf, s, e);
    case Reply(n, d) => InvReply(cl, buf, s, n, d);
    case CallbackStep => InvCallback(cl, buf, s);
    case Fire => InvFire(cl, buf, s);
    case RunHandler => InvRun(cl, buf, s);
  }

  lemma {:induction false} InvAlways(cl: Client, buf: Storage, leftOver: Context, skip: bool, ms: seq<Move>)
    requires FreshClient(cl, buf)
    requires After(Begin(cl, buf, leftOver, skip), ms).Some?
    ensures Inv(cl, buf, After(Begin(cl, buf, leftOver, skip), ms).value)
    decreases |ms|
  {
    if ms == [] {
      InvBegin(cl, buf, leftOver, skip);
    } else {
      var before := ms[..|ms| - 1];
      InvAlways(cl, buf, leftOver, skip, before);
      InvMove(cl, buf, After(Begin(cl, buf, leftOver, skip), before).value, ms[|ms| - 1]);
    }
  }
}
