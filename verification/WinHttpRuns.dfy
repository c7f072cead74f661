/** What holds of every run of a WinHTTP operation, in every interleaving of
    the issuing thread, the status callback and the operating system. */
module WinHttpRuns {
  import opened Basics
  import opened DynamicBuffers
  import opened WinHttpContext
  import opened WinHttpOps
  import opened WinHttpSystem
  import opened WinHttpBody

  /** No assertion of the callback or of a machine can fail, no byte lands
      outside the prepared area, each handler runs on the result of its own
      call, and the token runs at most once, exactly when the operation ends. */
  lemma EveryRunIsSafe(cl: Client, buf: Storage, leftOver: Context, skip: bool, ms: seq<Move>)
    requires FreshClient(cl, buf)
    requires After(Begin(cl, buf, leftOver, skip), ms).Some?
    ensures var s := After(Begin(cl, buf, leftOver, skip), ms).value;
      && !s.fault
      && (s.cb.StoringEc? ==> CallbackAsserts(s.ctx.state, s.cb.notice))
      && (s.cb.Outstanding? ==>
            forall n, d :: Matches(s.cb.api, n, d) ==> s.buf.size + |d| <= |s.buf.vec|)
      && |s.delivered| <= |s.answers| <= |s.calls| <= |s.delivered| + 1
      && (forall i :: 0 <= i < |s.delivered| ==> s.delivered[i] == s.answers[i].Result())
      && (s.pc.Posted? ==>
            |s.delivered| < |s.answers| && HandedOver(s.pc.api, s.ctx) == s.answers[|s.delivered|].Result())
      && |s.tokens| == (if s.pc.Ended? then 1 else 0)
  {
    InvAlways(cl, buf, leftOver, skip, ms);
    var s := After(Begin(cl, buf, leftOver, skip), ms).value;
    var m := Told(Started(cl, buf), s);
    if s.cb.StoringEc? {
      var a := s.answers[|s.delivered|];
      assert Fits(s.calls[|s.delivered|], a);
      MatchingNoticeAsserts(s.cb.api, a.notice, a.data, s.ctx.state);
    }
    if s.cb.Outstanding? {
      forall n, d | Matches(s.cb.api, n, d) ensures s.buf.size + |d| <= |s.buf.vec| {
        FeedOk(m, Accepted(n, d));
      }
    }
    if s.pc.Posted? {
      HandsOverItsAnswer(cl, buf, s);
    }
  }

  /** In every run, each handler is called with what WinHTTP has said about its
      own call: the error of a refusal or of an error notice with length 0, the
      number a query or a write notice carries, the number of bytes read. */
  lemma HandlersGetTheNotice(cl: Client, buf: Storage, leftOver: Context, skip: bool, ms: seq<Move>, i: nat)
    requires FreshClient(cl, buf)
    requires After(Begin(cl, buf, leftOver, skip), ms).Some?
    requires i < |After(Begin(cl, buf, leftOver, skip), ms).value.delivered|
    ensures var s := After(Begin(cl, buf, leftOver, skip), ms).value;
      && i < |s.answers| && i < |s.calls|
      && match s.answers[i]
         case Rejected(e) => s.delivered[i] == Completion(e, 0)
         case Accepted(RequestError(_, e), _) => s.delivered[i] == Completion(e, 0)
         case Accepted(DataReady(_, v), _) => s.calls[i] == QueryData && s.delivered[i] == Completion(0, v)
         case Accepted(WriteDone(_, v), _) => s.calls[i].WriteData? && s.delivered[i] == Completion(0, v)
         case Accepted(ReadDone(_), d) => s.calls[i].ReadData? && s.delivered[i] == Completion(0, |d|)
         case Accepted(SendRequestComplete, _) => s.calls[i] == Send && s.delivered[i] == Completion(0, 0)
         case Accepted(HeadersReady, _) => s.calls[i] == ReceiveResponse && s.delivered[i] == Completion(0, 0)
         case Accepted(Unhandled, _) => false
  {
    InvAlways(cl, buf, leftOver, skip, ms);
    var s := After(Begin(cl, buf, leftOver, skip), ms).value;
    assert Fits(s.calls[i], s.answers[i]) && s.delivered[i] == s.answers[i].Result();
  }

  // ---- the methods of the context are runs of these moves ----

  /** The issuing thread once its initiator has written its words. */
  function Armed(s: Sys, api: Api): Sys {
    s.(pc := Calling(api), ctx := s.ctx.SetState(StateFor(api)).StepReset())
  }

  /** The initiator up to the WinHTTP function is the moves with nothing between. */
  lemma ArmedByMoves(s: Sys, api: Api)
    requires s.pc == StoringState(api)
    ensures AdvanceMove(AdvanceMove(AdvanceMove(AdvanceMove(s)))) == Armed(s, api)
  {
  }

  /** So is the context method for a call that is pending or refused. */
  lemma RefusalIsMoves(s: Sys, api: Api, e: ErrorCode)
    requires s.buf.Valid() && s.pc == StoringState(api) && e != 0
    ensures Do(Armed(s, api), Accept).ctx == Initiated(s.ctx, api, Pending) == Context(StateFor(api), false, 0, 0)
    ensures AdvanceMove(AdvanceMove(AdvanceMove(AdvanceMove(Do(Armed(s, api), Refuse(e)))))).ctx
         == Initiated(s.ctx, api, Refused(e)) == Context(Error, true, e, 0)
  {
  }

  /** So is the one for a call that WinHTTP answers from inside its function. */
  lemma InlineAnswerIsMoves(s: Sys, api: Api, n: Notice, d: seq<byte>)
    requires s.buf.Valid() && s.cb == Outstanding(api) && Matches(api, n, d)
    requires s.buf.size + |d| <= |s.buf.vec|
    ensures CallbackMove(CallbackMove(CallbackMove(Do(s, Move.Reply(n, d))))).ctx
         == s.ctx.StepComplete(ResultOf(n))
  {
  }

  // ---- no lost wakeup ----

  /** A callback is under way only while the issuing thread registers or waits,
      and a wait without one finds the event set. */
  predicate Aligned(s: Sys) {
    && (s.cb != NoCall ==> s.pc.Registering? || s.pc.Waiting?)
    && (s.cb != NoCall ==> !s.ctx.signaled)
    && (s.pc.Waiting? && s.cb == NoCall ==> s.ctx.signaled)
  }

  lemma InvAligned(cl: Client, buf: Storage, s: Sys)
    requires FreshClient(cl, buf) && Inv(cl, buf, s)
    ensures Aligned(s)
  {
  }

  /** A move that is always possible; an outstanding call is answered with
      success by a server that still has rest to deliver. */
  function NextMove(s: Sys, rest: seq<byte>): Move {
    match s.cb
    case Outstanding(api) =>
      (match api
       case Send => Reply(SendRequestComplete, [])
       case ReceiveResponse => Reply(HeadersReady, [])
       case QueryData => Reply(DataReady(SIZEOF_DWORD, Min(|rest|, DWORD_RANGE - 1)), [])
       case ReadData(k) =>
         var d := rest[..Min(k, |rest|)];
         Reply(ReadDone(|d|), d)
       case WriteData(k) => Reply(Notice.WriteDone(SIZEOF_DWORD, k), []))
    case NoCall =>
      (match s.pc
       case Opening(_) => OpenResult(0)
       case SettingOption => OptionResult(0)
       case Calling(_) => Accept
       case Waiting(_) => Fire
       case Posted(_) => RunHandler
       case _ => Advance)
    case _ => CallbackStep
  }

  lemma NextMovePossible(s: Sys, rest: seq<byte>)
    requires Aligned(s)
    ensures s.pc.Ended? || Can(s, NextMove(s, rest))
  {
    match s.cb
    case Outstanding(api) =>
    case NoCall =>
    case _ =>
  }

  lemma NextAnswerHonest(s: Sys, rest: seq<byte>)
    requires s.cb.Outstanding?
    ensures var move := NextMove(s, rest);
      ResultOf(move.notice).ec == 0 && HonestAnswer(rest, s.cb.api, Accepted(move.notice, move.data))
  {
  }

  /** A run stops only when the operation has ended and its token has run:
      whatever the order of registration, result and event, some move is left,
      and not only an error. Nothing can move after the end. */
  lemma NoLostWakeup(cl: Client, buf: Storage, leftOver: Context, skip: bool, ms: seq<Move>, rest: seq<byte>)
    requires FreshClient(cl, buf)
    requires After(Begin(cl, buf, leftOver, skip), ms).Some?
    ensures var s := After(Begin(cl, buf, leftOver, skip), ms).value;
      && (!s.pc.Ended? ==> Can(s, NextMove(s, rest)))
      && (s.pc.Ended? ==> forall m :: !Can(s, m))
      && (s.cb.Outstanding? ==>
            var move := NextMove(s, rest);
            && ResultOf(move.notice).ec == 0
            && HonestAnswer(rest, s.cb.api, Accepted(move.notice, move.data)))
  {
    InvAlways(cl, buf, leftOver, skip, ms);
    var s := After(Begin(cl, buf, leftOver, skip), ms).value;
    InvAligned(cl, buf, s);
    NextMovePossible(s, rest);
    if s.cb.Outstanding? {
      NextAnswerHonest(s, rest);
    }
  }

  // ---- how long a call takes ----

  function CallbackProgress(cb: Callback): nat {
    match cb
    case Outstanding(_) => 0
    case StoringEc(_, _) => 1
    case StoringLen(_, _) => 2
    case Signalling(_, _) => 3
    case NoCall => 4
  }

  /** The moves made so far for the call in progress. */
  function Progress(s: Sys): nat {
    match s.pc
    case Resetting(_) => 1
    case ClearingEc(_) => 2
    case ClearingLen(_) => 3
    case Calling(_) => 4
    case RefusedState(_, _) => 5
    case RefusedEc(_, _) => 6
    case RefusedLen(_, _) => 7
    case RefusedSet(_, _) => 8
    case Registering(_) => 5 + CallbackProgress(s.cb)
    case Waiting(_) => 6 + CallbackProgress(s.cb)
    case Posted(_) => 7 + CallbackProgress(s.cb)
    case _ => 0
  }

  const MOVES_PER_CALL: nat := 12

  /** The moves async_exec makes before its first WinHTTP call. */
  function EntryMoves(cl: Client, skip: bool): nat {
    if !cl.Exec? then 0 else if skip then 2 else 1
  }

  predicate Counted(cl: Client, skip: bool, n: nat, s: Sys) {
    match s.pc
    case Opening(k) => n == 0 && k == skip && cl.Exec? && s.delivered == []
    case SettingOption => n == 1 && skip && cl.Exec? && s.delivered == []
    case EarlyPosted(_) => n <= EntryMoves(cl, skip) && cl.Exec? && s.delivered == []
    case _ =>
      || n == EntryMoves(cl, skip) + MOVES_PER_CALL * |s.delivered| + Progress(s)
      || (s.pc.Ended? && s.delivered == [] && n <= EntryMoves(cl, skip) + 1)
  }

  lemma CountAdvance(cl: Client, skip: bool, n: nat, s: Sys)
    requires s.buf.Valid() && Aligned(s) && Can(s, Advance) && Counted(cl, skip, n, s)
    ensures Counted(cl, skip, n + 1, AdvanceMove(s))
  {
  }

  lemma CountRun(cl: Client, skip: bool, n: nat, s: Sys)
    requires s.buf.Valid() && Aligned(s) && Can(s, RunHandler) && Counted(cl, skip, n, s)
    ensures Counted(cl, skip, n + 1, Do(s, RunHandler))
  {
    var t := Do(s, RunHandler);
    assert |t.delivered| == |s.delivered| + 1 && Progress(t) == 0;
  }

  lemma CountMove(cl: Client, skip: bool, n: nat, s: Sys, move: Move)
    requires s.buf.Valid() && Aligned(s) && Can(s, move) && Counted(cl, skip, n, s)
    requires !Do(s, move).fault
    ensures Counted(cl, skip, n + 1, Do(s, move))
  {
    match move
    case Advance => CountAdvance(cl, skip, n, s);
    case RunHandler => CountRun(cl, skip, n, s);
    case _ =>
  }

  /** Whatever the interleaving, each WinHTTP call costs exactly twelve moves
      from the first store of its initiator to its handler, refused or not. */
  lemma {:induction false} EachCallTakesTwelveMoves(
    cl: Client, buf: Storage, leftOver: Context, skip: bool, ms: seq<Move>)
    requires FreshClient(cl, buf)
    requires After(Begin(cl, buf, leftOver, skip), ms).Some?
    ensures Counted(cl, skip, |ms|, After(Begin(cl, buf, leftOver, skip), ms).value)
    decreases |ms|
  {
    if ms != [] {
      var before := ms[..|ms| - 1];
      var s := After(Begin(cl, buf, leftOver, skip), before).value;
      EachCallTakesTwelveMoves(cl, buf, leftOver, skip, before);
      InvAlways(cl, buf, leftOver, skip, before);
      InvAligned(cl, buf, s);
      InvMove(cl, buf, s, ms[|ms| - 1]);
      CountMove(cl, skip, |before|, s, ms[|ms| - 1]);
    }
  }

  /** So the answers of the environment bound the length of a run. */
  lemma AnswersBoundMoves(cl: Client, buf: Storage, leftOver: Context, skip: bool, ms: seq<Move>)
    requires FreshClient(cl, buf)
    requires After(Begin(cl, buf, leftOver, skip), ms).Some?
    ensures |ms| <= EntryMoves(cl, skip)
                    + MOVES_PER_CALL * (|After(Begin(cl, buf, leftOver, skip), ms).value.answers| + 1)
  {
    EveryRunIsSafe(cl, buf, leftOver, skip, ms);
    EachCallTakesTwelveMoves(cl, buf, leftOver, skip, ms);
    assert Progress(After(Begin(cl, buf, leftOver, skip), ms).value) < MOVES_PER_CALL;
  }

  // ---- what a run computes ----

  /** The histories of a run, read from the left: the machine has accepted every
      answer, and the calls made so far are the first it issues. */
  lemma {:induction false} HistoriesUnroll(m: Machine, calls: seq<Api>, answers: seq<Answer>)
    requires m.buf.Valid() && |answers| <= |calls| <= |answers| + 1
    requires forall i :: 0 <= i < |answers| ==> Fits(calls[i], answers[i])
    requires forall i :: 0 <= i < |calls| ==> Play(m, answers[..i]).last == Issue(calls[i])
    ensures Accepts(m, answers) && calls <= Trace(m, answers)
    ensures |answers| <= |Trace(m, answers)|
    decreases |answers|
  {
    if calls != [] {
      assert Play(m, answers[..0]) == m;
    }
    if answers != [] {
      var m', calls', answers' := Feed(m, answers[0]), calls[1..], answers[1..];
      forall i | 0 <= i < |calls'| ensures Play(m', answers'[..i]).last == Issue(calls'[i]) {
        assert answers[..i + 1][0] == answers[0] && answers[..i + 1][1..] == answers'[..i];
        assert Play(m, answers[..i + 1]) == Play(m', answers'[..i]);
      }
      assert forall i :: 0 <= i < |answers'| ==> calls'[i] == calls[i + 1] && answers'[i] == answers[i + 1];
      HistoriesUnroll(m', calls', answers');
    }
  }

  /** What a run of any operation has come to, in terms of its own machine fed
      with the answers of the environment. */
  lemma RunPlaysMachine(cl: Client, buf: Storage, leftOver: Context, skip: bool, ms: seq<Move>)
    requires FreshClient(cl, buf)
    requires After(Begin(cl, buf, leftOver, skip), ms).Some?
    ensures var s, m0 := After(Begin(cl, buf, leftOver, skip), ms).value, Started(cl, buf);
      && Accepts(m0, s.answers) && s.calls <= Trace(m0, s.answers)
      && |s.answers| <= |s.calls| <= |s.answers| + 1
      && (s.pc.Ended? && s.calls != [] ==>
            var m := Play(m0, s.answers);
            m.last.Complete? && s.tokens == [m.last.result] && s.buf == m.buf && s.calls == Trace(m0, s.answers))
      && (s.pc.Ended? && s.calls == [] ==> |s.tokens| == 1 && EndedEarly(cl, buf, s))
  {
    InvAlways(cl, buf, leftOver, skip, ms);
    var s, m0 := After(Begin(cl, buf, leftOver, skip), ms).value, Started(cl, buf);
    HistoriesUnroll(m0, s.calls, s.answers);
    if s.pc.Ended? {
      assert s.answers[..|s.delivered|] == s.answers;
      StartedOk(cl, buf);
      if s.calls != [] {
        TraceOfEnded(m0, s.answers);
      }
    }
  }

  lemma {:induction false} TraceOfEnded(m: Machine, answers: seq<Answer>)
    requires m.buf.Valid() && Accepts(m, answers) && !Play(m, answers).last.Issue?
    ensures |Trace(m, answers)| == |answers|
    decreases |answers|
  {
    if answers != [] {
      TraceOfEnded(Feed(m, answers[0]), answers[1..]);
    }
  }

  lemma {:induction false} HonestPrefix(rest: seq<byte>, calls: seq<Api>, more: seq<Api>, answers: seq<Answer>)
    requires |answers| <= |calls| && calls <= more && Honest(rest, calls, answers)
    ensures Honest(rest, more, answers)
    decreases |answers|
  {
    if answers != [] {
      HonestPrefix(rest[|answers[0].Bytes()|..], calls[1..], more[1..], answers[1..]);
    }
  }

  const EXEC: Client := Exec(ExecIdle, None)

  /** Every run of async_exec, in every interleaving, is a run of the plain
      program send; receive; (query; read)*: the calls made are its calls, none
      follows the first error, and the token carries its verdict. When opening
      the request fails, no call is made and the token carries that error. */
  lemma ExecRefinesProgram(buf: Storage, leftOver: Context, skip: bool, ms: seq<Move>)
    requires FreshClient(EXEC, buf)
    requires After(Begin(EXEC, buf, leftOver, skip), ms).Some?
    ensures var s := After(Begin(EXEC, buf, leftOver, skip), ms).value;
      var o := ExecProgram(s.answers);
      && s.calls <= o.calls && ExecShape(s.calls) && StopsAtError(o, s.answers)
      && (if !s.pc.Ended? then s.tokens == []
          else if s.calls == [] then |s.tokens| == 1 && s.tokens[0].ec != 0 && s.buf == buf
          else
            && o.verdict.Some? && s.tokens == [o.verdict.value] && s.calls == o.calls
            && s.buf.Committed() == buf.Committed() + o.data)
  {
    RunPlaysMachine(EXEC, buf, leftOver, skip, ms);
    EveryRunIsSafe(EXEC, buf, leftOver, skip, ms);
    var s := After(Begin(EXEC, buf, leftOver, skip), ms).value;
    ExecIsProgram(buf, s.answers);
    ExecStops(s.answers);
    ShapePrefix(s.calls, ExecProgram(s.answers).calls);
  }

  lemma AnnouncedPrefix(calls: seq<Api>, more: seq<Api>, answers: seq<Answer>, i: nat)
    requires calls <= more && i < |calls| && Announced(more, answers, i)
    ensures Announced(calls, answers, i)
  {
  }

  /** Each read of a run of async_exec asks for what the query before it has
      announced. */
  lemma ExecAsksWhatIsAnnounced(buf: Storage, leftOver: Context, skip: bool, ms: seq<Move>, i: nat)
    requires FreshClient(EXEC, buf)
    requires After(Begin(EXEC, buf, leftOver, skip), ms).Some?
    requires i < |After(Begin(EXEC, buf, leftOver, skip), ms).value.calls|
    ensures var s := After(Begin(EXEC, buf, leftOver, skip), ms).value;
      s.calls[i].ReadData? ==>
        && 0 < i <= |s.answers| && s.answers[i - 1].Accepted? && s.answers[i - 1].notice.DataReady?
        && s.calls[i] == ReadData(s.answers[i - 1].notice.value)
  {
    InvAlways(EXEC, buf, leftOver, skip, ms);
    ExecRefinesProgram(buf, leftOver, skip, ms);
    var s := After(Begin(EXEC, buf, leftOver, skip), ms).value;
    var calls := ExecProgram(s.answers).calls;
    assert AllFit(calls, s.answers) by {
      assert forall j :: 0 <= j < |s.answers| ==> Fits(s.calls[j], s.answers[j]) && calls[j] == s.calls[j];
    }
    ExecReadsAnnounced(s.answers, i);
    AnnouncedPrefix(s.calls, calls, s.answers, i);
  }

  /** The moves that open the request and set its option. */
  function EntryMovesOf(ms: seq<Move>): seq<Move> {
    if ms == [] then []
    else
      var before, m := EntryMovesOf(ms[..|ms| - 1]), ms[|ms| - 1];
      if m.OpenResult? || m.OptionResult? then before + [m] else before
  }

  /** The first of them that failed, which is the last. */
  predicate FailedWith(entry: seq<Move>, skip: bool, e: ErrorCode) {
    e != 0 && (entry == [OpenResult(e)] || (skip && entry == [OpenResult(0), OptionResult(e)]))
  }

  predicate Succeeded(entry: seq<Move>, skip: bool) {
    entry == if skip then [OpenResult(0), OptionResult(0)] else [OpenResult(0)]
  }

  /** What opening the request has come to. */
  predicate EntryDecided(entry: seq<Move>, skip: bool, s: Sys) {
    match s.pc
    case Opening(k) => k == skip && entry == [] && s.calls == [] && s.tokens == []
    case SettingOption => skip && entry == [OpenResult(0)] && s.calls == [] && s.tokens == []
    case EarlyPosted(e) => FailedWith(entry, skip, e) && s.calls == [] && s.tokens == []
    case Ended =>
      if s.calls == [] then
        |s.tokens| == 1 && s.tokens[0].len == 0 && FailedWith(entry, skip, s.tokens[0].ec)
      else Succeeded(entry, skip)
    case _ => Succeeded(entry, skip)
  }

  /** A move of the entry. */
  lemma EntryStep(buf: Storage, s: Sys, entry: seq<Move>, skip: bool, m: Move)
    requires FreshClient(EXEC, buf) && s.buf.Valid() && s.client == EXEC && s.buf == buf
    requires (m.OpenResult? || m.OptionResult?) && Can(s, m) && EntryDecided(entry, skip, s)
    ensures EntryDecided(entry + [m], skip, Do(s, m))
  {
    StartedOk(EXEC, buf);
  }

  /** Any other move: what the entry has come to stays as it is. */
  lemma PastEntryStep(s: Sys, entry: seq<Move>, skip: bool, m: Move)
    requires s.buf.Valid() && !m.OpenResult? && !m.OptionResult? && Can(s, m) && EntryDecided(entry, skip, s)
    requires m.RunHandler? ==> s.calls != []
    ensures EntryDecided(entry, skip, Do(s, m))
  {
    match m
    case Advance =>
    case CallbackStep =>
    case RunHandler =>
    case _ =>
  }

  /** In every run of async_exec: as soon as opening the request or setting its
      option fails, no call is made, then or later, and the token is posted with
      that error; a run that has got past this had both succeed, the option being
      set exactly when it was asked for. */
  lemma {:induction false} EntryDecides(buf: Storage, leftOver: Context, skip: bool, ms: seq<Move>)
    requires FreshClient(EXEC, buf)
    requires After(Begin(EXEC, buf, leftOver, skip), ms).Some?
    ensures EntryDecided(EntryMovesOf(ms), skip, After(Begin(EXEC, buf, leftOver, skip), ms).value)
    decreases |ms|
  {
    if ms != [] {
      var before, m := ms[..|ms| - 1], ms[|ms| - 1];
      var s := After(Begin(EXEC, buf, leftOver, skip), before).value;
      EntryDecides(buf, leftOver, skip, before);
      InvAlways(EXEC, buf, leftOver, skip, before);
      if m.OpenResult? || m.OptionResult? {
        EntryStep(buf, s, EntryMovesOf(before), skip, m);
      } else {
        PastEntryStep(s, EntryMovesOf(before), skip, m);
      }
    }
  }

  lemma {:induction false} EntryMovesAre(ms: seq<Move>, m: Move)
    ensures m in EntryMovesOf(ms) <==> m in ms && (m.OpenResult? || m.OptionResult?)
    decreases |ms|
  {
    if ms != [] {
      EntryMovesAre(ms[..|ms| - 1], m);
    }
  }

  /** A failed open or option stops async_exec: it makes no call, and its token is
      queued with that error or has run with it. */
  lemma FailedEntryStops(buf: Storage, leftOver: Context, skip: bool, ms: seq<Move>, e: ErrorCode)
    requires FreshClient(EXEC, buf)
    requires After(Begin(EXEC, buf, leftOver, skip), ms).Some?
    requires e != 0 && (OpenResult(e) in ms || OptionResult(e) in ms)
    ensures var s := After(Begin(EXEC, buf, leftOver, skip), ms).value;
      && s.calls == []
      && (s.pc == EarlyPosted(e) || (s.pc.Ended? && s.tokens == [Completion(e, 0)]))
  {
    EntryDecides(buf, leftOver, skip, ms);
    EntryMovesAre(ms, OpenResult(e));
    EntryMovesAre(ms, OptionResult(e));
  }

  /** A run that has made a call has opened the request, and has set its option
      exactly when it was asked to. */
  lemma CallsFollowEntry(buf: Storage, leftOver: Context, skip: bool, ms: seq<Move>)
    requires FreshClient(EXEC, buf)
    requires After(Begin(EXEC, buf, leftOver, skip), ms).Some?
    requires After(Begin(EXEC, buf, leftOver, skip), ms).value.calls != []
    ensures OpenResult(0) in ms && (OptionResult(0) in ms <==> skip)
  {
    EntryDecides(buf, leftOver, skip, ms);
    EntryMovesAre(ms, OpenResult(0));
    EntryMovesAre(ms, OptionResult(0));
  }

  /** The error of a failed open, or of a failed option, is among the moves. */
  predicate Reported(ms: seq<Move>, e: ErrorCode) {
    OpenResult(e) in ms || OptionResult(e) in ms
  }

  lemma EarlyStep(buf: Storage, s: Sys, m: Move)
    requires FreshClient(EXEC, buf) && Inv(EXEC, buf, s) && Can(s, m)
    ensures var t := Do(s, m);
      && (t.pc.EarlyPosted? ==> m == OpenResult(t.pc.error) || m == OptionResult(t.pc.error))
      && (t.pc.Ended? && t.calls == [] ==> s.pc.EarlyPosted? && t.tokens == [Completion(s.pc.error, 0)])
  {
    match m
    case OpenResult(_) => StartedOk(EXEC, buf);
    case OptionResult(_) => StartedOk(EXEC, buf);
    case _ =>
  }

  /** When async_exec ends without a call, the error its token carries is the one
      that opening the request, or setting its option, has met. */
  lemma {:induction false} EarlyErrorIsReported(buf: Storage, leftOver: Context, skip: bool, ms: seq<Move>)
    requires FreshClient(EXEC, buf)
    requires After(Begin(EXEC, buf, leftOver, skip), ms).Some?
    ensures var s := After(Begin(EXEC, buf, leftOver, skip), ms).value;
      && (s.pc.EarlyPosted? ==> Reported(ms, s.pc.error))
      && (s.pc.Ended? && s.calls == [] ==> |s.tokens| == 1 && Reported(ms, s.tokens[0].ec))
    decreases |ms|
  {
    if ms != [] {
      var before, m := ms[..|ms| - 1], ms[|ms| - 1];
      EarlyErrorIsReported(buf, leftOver, skip, before);
      InvAlways(EXEC, buf, leftOver, skip, before);
      EarlyStep(buf, After(Begin(EXEC, buf, leftOver, skip), before).value, m);
      assert forall x :: x in before ==> x in ms;
    }
  }

  lemma ShapePrefix(calls: seq<Api>, more: seq<Api>)
    requires calls <= more && ExecShape(more)
    ensures ExecShape(calls)
  {
    if |calls| >= 2 {
      assert calls[2..] <= more[2..];
    }
  }

  /** Against a server with a body to deliver, the length of every run of
      async_exec is bounded, however the body is split and interleaved. */
  lemma ExecRunsAreFinite(body: seq<byte>, buf: Storage, leftOver: Context, skip: bool, ms: seq<Move>)
    requires FreshClient(EXEC, buf)
    requires After(Begin(EXEC, buf, leftOver, skip), ms).Some?
    requires var s := After(Begin(EXEC, buf, leftOver, skip), ms).value;
      |s.answers| <= |s.calls| && Honest(body, s.calls, s.answers)
    ensures |ms| <= MOVES_PER_CALL * (2 * |body| + 5) + 2
  {
    var s := After(Begin(EXEC, buf, leftOver, skip), ms).value;
    HonestCalls(body, buf, leftOver, skip, ms);
    ExecReassembles(body, s.answers);
    AnswersBoundMoves(EXEC, buf, leftOver, skip, ms);
  }

  lemma HonestCalls(body: seq<byte>, buf: Storage, leftOver: Context, skip: bool, ms: seq<Move>)
    requires FreshClient(EXEC, buf)
    requires After(Begin(EXEC, buf, leftOver, skip), ms).Some?
    requires var s := After(Begin(EXEC, buf, leftOver, skip), ms).value;
      |s.answers| <= |s.calls| && Honest(body, s.calls, s.answers)
    ensures var s := After(Begin(EXEC, buf, leftOver, skip), ms).value;
      |s.answers| <= |ExecProgram(s.answers).calls| && Honest(body, ExecProgram(s.answers).calls, s.answers)
  {
    var s := After(Begin(EXEC, buf, leftOver, skip), ms).value;
    ExecRefinesProgram(buf, leftOver, skip, ms);
    HonestPrefix(body, s.calls, ExecProgram(s.answers).calls, s.answers);
  }

  /** A run of async_exec that cannot go on has run its token, once. On success
      the whole body follows what the buffer held before; on an error, the
      environment's own, a prefix of the body does. */
  lemma StuckExecRunHasDelivered(body: seq<byte>, buf: Storage, leftOver: Context, skip: bool, ms: seq<Move>)
    requires FreshClient(EXEC, buf)
    requires After(Begin(EXEC, buf, leftOver, skip), ms).Some?
    requires var s := After(Begin(EXEC, buf, leftOver, skip), ms).value;
      |s.answers| <= |s.calls| && Honest(body, s.calls, s.answers) && forall m :: !Can(s, m)
    ensures var s := After(Begin(EXEC, buf, leftOver, skip), ms).value;
      && s.pc.Ended? && |s.tokens| == 1
      && (if s.tokens[0].ec == 0 then s.buf.Committed() == buf.Committed() + body
          else exists d :: d <= body && s.buf.Committed() == buf.Committed() + d)
  {
    var s := After(Begin(EXEC, buf, leftOver, skip), ms).value;
    NoLostWakeup(EXEC, buf, leftOver, skip, ms, []);
    assert !Can(s, NextMove(s, []));
    HonestCalls(body, buf, leftOver, skip, ms);
    ExecReassembles(body, s.answers);
    ExecRefinesProgram(buf, leftOver, skip, ms);
    if s.calls != [] {
      if s.tokens[0].ec == 0 {
        LoopEndsWithoutLength(s.answers[2..]);
      }
      assert ExecProgram(s.answers).data <= body;
    } else {
      assert [] <= body && buf.Committed() == buf.Committed() + [];
    }
  }
}
