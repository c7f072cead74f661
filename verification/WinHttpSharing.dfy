/** Two operations on one request handle. They share the state word, the result
    slot and the event, so a second one may start only when the first has no
    call to come. */
module WinHttpSharing {
  import opened Basics
  import opened DynamicBuffers
  import opened WinHttpContext
  import opened WinHttpOps
  import opened WinHttpSystem
  import opened WinHttpRuns

  /** The words another operation's initiator writes for its own call. */
  function Intrude(s: Sys, api: Api): Sys {
    s.(ctx := s.ctx.SetState(StateFor(api)).StepReset())
  }

  /** What the other operation relies on until its own callback comes: the
      callback's assertion about the state, and a wait that does not fire. */
  predicate Relied(api: Api, c: Context) {
    c.state == StateFor(api) && !c.signaled
  }

  /** These moves of the first operation take that away. */
  predicate Breaks(s: Sys, api: Api, ms: seq<Move>)
    requires s.buf.Valid()
  {
    var t := After(s, ms);
    t.Some? && !Relied(api, t.value.ctx)
  }

  /** Starting a call for another operation keeps the invariant of the first, and
      no moves of the first disturb the other. */
  ghost predicate Shares(cl: Client, buf: Storage, s: Sys, api: Api)
    requires FreshClient(cl, buf) && s.buf.Valid()
  {
    Inv(cl, buf, Intrude(s, api)) && forall ms :: !Breaks(Intrude(s, api), api, ms)
  }

  /** The operation makes no further call. */
  predicate NoCallToCome(s: Sys) {
    s.pc.Ended? || s.pc.EarlyPosted?
  }

  lemma {:induction false} QuietRun(cl: Client, buf: Storage, s: Sys, ms: seq<Move>)
    requires FreshClient(cl, buf) && Inv(cl, buf, s) && NoCallToCome(s)
    requires After(s, ms).Some?
    ensures var t := After(s, ms).value;
      t.ctx == s.ctx && NoCallToCome(t) && t.cb == NoCall
    decreases |ms|
  {
    if ms != [] {
      QuietRun(cl, buf, s, ms[..|ms| - 1]);
    }
  }

  lemma {:induction false} AfterCons(s: Sys, m: Move, ms: seq<Move>)
    requires s.buf.Valid() && Can(s, m)
    ensures After(s, [m] + ms) == After(Do(s, m), ms)
    decreases |ms|
  {
    var all := [m] + ms;
    if ms == [] {
      assert all[..0] == [] && After(s, []) == Some(s);
    } else {
      assert all[..|all| - 1] == [m] + ms[..|ms| - 1];
      AfterCons(s, m, ms[..|ms| - 1]);
    }
  }

  /** The moves to go before the event of the call in progress, or of the one to
      come, is set. */
  function ToEvent(s: Sys): nat {
    match s.pc
    case Opening(_) => 14
    case SettingOption => 13
    case StoringState(_) => 12
    case Resetting(_) => 11
    case ClearingEc(_) => 10
    case ClearingLen(_) => 9
    case Calling(_) => 8
    case RefusedState(_, _) => 4
    case RefusedEc(_, _) => 3
    case RefusedLen(_, _) => 2
    case RefusedSet(_, _) => 1
    case _ => 4 - CallbackProgress(s.cb)
  }

  /** Where an operation can be while its event is not set. */
  lemma Unset(cl: Client, buf: Storage, s: Sys)
    requires FreshClient(cl, buf) && Inv(cl, buf, s) && !s.ctx.signaled
    ensures !s.pc.Posted?
    ensures s.pc.Registering? || s.pc.Waiting? <==> s.cb != NoCall
    ensures s.pc.Opening? || s.pc.SettingOption? ==> s.client == cl && s.buf == buf && cl == EXEC
  {
  }

  lemma StepCloser(s: Sys)
    requires s.buf.Valid() && !NoCallToCome(s) && !s.pc.Posted?
    requires s.pc.Registering? || s.pc.Waiting? <==> s.cb != NoCall
    requires s.pc.Opening? || s.pc.SettingOption? ==> s.client == EXEC
    requires Can(s, NextMove(s, []))
    requires s.cb.Outstanding? ==> s.buf.size + |NextMove(s, []).data| <= |s.buf.vec|
    ensures var t := Do(s, NextMove(s, []));
      ToEvent(t) < ToEvent(s) && !NoCallToCome(t)
  {
  }

  lemma CloserToEvent(cl: Client, buf: Storage, s: Sys)
    requires FreshClient(cl, buf) && Inv(cl, buf, s) && !NoCallToCome(s) && !s.ctx.signaled
    ensures var m := NextMove(s, []);
      Can(s, m) && ToEvent(Do(s, m)) < ToEvent(s) && !NoCallToCome(Do(s, m))
  {
    InvAligned(cl, buf, s);
    Unset(cl, buf, s);
    NextMovePossible(s, []);
    if s.pc.Opening? || s.pc.SettingOption? {
      StartedOk(cl, buf);
    }
    StepCloser(s);
  }

  /** The first operation sets the event sooner or later. */
  lemma {:induction false} EventComes(cl: Client, buf: Storage, s: Sys, api: Api)
    requires FreshClient(cl, buf) && Inv(cl, buf, s) && !NoCallToCome(s)
    ensures exists ms :: Breaks(s, api, ms)
    decreases ToEvent(s)
  {
    if s.ctx.signaled {
      assert Breaks(s, api, []);
    } else {
      var m := NextMove(s, []);
      CloserToEvent(cl, buf, s);
      InvMove(cl, buf, s, m);
      EventComes(cl, buf, Do(s, m), api);
      var ms :| Breaks(Do(s, m), api, ms);
      AfterCons(s, m, ms);
      assert Breaks(s, api, [m] + ms);
    }
  }

  /** Another operation may start its call on the handle if and only if the first
      has no call in progress or to come. */
  lemma SharesIffNoCallToCome(cl: Client, buf: Storage, s: Sys, api: Api)
    requires FreshClient(cl, buf) && Inv(cl, buf, s)
    ensures Shares(cl, buf, s, api) <==> NoCallToCome(s)
  {
    var t := Intrude(s, api);
    if NoCallToCome(s) {
      SameHistories(cl, buf, s, t);
      assert Inv(cl, buf, t);
      forall ms ensures !Breaks(t, api, ms) {
        if After(t, ms).Some? {
          QuietRun(cl, buf, t, ms);
        }
      }
    } else if Inv(cl, buf, t) {
      EventComes(cl, buf, t, api);
    }
  }

  /** The callback of an outstanding call fails its assertion exactly when the
      other call has another state: a write started during a read, say. */
  lemma SecondCallFaultsIff(cl: Client, buf: Storage, s: Sys, api: Api, n: Notice, d: seq<byte>)
    requires FreshClient(cl, buf) && Inv(cl, buf, s)
    requires s.cb.Outstanding? && Matches(s.cb.api, n, d)
    ensures var t := Do(Intrude(s, api), Move.Reply(n, d));
      t.cb.StoringEc? && (CallbackMove(t).fault <==> StateFor(api) != StateFor(s.cb.api))
  {
    FeedOk(Told(Started(cl, buf), s), Accepted(n, d));
    MatchingNoticeAsserts(s.cb.api, n, d, StateFor(api));
  }
}
