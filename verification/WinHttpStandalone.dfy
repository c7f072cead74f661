/** Every run of the operations that are used on their own: async_read_body,
    async_read_some and async_write_some. Each is finite, and one that cannot go
    on has run its token, with what its reader or writer promises. */
module WinHttpStandalone {
  import opened Basics
  import opened DynamicBuffers
  import opened WinHttpContext
  import opened WinHttpOps
  import opened WinHttpSystem
  import opened WinHttpBody
  import opened WinHttpRuns
  import opened WinHttpStream

  /** A run that cannot go on: its operation has ended with the completion of
      its machine, which is what the token carries. */
  lemma StuckRunHasEnded(cl: Client, buf: Storage, leftOver: Context, skip: bool, ms: seq<Move>)
    requires FreshClient(cl, buf) && !cl.Exec?
    requires After(Begin(cl, buf, leftOver, skip), ms).Some?
    requires forall m :: !Can(After(Begin(cl, buf, leftOver, skip), ms).value, m)
    ensures var s, m0 := After(Begin(cl, buf, leftOver, skip), ms).value, Started(cl, buf);
      && s.pc.Ended? && Accepts(m0, s.answers) && s.calls == Trace(m0, s.answers)
      && |s.answers| <= |s.calls|
      && var m := Play(m0, s.answers);
         m.last.Complete? && s.tokens == [m.last.result] && s.buf == m.buf
  {
    var s := After(Begin(cl, buf, leftOver, skip), ms).value;
    NoLostWakeup(cl, buf, leftOver, skip, ms, []);
    assert !Can(s, NextMove(s, []));
    RunPlaysMachine(cl, buf, leftOver, skip, ms);
  }

  // ---- async_read_body ----

  const READ_BODY: Client := Body(BodyIdle)

  /** The answers a run of async_read_body has met from an honest server. */
  lemma ReadBodyMeets(body: seq<byte>, buf: Storage, leftOver: Context, ms: seq<Move>)
    requires FreshClient(READ_BODY, buf)
    requires After(Begin(READ_BODY, buf, leftOver, false), ms).Some?
    requires var s := After(Begin(READ_BODY, buf, leftOver, false), ms).value;
      |s.answers| <= |s.calls| && Honest(body, s.calls, s.answers)
    ensures var s, m0 := After(Begin(READ_BODY, buf, leftOver, false), ms).value, Started(READ_BODY, buf);
      && Accepts(m0, s.answers) && |s.answers| <= |Trace(m0, s.answers)|
      && Honest(body, Trace(m0, s.answers), s.answers)
  {
    var s := After(Begin(READ_BODY, buf, leftOver, false), ms).value;
    RunPlaysMachine(READ_BODY, buf, leftOver, false, ms);
    HonestPrefix(body, s.calls, Trace(Started(READ_BODY, buf), s.answers), s.answers);
  }

  /** Each read asks for what the query before it has announced. */
  lemma ReadBodyAsksWhatIsAnnounced(buf: Storage, leftOver: Context, ms: seq<Move>, i: nat)
    requires FreshClient(READ_BODY, buf)
    requires After(Begin(READ_BODY, buf, leftOver, false), ms).Some?
    requires i < |After(Begin(READ_BODY, buf, leftOver, false), ms).value.calls|
    ensures var s := After(Begin(READ_BODY, buf, leftOver, false), ms).value;
      s.calls[i].ReadData? ==>
        && 0 < i <= |s.answers| && s.answers[i - 1].Accepted? && s.answers[i - 1].notice.DataReady?
        && s.calls[i] == ReadData(s.answers[i - 1].notice.value)
  {
    InvAlways(READ_BODY, buf, leftOver, false, ms);
    RunPlaysMachine(READ_BODY, buf, leftOver, false, ms);
    var s := After(Begin(READ_BODY, buf, leftOver, false), ms).value;
    BodyIsLoop(buf, s.answers);
    var calls := ReadLoop(s.answers).calls;
    assert AllFit(calls, s.answers) by {
      assert forall j :: 0 <= j < |s.answers| ==> Fits(s.calls[j], s.answers[j]) && calls[j] == s.calls[j];
    }
    LoopReadsAnnounced(s.answers, i);
    AnnouncedPrefix(s.calls, calls, s.answers, i);
  }

  /** However the body is split and the threads are interleaved. */
  lemma ReadBodyRunsAreFinite(body: seq<byte>, buf: Storage, leftOver: Context, ms: seq<Move>)
    requires FreshClient(READ_BODY, buf)
    requires After(Begin(READ_BODY, buf, leftOver, false), ms).Some?
    requires var s := After(Begin(READ_BODY, buf, leftOver, false), ms).value;
      |s.answers| <= |s.calls| && Honest(body, s.calls, s.answers)
    ensures |ms| <= MOVES_PER_CALL * (2 * |body| + 3)
  {
    ReadBodyMeets(body, buf, leftOver, ms);
    ReadBodyReassembles(buf, body, After(Begin(READ_BODY, buf, leftOver, false), ms).value.answers);
    AnswersBoundMoves(READ_BODY, buf, leftOver, false, ms);
  }

  /** On success the whole body follows what the buffer had committed; on an
      error, the environment's own, a prefix of the body does. */
  lemma StuckReadBodyHasDelivered(body: seq<byte>, buf: Storage, leftOver: Context, ms: seq<Move>)
    requires FreshClient(READ_BODY, buf)
    requires After(Begin(READ_BODY, buf, leftOver, false), ms).Some?
    requires var s := After(Begin(READ_BODY, buf, leftOver, false), ms).value;
      |s.answers| <= |s.calls| && Honest(body, s.calls, s.answers) && forall m :: !Can(s, m)
    ensures var s := After(Begin(READ_BODY, buf, leftOver, false), ms).value;
      && s.pc.Ended? && |s.tokens| == 1
      && (if s.tokens[0].ec == 0 then s.buf.Committed() == buf.Committed() + body
          else
            && s.answers != [] && s.tokens[0] == s.answers[|s.answers| - 1].Result()
            && exists d :: d <= body && s.buf.Committed() == buf.Committed() + d)
  {
    StuckRunHasEnded(READ_BODY, buf, leftOver, false, ms);
    ReadBodyMeets(body, buf, leftOver, ms);
    ReadBodyReassembles(buf, body, After(Begin(READ_BODY, buf, leftOver, false), ms).value.answers);
  }

  // ---- async_read_some ----

  function ReadInto(memory: seq<byte>): Client {
    ReadSome(SomeIdle, |memory|)
  }

  /** One query and one read at most. */
  lemma TwoAnswersAtMost(memory: seq<byte>, answers: seq<Answer>)
    requires Accepts(Started(ReadInto(memory), Storage(memory, 0)), answers)
    ensures |answers| <= 2
  {
    var m0 := Started(ReadInto(memory), Storage(memory, 0));
    if |answers| >= 2 {
      TwoAnswers(m0, answers);
      assert Accepts(Feed(Feed(m0, answers[0]), answers[1]), answers[2..]);
    }
  }

  lemma ReadSomeRunsAreFinite(memory: seq<byte>, leftOver: Context, ms: seq<Move>)
    requires After(Begin(ReadInto(memory), Storage(memory, 0), leftOver, false), ms).Some?
    ensures |ms| <= MOVES_PER_CALL * 3
  {
    var cl, buf := ReadInto(memory), Storage(memory, 0);
    RunPlaysMachine(cl, buf, leftOver, false, ms);
    TwoAnswersAtMost(memory, After(Begin(cl, buf, leftOver, false), ms).value.answers);
    AnswersBoundMoves(cl, buf, leftOver, false, ms);
  }

  /** On success the token carries how many of the next bytes of the body lie at
      the front of the caller's memory, 0 exactly at the end or without room. */
  lemma StuckReadSomeHasDelivered(memory: seq<byte>, rest: seq<byte>, leftOver: Context, ms: seq<Move>)
    requires After(Begin(ReadInto(memory), Storage(memory, 0), leftOver, false), ms).Some?
    requires var s := After(Begin(ReadInto(memory), Storage(memory, 0), leftOver, false), ms).value;
      |s.answers| <= |s.calls| && Honest(rest, s.calls, s.answers) && forall m :: !Can(s, m)
    ensures var s := After(Begin(ReadInto(memory), Storage(memory, 0), leftOver, false), ms).value;
      && s.pc.Ended? && |s.buf.vec| == |memory|
      && |s.tokens| == 1
      && (s.tokens[0].ec == 0 ==>
            var n := s.tokens[0].len;
            && n <= |memory| && s.buf.vec[..n] <= rest && (n == 0 <==> rest == [] || memory == []))
  {
    var cl, buf := ReadInto(memory), Storage(memory, 0);
    StuckRunHasEnded(cl, buf, leftOver, false, ms);
    var session := Session(memory, After(Begin(cl, buf, leftOver, false), ms).value.answers);
    SessionReadsNext(session, rest);
  }

  /** The token carries the error of the last call, or the number of bytes read. */
  lemma StuckReadSomeTells(memory: seq<byte>, rest: seq<byte>, leftOver: Context, ms: seq<Move>)
    requires After(Begin(ReadInto(memory), Storage(memory, 0), leftOver, false), ms).Some?
    requires var s := After(Begin(ReadInto(memory), Storage(memory, 0), leftOver, false), ms).value;
      |s.answers| <= |s.calls| && Honest(rest, s.calls, s.answers) && forall m :: !Can(s, m)
    ensures var s := After(Begin(ReadInto(memory), Storage(memory, 0), leftOver, false), ms).value;
      s.answers != [] && match s.answers[|s.answers| - 1]
                         case Rejected(e) => s.tokens == [Completion(e, 0)]
                         case Accepted(RequestError(_, e), _) => s.tokens == [Completion(e, 0)]
                         case Accepted(_, d) => s.tokens == [Completion(0, |d|)]
  {
    var cl, buf := ReadInto(memory), Storage(memory, 0);
    StuckRunHasEnded(cl, buf, leftOver, false, ms);
    SessionTellsLastAnswer(Session(memory, After(Begin(cl, buf, leftOver, false), ms).value.answers), rest);
  }

  // ---- async_write_some ----

  function WriteFrom(offered: seq<byte>): Client {
    WriteSome(WriteIdle, |offered|)
  }

  lemma WriteSomeRunsAreFinite(offered: seq<byte>, leftOver: Context, ms: seq<Move>)
    requires After(Begin(WriteFrom(offered), Storage([], 0), leftOver, false), ms).Some?
    ensures |ms| <= MOVES_PER_CALL * 2
  {
    var cl, buf := WriteFrom(offered), Storage([], 0);
    RunPlaysMachine(cl, buf, leftOver, false, ms);
    var answers := After(Begin(cl, buf, leftOver, false), ms).value.answers;
    if |answers| >= 1 {
      assert Accepts(Feed(Started(cl, buf), answers[0]), answers[1..]);
    }
    AnswersBoundMoves(cl, buf, leftOver, false, ms);
  }

  /** The token carries the error of the one call, or the number WinHTTP has
      reported; it never reports more than was offered. */
  lemma StuckWriteSomeHasDelivered(offered: seq<byte>, leftOver: Context, ms: seq<Move>)
    requires After(Begin(WriteFrom(offered), Storage([], 0), leftOver, false), ms).Some?
    requires forall m :: !Can(After(Begin(WriteFrom(offered), Storage([], 0), leftOver, false), ms).value, m)
    ensures var s := After(Begin(WriteFrom(offered), Storage([], 0), leftOver, false), ms).value;
      && s.pc.Ended? && |s.answers| == 1 && |s.tokens| == 1 && s.tokens[0].len <= |offered|
      && match s.answers[0]
         case Rejected(e) => s.tokens == [Completion(e, 0)]
         case Accepted(RequestError(_, e), _) => s.tokens == [Completion(e, 0)]
         case Accepted(n, _) => n.WriteDone? && s.tokens == [Completion(0, n.value)]
  {
    var cl, buf := WriteFrom(offered), Storage([], 0);
    StuckRunHasEnded(cl, buf, leftOver, false, ms);
    WriteSomeOffersBuffer(|offered|, After(Begin(cl, buf, leftOver, false), ms).value.answers);
  }
}
