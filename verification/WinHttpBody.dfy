/** What the resumable machines compute: the plain sequential programs they
    stand for, and the body they put together from WinHTTP's answers. */
module WinHttpBody {
  import opened Basics
  import opened DynamicBuffers
  import opened WinHttpContext
  import opened WinHttpOps
  import opened WinHttpSystem

  // ---- the plain programs ----

  /** What a program has called, what it has read, and how it ended, if it has. */
  datatype Outcome = Outcome(calls: seq<Api>, data: seq<byte>, verdict: Option<Completion>)

  /** Query, read what the query announced, until a read brings nothing. */
  function ReadLoop(answers: seq<Answer>): Outcome {
    if answers == [] then Outcome([QueryData], [], None)
    else
      var query := answers[0].Result();
      var calls := [QueryData, ReadData(query.len)];
      if query.ec != 0 then Outcome([QueryData], [], Some(query))
      else if |answers| == 1 then Outcome(calls, [], None)
      else if answers[1].Result().ec != 0 then Outcome(calls, [], Some(answers[1].Result()))
      else if answers[1].Bytes() == [] then Outcome(calls, [], Some(Completion(0, 0)))
      else
        var rest := ReadLoop(answers[2..]);
        Outcome(calls + rest.calls, answers[1].Bytes() + rest.data, rest.verdict)
  }

  /** Send, wait for the response, read the body; stop at the first error. */
  function ExecProgram(answers: seq<Answer>): Outcome {
    if answers == [] then Outcome([Send], [], None)
    else if answers[0].Result().ec != 0 then Outcome([Send], [], Some(answers[0].Result()))
    else if |answers| == 1 then Outcome([Send, ReceiveResponse], [], None)
    else if answers[1].Result().ec != 0 then
      Outcome([Send, ReceiveResponse], [], Some(answers[1].Result()))
    else
      var body := ReadLoop(answers[2..]);
      Outcome([Send, ReceiveResponse] + body.calls, body.data, body.verdict)
  }

  // ---- a machine and the answers it accepts ----

  /** Each answer fits the call the machine has issued when it comes. */
  predicate Accepts(m: Machine, answers: seq<Answer>)
    requires m.buf.Valid()
    decreases |answers|
  {
    answers == []
    || (m.last.Issue? && Fits(m.last.api, answers[0]) && Accepts(Feed(m, answers[0]), answers[1..]))
  }

  /** The calls a machine issues while it is fed the answers. */
  function Trace(m: Machine, answers: seq<Answer>): seq<Api>
    requires m.buf.Valid()
    decreases |answers|
  {
    if !m.last.Issue? then []
    else if answers == [] then [m.last.api]
    else [m.last.api] + Trace(Feed(m, answers[0]), answers[1..])
  }

  /** A program's outcome describes a machine that started from buf. */
  predicate Agrees(o: Outcome, m: Machine, buf: Storage)
    requires m.buf.Valid() && buf.Valid()
  {
    && m.buf.Committed() == buf.Committed() + o.data
    && (o.verdict == None ==> o.calls != [] && m.last == Issue(o.calls[|o.calls| - 1]))
    && (o.verdict.Some? ==> m.last == Complete(o.verdict.value))
    // the area prepared for the last, empty read is still in the vector
    && (o.verdict == Some(Completion(0, 0)) ==> m.buf.size < |m.buf.vec|)
  }

  /** The body operation, alone or inside async_exec, with a query outstanding. */
  predicate AtQuery(m: Machine) {
    && m.buf.Valid() && m.last == Issue(QueryData)
    && (m.client == Exec(ExecDone, Some(BodyQuery)) || m.client == Body(BodyQuery))
  }

  /** The body operation with a read of n bytes outstanding. */
  predicate AtRead(m: Machine, before: Storage, n: nat)
    requires before.Valid()
  {
    && m.buf == before.Prepare(n + 1) && m.last == Issue(ReadData(n))
    && (m.client == Exec(ExecDone, Some(BodyRead)) || m.client == Body(BodyRead))
  }

  lemma QueryTurn(m: Machine, query: Answer)
    requires AtQuery(m) && Fits(QueryData, query)
    ensures var c, q := query.Result(), Feed(m, query);
            if c.ec == 0 then AtRead(q, m.buf, c.len) else q.last == Complete(c) && q.buf == m.buf
  {
    assert query.Bytes() == [] && Received(m.buf, query) == m.buf;
  }

  lemma ReadFails(m: Machine, before: Storage, n: nat, read: Answer)
    requires before.Valid() && AtRead(m, before, n) && Fits(ReadData(n), read) && read.Result().ec != 0
    ensures Feed(m, read).last == Complete(read.Result())
    ensures Feed(m, read).buf.Committed() == before.Committed()
  {
    PrepareKeeps(before, n + 1);
    EmptyFill(m.buf);
    assert read.Bytes() == [] && Received(m.buf, read) == m.buf;
  }

  lemma ReadEnds(m: Machine, before: Storage, n: nat, read: Answer)
    requires before.Valid() && AtRead(m, before, n) && Fits(ReadData(n), read)
    requires read.Result().ec == 0 && read.Bytes() == []
    ensures Feed(m, read).last == Complete(Completion(0, 0))
    ensures Feed(m, read).buf.Committed() == before.Committed()
    ensures Feed(m, read).buf.size < |Feed(m, read).buf.vec|
  {
    PrepareKeeps(before, n + 1);
    EmptyFill(m.buf);
    assert Received(m.buf, read) == m.buf;
  }

  lemma ReadDelivers(m: Machine, before: Storage, n: nat, read: Answer)
    requires before.Valid() && AtRead(m, before, n) && Fits(ReadData(n), read)
    requires read.Result().ec == 0 && read.Bytes() != []
    ensures AtQuery(Feed(m, read))
    ensures Feed(m, read).buf.Committed() == before.Committed() + read.Bytes()
  {
    PrepareFillCommit(before, n + 1, read.Bytes());
  }

  lemma TwoAnswers(m: Machine, answers: seq<Answer>)
    requires m.buf.Valid() && Accepts(m, answers) && |answers| >= 2
    ensures m.last.Issue? && Fits(m.last.api, answers[0])
    ensures var q := Feed(m, answers[0]);
            && q.last.Issue? && Fits(q.last.api, answers[1])
            && var r, rest := Feed(q, answers[1]), answers[2..];
               && Accepts(r, rest) && Play(m, answers) == Play(r, rest)
               && Trace(m, answers) == [m.last.api, q.last.api] + Trace(r, rest)
               && (!r.last.Issue? ==> rest == [] && Trace(r, rest) == [])
  {
    var q := Feed(m, answers[0]);
    assert Accepts(q, answers[1..]);
    assert answers[1..][0] == answers[1] && answers[1..][1..] == answers[2..];
    assert Accepts(Feed(q, answers[1]), answers[2..]);
  }

  /** The state machine is the loop, whatever WinHTTP answers. */
  lemma {:induction false} ReaderIsLoop(m: Machine, answers: seq<Answer>)
    requires AtQuery(m) && Accepts(m, answers)
    ensures Trace(m, answers) == ReadLoop(answers).calls
    ensures Agrees(ReadLoop(answers), Play(m, answers), m.buf)
    decreases |answers|
  {
    if |answers| >= 2 {
      var query, read := answers[0], answers[1];
      var q := Feed(m, query);
      var r := Feed(q, read);
      TwoAnswers(m, answers);
      QueryTurn(m, query);
      var n := query.Result().len;
      if read.Result().ec != 0 {
        ReadFails(q, m.buf, n, read);
      } else if read.Bytes() == [] {
        ReadEnds(q, m.buf, n, read);
      } else {
        ReadDelivers(q, m.buf, n, read);
        ReaderIsLoop(r, answers[2..]);
        LoopAppends(m.buf.Committed(), answers);
      }
    } else if |answers| == 1 {
      QueryTurn(m, answers[0]);
      PrepareKeeps(m.buf, answers[0].Result().len + 1);
      assert answers[1..] == [];
    }
  }

  lemma LoopAppends(committed: seq<byte>, answers: seq<Answer>)
    requires |answers| >= 2 && answers[0].Result().ec == 0 && answers[1].Result().ec == 0
    requires answers[1].Bytes() != []
    ensures committed + answers[1].Bytes() + ReadLoop(answers[2..]).data == committed + ReadLoop(answers).data
  {
  }

  /** The two calls async_exec makes before it reads the body. */
  lemma ExecOpens(buf: Storage, sent: Answer, received: Answer)
    requires buf.Valid() && Fits(Send, sent) && Fits(ReceiveResponse, received)
    ensures var m, c := Started(Exec(ExecIdle, None), buf), sent.Result();
      var s := Feed(m, sent);
      && m == Machine(Exec(ExecSend, None), buf, Issue(Send)) && s.buf == buf
      && (c.ec != 0 ==> s.last == Complete(c))
      && (c.ec == 0 ==>
            && s == Machine(Exec(ExecReceive, None), buf, Issue(ReceiveResponse))
            && var q, d := Feed(s, received), received.Result();
               && q.buf == buf
               && if d.ec == 0 then AtQuery(q) else q.last == Complete(d))
  {
    assert Received(buf, sent) == buf && Received(buf, received) == buf;
  }

  /** async_exec with the body operation inside it is the plain program. */
  lemma ExecIsProgram(buf: Storage, answers: seq<Answer>)
    requires FreshClient(Exec(ExecIdle, None), buf)
    requires Accepts(Started(Exec(ExecIdle, None), buf), answers)
    ensures Trace(Started(Exec(ExecIdle, None), buf), answers) == ExecProgram(answers).calls
    ensures Agrees(ExecProgram(answers), Play(Started(Exec(ExecIdle, None), buf), answers), buf)
  {
    var m := Started(Exec(ExecIdle, None), buf);
    if |answers| >= 2 {
      TwoAnswers(m, answers);
      ExecOpens(buf, answers[0], answers[1]);
      if answers[1].Result().ec == 0 {
        ReaderIsLoop(Feed(Feed(m, answers[0]), answers[1]), answers[2..]);
      }
    } else if |answers| == 1 {
      ExecOpens(buf, answers[0], Rejected(1));
      assert answers[1..] == [];
    }
  }

  lemma BodyIsLoop(buf: Storage, answers: seq<Answer>)
    requires FreshClient(Body(BodyIdle), buf) && Accepts(Started(Body(BodyIdle), buf), answers)
    ensures Trace(Started(Body(BodyIdle), buf), answers) == ReadLoop(answers).calls
    ensures Agrees(ReadLoop(answers), Play(Started(Body(BodyIdle), buf), answers), buf)
  {
    ReaderIsLoop(Started(Body(BodyIdle), buf), answers);
  }

  // ---- a server that has a body to deliver ----

  /** One answer of a WinHTTP that still has rest of the body to hand over: a
      query announces 0 bytes exactly at the end, and a read of a positive
      number of bytes brings some of them, in order. Errors may come any time. */
  predicate HonestAnswer(rest: seq<byte>, api: Api, a: Answer) {
    && (a.Bytes() != [] ==> api.ReadData? && a.Result().ec == 0)
    && (a.Result().ec == 0 ==>
          match api
          case QueryData => a.Result().len <= |rest| && (a.Result().len == 0 <==> rest == [])
          case ReadData(k) => a.Bytes() <= rest && (a.Bytes() == [] <==> k == 0 || rest == [])
          case _ => true)
  }

  predicate Honest(rest: seq<byte>, calls: seq<Api>, answers: seq<Answer>)
    requires |answers| <= |calls|
    decreases |answers|
  {
    answers == []
    || (&& HonestAnswer(rest, calls[0], answers[0])
        && |answers[0].Bytes()| <= |rest|
        && Honest(rest[|answers[0].Bytes()|..], calls[1..], answers[1..]))
  }

  /** One round of the loop against an honest server. */
  lemma HonestRound(rest: seq<byte>, answers: seq<Answer>)
    requires |answers| >= 2 && |answers| <= |ReadLoop(answers).calls|
    requires Honest(rest, ReadLoop(answers).calls, answers)
    requires answers[0].Result().ec == 0 && answers[1].Result().ec == 0
    ensures answers[1].Bytes() <= rest
    ensures answers[1].Bytes() == [] <==> rest == []
    ensures answers[1].Bytes() != [] ==>
              && |answers[2..]| <= |ReadLoop(answers[2..]).calls|
              && Honest(rest[|answers[1].Bytes()|..], ReadLoop(answers[2..]).calls, answers[2..])
  {
    var calls := ReadLoop(answers).calls;
    var n := answers[0].Result().len;
    assert calls[0] == QueryData && calls[1] == ReadData(n);
    assert rest[0..] == rest;
    assert Honest(rest, calls[1..], answers[1..]);
    assert answers[1..][0] == answers[1] && answers[1..][1..] == answers[2..];
    assert calls[1..][0] == calls[1] && calls[1..][1..] == calls[2..];
    if answers[1].Bytes() != [] {
      assert calls[2..] == ReadLoop(answers[2..]).calls;
    }
  }

  /** Every split of the body into query and read answers is put together
      again: what has been read is a prefix, all of it on success, and the
      number of answers is bounded by the length of the body. */
  lemma {:induction false} LoopReassembles(rest: seq<byte>, answers: seq<Answer>)
    requires |answers| <= |ReadLoop(answers).calls|
    requires Honest(rest, ReadLoop(answers).calls, answers)
    ensures ReadLoop(answers).data <= rest
    ensures ReadLoop(answers).verdict == Some(Completion(0, 0)) ==> ReadLoop(answers).data == rest
    ensures |answers| <= 2 * |rest| + 2
    decreases |answers|
  {
    if |answers| >= 2 {
      var d := answers[1].Bytes();
      if answers[0].Result().ec == 0 && answers[1].Result().ec == 0 {
        HonestRound(rest, answers);
        if d != [] {
          LoopReassembles(rest[|d|..], answers[2..]);
          assert rest == d + rest[|d|..];
        }
      }
    }
  }

  lemma ExecReassembles(body: seq<byte>, answers: seq<Answer>)
    requires |answers| <= |ExecProgram(answers).calls|
    requires Honest(body, ExecProgram(answers).calls, answers)
    ensures ExecProgram(answers).data <= body
    ensures ExecProgram(answers).verdict == Some(Completion(0, 0)) ==> ExecProgram(answers).data == body
    ensures |answers| <= 2 * |body| + 4
  {
    if |answers| >= 2 && answers[0].Result().ec == 0 && answers[1].Result().ec == 0 {
      var calls := ExecProgram(answers).calls;
      assert body[0..] == body;
      assert Honest(body, calls[1..], answers[1..]);
      assert answers[1..][0] == answers[1] && answers[1..][1..] == answers[2..];
      assert calls[1..][0] == calls[1] && calls[1..][1..] == calls[2..] == ReadLoop(answers[2..]).calls;
      LoopReassembles(body, answers[2..]);
    }
  }

  /** A successful verdict carries no length. */
  lemma {:induction false} LoopEndsWithoutLength(answers: seq<Answer>)
    ensures var v := ReadLoop(answers).verdict;
      v.Some? && v.value.ec == 0 ==> v == Some(Completion(0, 0))
    decreases |answers|
  {
    if |answers| >= 2 && answers[0].Result().ec == 0 && answers[1].Result().ec == 0 && answers[1].Bytes() != [] {
      LoopEndsWithoutLength(answers[2..]);
    }
  }

  // ---- the shape of the call sequence ----

  predicate LoopShape(calls: seq<Api>) {
    forall i :: 0 <= i < |calls| ==> if i % 2 == 0 then calls[i] == QueryData else calls[i].ReadData?
  }

  /** Send, receive, then query and read in turn, or a prefix of that. */
  predicate ExecShape(calls: seq<Api>) {
    && (|calls| >= 1 ==> calls[0] == Send)
    && (|calls| >= 2 ==> calls[1] == ReceiveResponse && LoopShape(calls[2..]))
  }

  /** Every answer but the last is a success, and a verdict that is an error is
      the last answer's: nothing is called after the first error. */
  predicate StopsAtError(o: Outcome, answers: seq<Answer>) {
    && |answers| <= |o.calls| <= |answers| + 1
    && (o.verdict.Some? <==> |o.calls| == |answers|)
    && (forall i :: 0 <= i < |answers| - 1 ==> answers[i].Result().ec == 0)
    && (answers != [] && answers[|answers| - 1].Result().ec != 0 <==>
        o.verdict.Some? && o.verdict.value.ec != 0)
    && (o.verdict.Some? && o.verdict.value.ec != 0 ==>
          answers != [] && o.verdict.value == answers[|answers| - 1].Result())
  }

  lemma {:induction false} LoopHasShape(answers: seq<Answer>)
    ensures LoopShape(ReadLoop(answers).calls)
    decreases |answers|
  {
    if |answers| >= 2 && answers[0].Result().ec == 0 && answers[1].Result().ec == 0 && answers[1].Bytes() != [] {
      var rest := answers[2..];
      LoopHasShape(rest);
      assert forall i :: 2 <= i < |ReadLoop(answers).calls| ==>
          ReadLoop(answers).calls[i] == ReadLoop(rest).calls[i - 2] && (i - 2) % 2 == i % 2;
    }
  }

  lemma {:induction false} LoopStops(answers: seq<Answer>)
    requires |answers| <= |ReadLoop(answers).calls|
    ensures StopsAtError(ReadLoop(answers), answers)
    decreases |answers|
  {
    if |answers| >= 2 && answers[0].Result().ec == 0 && answers[1].Result().ec == 0 && answers[1].Bytes() != [] {
      var rest := answers[2..];
      LoopStops(rest);
      assert forall i :: 2 <= i < |answers| ==> answers[i] == rest[i - 2];
    }
  }

  lemma ExecStops(answers: seq<Answer>)
    requires |answers| <= |ExecProgram(answers).calls|
    ensures ExecShape(ExecProgram(answers).calls) && StopsAtError(ExecProgram(answers), answers)
  {
    if |answers| >= 2 && answers[0].Result().ec == 0 && answers[1].Result().ec == 0 {
      var rest := answers[2..];
      LoopHasShape(rest);
      LoopStops(rest);
      assert ExecProgram(answers).calls[2..] == ReadLoop(rest).calls;
      assert forall i :: 2 <= i < |answers| ==> answers[i] == rest[i - 2];
    }
  }

  /** Call i, if it is a read, asks for what the query before it has announced. */
  predicate Announced(calls: seq<Api>, answers: seq<Answer>, i: nat)
    requires i < |calls|
  {
    calls[i].ReadData? ==>
      && 0 < i <= |answers| && answers[i - 1].Accepted? && answers[i - 1].notice.DataReady?
      && calls[i] == ReadData(answers[i - 1].notice.value)
  }

  /** The answers fit the calls they were given to. */
  predicate AllFit(calls: seq<Api>, answers: seq<Answer>) {
    |answers| <= |calls| && forall i :: 0 <= i < |answers| ==> Fits(calls[i], answers[i])
  }

  lemma TwoCallsLater(calls: seq<Api>, answers: seq<Answer>, i: nat)
    requires 2 <= i < |calls| && |answers| >= 2 && AllFit(calls, answers)
    ensures AllFit(calls[2..], answers[2..])
    ensures Announced(calls[2..], answers[2..], i - 2) ==> Announced(calls, answers, i)
  {
    assert forall j :: 0 <= j < |answers| - 2 ==> answers[2..][j] == answers[j + 2] && calls[2..][j] == calls[j + 2];
    assert calls[i] == calls[2..][i - 2];
    if i >= 3 && i - 3 < |answers| - 2 {
      assert answers[i - 1] == answers[2..][i - 3];
    }
  }

  lemma {:induction false} LoopReadsAnnounced(answers: seq<Answer>, i: nat)
    requires AllFit(ReadLoop(answers).calls, answers) && i < |ReadLoop(answers).calls|
    ensures Announced(ReadLoop(answers).calls, answers, i)
    decreases |answers|
  {
    var calls := ReadLoop(answers).calls;
    if answers != [] {
      assert Fits(calls[0], answers[0]);
    }
    if i >= 2 {
      assert calls[2..] == ReadLoop(answers[2..]).calls;
      TwoCallsLater(calls, answers, i);
      LoopReadsAnnounced(answers[2..], i - 2);
    }
  }

  lemma ExecReadsAnnounced(answers: seq<Answer>, i: nat)
    requires AllFit(ExecProgram(answers).calls, answers) && i < |ExecProgram(answers).calls|
    ensures Announced(ExecProgram(answers).calls, answers, i)
  {
    if i >= 2 {
      var calls := ExecProgram(answers).calls;
      assert |answers| >= 2 && calls[2..] == ReadLoop(answers[2..]).calls;
      TwoCallsLater(calls, answers, i);
      LoopReadsAnnounced(answers[2..], i - 2);
    }
  }
}
