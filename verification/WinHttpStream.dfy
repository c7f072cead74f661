/** The two ways to read a body, async_read_body and repeated async_read_some,
    against the same server. */
module WinHttpStream {
  import opened Basics
  import opened DynamicBuffers
  import opened WinHttpContext
  import opened WinHttpOps
  import opened WinHttpSystem
  import opened WinHttpBody

  // ---- async_read_body ----

  /** Whatever the split into queries and reads, async_read_body appends the
      body, or a prefix of it when it fails, to what the buffer held. */
  lemma ReadBodyReassembles(buf: Storage, body: seq<byte>, answers: seq<Answer>)
    requires FreshClient(Body(BodyIdle), buf)
    requires var m0 := Started(Body(BodyIdle), buf);
      Accepts(m0, answers) && |answers| <= |Trace(m0, answers)| && Honest(body, Trace(m0, answers), answers)
    ensures var m := Play(Started(Body(BodyIdle), buf), answers);
      && |answers| <= 2 * |body| + 2
      && (exists d :: d <= body && m.buf.Committed() == buf.Committed() + d)
      && (m.last.Complete? && m.last.result.ec == 0 ==>
            m.buf.Committed() == buf.Committed() + body && m.buf.size < |m.buf.vec|)
      && (m.last.Complete? && m.last.result.ec != 0 ==>
            answers != [] && m.last.result == answers[|answers| - 1].Result())
  {
    BodyIsLoop(buf, answers);
    LoopReassembles(body, answers);
    LoopStops(answers);
    var m := Play(Started(Body(BodyIdle), buf), answers);
    var o := ReadLoop(answers);
    assert o.data <= body && m.buf.Committed() == buf.Committed() + o.data;
    if m.last.Complete? && m.last.result.ec == 0 {
      LoopEndsWithoutLength(answers);
    }
  }

  // ---- async_read_some ----

  /** One async_read_some: the caller's memory and the answers it met. */
  datatype Session = Session(memory: seq<byte>, answers: seq<Answer>) {

    function Begun(): (m: Machine)
      ensures m.buf.Valid()
    {
      Started(ReadSome(SomeIdle, |memory|), Storage(memory, 0))
    }

    function End(): (m: Machine)
      ensures m.buf.Valid()
    {
      Play(Begun(), answers)
    }

    /** The operation has run to completion against a server with rest to go. */
    predicate Completed(rest: seq<byte>) {
      && Accepts(Begun(), answers) && |answers| <= |Trace(Begun(), answers)|
      && Honest(rest, Trace(Begun(), answers), answers)
      && End().last.Complete?
    }

    /** What the caller takes from its memory: as many bytes as the handler was
        told, none after an error. */
    function Got(): seq<byte> {
      if End().last.Complete? && End().last.result.ec == 0 && End().last.result.len <= |End().buf.vec|
      then End().buf.vec[..End().last.result.len]
      else []
    }
  }

  lemma SessionQuery(s: Session, rest: seq<byte>)
    requires s.Completed(rest)
    ensures s.answers != []
    ensures s.Begun() == Machine(ReadSome(SomeQuery, |s.memory|), Storage(s.memory, 0), Issue(QueryData))
    ensures Received(s.Begun().buf, s.answers[0]) == s.Begun().buf
    ensures Fits(QueryData, s.answers[0]) && HonestAnswer(rest, QueryData, s.answers[0])
    ensures s.answers[0].Result().ec != 0 ==>
      s.End().last == Complete(s.answers[0].Result()) && s.End().buf == s.Begun().buf
    ensures if s.answers[0].Result().ec == 0 then |s.answers| >= 2 else |s.answers| == 1
  {
    var m, a := s.Begun(), s.answers;
    assert a != [];
    assert Received(m.buf, a[0]) == m.buf;
    var q := Feed(m, a[0]);
    assert Accepts(q, a[1..]) && s.End() == Play(q, a[1..]);
    if a[0].Result().ec == 0 {
      assert a[1..] != [];
    } else {
      assert a[1..] == [];
    }
  }

  lemma HonestTail(rest: seq<byte>, calls: seq<Api>, answers: seq<Answer>)
    requires 2 <= |answers| <= |calls| && Honest(rest, calls, answers) && answers[0].Bytes() == []
    ensures HonestAnswer(rest, calls[1], answers[1])
  {
    assert rest[0..] == rest && Honest(rest, calls[1..], answers[1..]);
    assert answers[1..][0] == answers[1] && calls[1..][0] == calls[1];
  }

  /** The two answers of a session, fed to its machine. */
  lemma SomeFeeds(memory: seq<byte>, query: Answer, read: Answer)
    requires Fits(QueryData, query) && query.Result().ec == 0
    ensures var n, m := Min(query.Result().len, |memory|), Storage(memory, 0);
      var q := Feed(Started(ReadSome(SomeIdle, |memory|), m), query);
      && q == Machine(ReadSome(SomeRead, |memory|), m, Issue(ReadData(n)))
      && Feed(q, read) == Machine(ReadSome(if read.Result().ec == 0 then SomeDone else SomeRead, |memory|),
                                  Received(m, read), Complete(read.Result()))
  {
    EmptyFill(Storage(memory, 0));
  }

  lemma SessionRead(s: Session, rest: seq<byte>)
    requires s.Completed(rest) && s.answers != [] && s.answers[0].Result().ec == 0
    ensures |s.answers| == 2
    ensures var n, read := Min(s.answers[0].Result().len, |s.memory|), s.answers[1];
      && Fits(ReadData(n), read) && HonestAnswer(rest, ReadData(n), read)
      && s.End() == Machine(ReadSome(if read.Result().ec == 0 then SomeDone else SomeRead, |s.memory|),
                            Received(s.Begun().buf, read), Complete(read.Result()))
  {
    SessionQuery(s, rest);
    var m, a := s.Begun(), s.answers;
    SomeFeeds(s.memory, a[0], a[1]);
    TwoAnswers(m, a);
    HonestTail(rest, Trace(m, a), a);
    assert a[2..] == [];
  }

  lemma ReceivedInFront(memory: seq<byte>, a: Answer)
    requires |a.Bytes()| <= |memory|
    ensures var v := Received(Storage(memory, 0), a).vec;
      |v| == |memory| && v[..|a.Bytes()|] == a.Bytes()
  {
  }

  /** A session whose read succeeds: its bytes are at the front of the memory. */
  lemma SessionGets(s: Session, rest: seq<byte>)
    requires s.Completed(rest) && |s.answers| == 2
    requires s.answers[0].Result().ec == 0 && s.answers[1].Result().ec == 0
    ensures s.Got() == s.answers[1].Bytes() && |s.Got()| <= |s.memory|
    ensures s.End().last.result == Completion(0, |s.Got()|) && |s.End().buf.vec| == |s.memory|
  {
    SessionRead(s, rest);
    ReceivedInFront(s.memory, s.answers[1]);
  }

  /** One session returns the next bytes of the body, at most as many as the
      buffer holds, and says 0 exactly when there is nothing left to read or no
      room to read into. */
  lemma SessionReadsNext(s: Session, rest: seq<byte>)
    requires s.Completed(rest)
    ensures s.Got() <= rest && |s.Got()| <= |s.memory|
    ensures s.End().last.result.ec == 0 ==>
      && s.End().last.result.len == |s.Got()|
      && (s.Got() == [] <==> rest == [] || s.memory == [])
    ensures |s.End().buf.vec| == |s.memory|
  {
    SessionQuery(s, rest);
    if s.answers[0].Result().ec == 0 {
      SessionRead(s, rest);
      if s.answers[1].Result().ec == 0 {
        SessionGets(s, rest);
      } else {
        ReceivedInFront(s.memory, s.answers[1]);
      }
    }
  }

  /** The handler is told the last answer's error or length. */
  lemma SessionTellsLastAnswer(s: Session, rest: seq<byte>)
    requires s.Completed(rest)
    ensures s.answers != []
    ensures s.End().last.result ==
      match s.answers[|s.answers| - 1]
      case Rejected(e) => Completion(e, 0)
      case Accepted(RequestError(_, e), _) => Completion(e, 0)
      case Accepted(_, d) => Completion(0, |d|)
  {
    SessionQuery(s, rest);
    if s.answers[0].Result().ec == 0 {
      SessionRead(s, rest);
    }
  }

  lemma CallsOfRead(s: Session, rest: seq<byte>)
    requires s.Completed(rest) && s.answers != [] && s.answers[0].Result().ec == 0
    ensures Trace(s.Begun(), s.answers) == [QueryData, ReadData(Min(s.answers[0].Result().len, |s.memory|))]
  {
    SessionQuery(s, rest);
    SessionRead(s, rest);
    SomeFeeds(s.memory, s.answers[0], s.answers[1]);
    TwoAnswers(s.Begun(), s.answers);
  }

  lemma CallsOfFailure(s: Session, rest: seq<byte>)
    requires s.Completed(rest) && s.answers != [] && s.answers[0].Result().ec != 0
    ensures Trace(s.Begun(), s.answers) == [QueryData]
  {
    SessionQuery(s, rest);
    var q := Feed(s.Begun(), s.answers[0]);
    assert q.last.Complete? && Trace(q, s.answers[1..]) == [];
  }

  /** The calls of a session: a query, and then one read for what was announced,
      or for the size of the caller's memory if that is less. */
  lemma SessionCalls(s: Session, rest: seq<byte>)
    requires s.Completed(rest)
    ensures Trace(s.Begun(), s.answers) ==
      match s.answers[0]
      case Accepted(DataReady(_, v), _) => [QueryData, ReadData(if v <= |s.memory| then v else |s.memory|)]
      case _ => [QueryData]
  {
    SessionQuery(s, rest);
    if s.answers[0].Result().ec == 0 {
      CallsOfRead(s, rest);
    } else {
      CallsOfFailure(s, rest);
    }
  }

  /** What a caller collects over a list of sessions. */
  function Output(ss: seq<Session>): seq<byte> {
    if ss == [] then [] else ss[0].Got() + Output(ss[1..])
  }

  /** Sessions one after the other on the same response. */
  predicate ReadThrough(rest: seq<byte>, ss: seq<Session>) {
    ss == []
    || (ss[0].Completed(rest) && |ss[0].Got()| <= |rest| && ReadThrough(rest[|ss[0].Got()|..], ss[1..]))
  }

  lemma {:induction false} OutputInOrder(body: seq<byte>, ss: seq<Session>)
    requires ReadThrough(body, ss)
    ensures Output(ss) <= body
    decreases |ss|
  {
    if ss != [] {
      SessionReadsNext(ss[0], body);
      var rest := body[|ss[0].Got()|..];
      assert body == ss[0].Got() + rest;
      OutputInOrder(rest, ss[1..]);
    }
  }

  lemma SkipTwice(body: seq<byte>, d: seq<byte>, out: seq<byte>)
    requires d <= body && out <= body[|d|..]
    ensures d + out <= body && body[|d|..][|out|..] == body[|d + out|..]
  {
    assert body == d + body[|d|..];
  }

  lemma OutputStep(ss: seq<Session>, k: nat)
    requires 0 < k <= |ss|
    ensures Output(ss[..k]) == ss[0].Got() + Output(ss[1..][..k - 1])
  {
    assert ss[..k][0] == ss[0] && ss[..k][1..] == ss[1..][..k - 1];
  }

  /** Each session finds the body where the ones before it left it. */
  lemma {:induction false} SessionAt(body: seq<byte>, ss: seq<Session>, k: nat)
    requires ReadThrough(body, ss) && k < |ss|
    ensures Output(ss[..k]) <= body && ss[k].Completed(body[|Output(ss[..k])|..])
    decreases |ss|
  {
    if k == 0 {
      assert Output(ss[..0]) == [] && body[0..] == body;
    } else {
      SessionReadsNext(ss[0], body);
      SessionAt(body[|ss[0].Got()|..], ss[1..], k - 1);
      OutputStep(ss, k);
      SkipTwice(body, ss[0].Got(), Output(ss[1..][..k - 1]));
    }
  }

  /** Repeated async_read_some yields the body in order; a session with room
      answers 0 exactly when everything has been handed over before it. */
  lemma SessionsReadInOrder(body: seq<byte>, ss: seq<Session>, k: nat)
    requires ReadThrough(body, ss) && k < |ss|
    ensures Output(ss) <= body && Output(ss[..k]) <= body
    ensures |ss[k].Got()| <= |ss[k].memory|
    ensures ss[k].memory != [] && ss[k].End().last.Complete? && ss[k].End().last.result.ec == 0 ==>
      (ss[k].End().last.result.len == 0 <==> Output(ss[..k]) == body)
  {
    OutputInOrder(body, ss);
    SessionAt(body, ss, k);
    SessionReadsNext(ss[k], body[|Output(ss[..k])|..]);
    assert body == Output(ss[..k]) + body[|Output(ss[..k])|..];
  }

  lemma {:induction false} OutputGrows(ss: seq<Session>)
    requires ss != []
    ensures Output(ss[..|ss| - 1]) <= Output(ss)
    decreases |ss|
  {
    if |ss| > 1 {
      OutputGrows(ss[1..]);
      assert ss[..|ss| - 1][1..] == ss[1..][..|ss| - 2];
    }
  }

  /** The sessions have handed over the whole body once one with room says 0. */
  lemma OutputIsBody(body: seq<byte>, ss: seq<Session>)
    requires ReadThrough(body, ss) && ss != []
    requires var last := ss[|ss| - 1];
      last.memory != [] && last.End().last.Complete? && last.End().last.result == Completion(0, 0)
    ensures Output(ss) == body
  {
    SessionsReadInOrder(body, ss, |ss| - 1);
    OutputGrows(ss);
  }

  /** The two readers agree: once a session with room has returned 0, all
      sessions together have handed over exactly the bytes a successful
      async_read_body commits, for every split either of them meets. */
  lemma ReadersAgree(body: seq<byte>, buf: Storage, answers: seq<Answer>, ss: seq<Session>)
    requires FreshClient(Body(BodyIdle), buf)
    requires var m0 := Started(Body(BodyIdle), buf);
      && Accepts(m0, answers) && |answers| <= |Trace(m0, answers)| && Honest(body, Trace(m0, answers), answers)
      && Play(m0, answers).last.Complete? && Play(m0, answers).last.result.ec == 0
    requires ReadThrough(body, ss) && ss != []
    requires var last := ss[|ss| - 1];
      last.memory != [] && last.End().last.Complete? && last.End().last.result == Completion(0, 0)
    ensures Play(Started(Body(BodyIdle), buf), answers).buf.Committed() == buf.Committed() + Output(ss)
  {
    ReadBodyReassembles(buf, body, answers);
    OutputIsBody(body, ss);
  }

  // ---- async_write_some ----

  /** One async_write_some: the caller's buffer and the answers it met. */
  datatype Write = Write(offered: seq<byte>, answers: seq<Answer>) {

    function Begun(): (m: Machine)
      ensures m.buf.Valid()
    {
      Started(WriteSome(WriteIdle, |offered|), Storage([], 0))
    }

    function End(): (m: Machine)
      ensures m.buf.Valid()
    {
      Play(Begun(), answers)
    }

    predicate Met() {
      Accepts(Begun(), answers) && |answers| <= |Trace(Begun(), answers)|
    }

    /** The length its handler was told; none after an error. */
    function Length(): nat {
      if End().last.Complete? && End().last.result.ec == 0 then End().last.result.len else 0
    }

    /** The number in WinHTTP's own notice; none without one. */
    function Noticed(): nat {
      if |answers| == 1 && answers[0].Accepted? && answers[0].notice.WriteDone? then answers[0].notice.value else 0
    }

    /** What WinHTTP has taken from the front of the buffer, by its own count. */
    function Taken(): seq<byte> {
      if Noticed() <= |offered| then offered[..Noticed()] else []
    }
  }

  /** One call is made, for the whole buffer exactly when its size is a DWORD;
      the length reported never exceeds the buffer. */
  lemma WriteSomeOffersBuffer(total: nat, answers: seq<Answer>)
    requires var m0 := Started(WriteSome(WriteIdle, total), Storage([], 0));
      Accepts(m0, answers) && |answers| <= |Trace(m0, answers)|
    ensures var m0 := Started(WriteSome(WriteIdle, total), Storage([], 0));
      var m := Play(m0, answers);
      && (exists k: nat :: k <= total && Trace(m0, answers) == [WriteData(k)] && (k == total <==> total < DWORD_RANGE))
      && (m.last.Complete? <==> |answers| == 1)
      && (m.last.Complete? ==>
            && m.last.result.len <= total
            && match answers[0]
               case Rejected(e) => m.last.result == Completion(e, 0)
               case Accepted(RequestError(_, e), _) => m.last.result == Completion(e, 0)
               case Accepted(n, _) => n.WriteDone? && m.last.result == Completion(0, n.value))
  {
    var m0 := Started(WriteSome(WriteIdle, total), Storage([], 0));
    var k := total % DWORD_RANGE;
    assert m0.last == Issue(WriteData(k));
    if answers != [] {
      assert Accepts(Feed(m0, answers[0]), answers[1..]);
      assert answers[1..] == [];
    }
    assert k <= total && Trace(m0, answers) == [WriteData(k)] && (k == total <==> total < DWORD_RANGE);
  }

  /** Writes one after the other, each completed and each offering some of what
      the ones before it have left. */
  predicate WriteThrough(rest: seq<byte>, ws: seq<Write>) {
    ws == []
    || (&& ws[0].Met() && ws[0].End().last.Complete? && ws[0].offered <= rest
        && WriteThrough(rest[|ws[0].Taken()|..], ws[1..]))
  }

  function Sent(ws: seq<Write>): seq<byte> {
    if ws == [] then [] else ws[0].Taken() + Sent(ws[1..])
  }

  /** The lengths the handlers were told, which a composed write adds up. */
  function Reported(ws: seq<Write>): nat {
    if ws == [] then 0 else ws[0].Length() + Reported(ws[1..])
  }

  /** The length the handler was told is what has been taken. */
  lemma TakenIsReported(w: Write)
    requires w.Met() && w.End().last.Complete?
    ensures w.Taken() == w.offered[..|w.Taken()|] && |w.Taken()| == w.Length() == w.Noticed()
  {
    WriteSomeOffersBuffer(|w.offered|, w.answers);
  }

  lemma TakeMore(data: seq<byte>, offered: seq<byte>, n: nat, more: nat)
    requires offered <= data && n <= |offered| && more <= |data| - n
    ensures offered[..n] + data[n..][..more] == data[..n + more]
  {
  }

  /** A sequence of writes hands the data over in order, without a gap: as many
      bytes from the front as were reported, all of it exactly when the reports
      add up to its length. */
  lemma {:induction false} WritesInOrder(data: seq<byte>, ws: seq<Write>)
    requires WriteThrough(data, ws)
    ensures Reported(ws) <= |data| && Sent(ws) == data[..Reported(ws)]
    ensures Sent(ws) == data <==> Reported(ws) == |data|
    decreases |ws|
  {
    if ws != [] {
      TakenIsReported(ws[0]);
      var n := ws[0].Length();
      WritesInOrder(data[n..], ws[1..]);
      TakeMore(data, ws[0].offered, n, Reported(ws[1..]));
    }
  }

  /** If each of them takes something, there are no more writes than bytes. */
  lemma {:induction false} WritesAreBounded(data: seq<byte>, ws: seq<Write>)
    requires WriteThrough(data, ws) && forall w :: w in ws ==> w.Taken() != []
    ensures |ws| <= |data|
    decreases |ws|
  {
    if ws != [] {
      assert ws[0] in ws && forall w :: w in ws[1..] ==> w in ws;
      WritesAreBounded(data[|ws[0].Taken()|..], ws[1..]);
    }
  }
}
