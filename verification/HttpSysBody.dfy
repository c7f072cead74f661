/** Receiving a request body: a size hint, short answers, a one-byte probe for
    the end of file, and what all that costs. */
module HttpSysBody {
  import opened Basics
  import opened DynamicBuffers
  import opened HttpSysReceive
  import Overlapped

  /** What becomes of a receive: a completion packet, or a refusal by the system
      call itself, which carries no bytes. */
  datatype KernelAnswer =
    | Data(data: seq<byte>)
    | EndOfFile(tail: seq<byte>)
    | Failed(error: ErrorCode, transferred: nat)
    | Refused(error: ErrorCode)
  {
    function Bytes(): seq<byte> {
      match this
      case Data(d) => d
      case EndOfFile(t) => t
      case _ => []
    }

    function Result(): Completion {
      match this
      case Data(d) => Completion(0, |d|)
      case EndOfFile(t) => Completion(ERROR_HANDLE_EOF, |t|)
      case Failed(e, n) => Completion(e, n)
      case Refused(e) => Overlapped.Completed(Overlapped.ReceiveBody, Overlapped.Failure(e))
    }
  }

  /** What the kernel may answer while rest of the body is still to come: some
      bytes if there are any and room for them, or the end of file with the last
      tail, or an error. A receive is refused with the end of file only if nothing
      is left. */
  predicate MayAnswer(rest: seq<byte>, asked: nat, a: KernelAnswer) {
    && a.Bytes() <= rest && |a.Bytes()| <= asked
    && match a
       case Data(d) => d == [] ==> asked == 0
       case EndOfFile(t) => t == rest
       case Failed(e, _) => e != 0 && e != ERROR_HANDLE_EOF
       case Refused(e) => e != 0 && (e == ERROR_HANDLE_EOF ==> rest == [])
  }

  function Begin(hint: nat, buf: Storage): (r: Rx)
    requires buf.Valid()
    ensures r.buf.Valid()
  {
    var (st, b, a) := BodyStep(hint, RxIdle, buf, Completion(0, 0));
    Rx(st, b, a)
  }

  function Feed(hint: nat, rx: Rx, a: KernelAnswer): (r: Rx)
    requires rx.buf.Valid()
    ensures r.buf.Valid()
  {
    var d := a.Bytes();
    var b := if rx.buf.size + |d| <= |rx.buf.vec| then rx.buf.Fill(d) else rx.buf;
    var (st, b', act) := BodyStep(hint, rx.st, b, a.Result());
    Rx(st, b', act)
  }

  function Play(hint: nat, rx: Rx, answers: seq<KernelAnswer>): (r: Rx)
    requires rx.buf.Valid()
    ensures r.buf.Valid()
    decreases |answers|
  {
    if answers == [] then rx else Play(hint, Feed(hint, rx, answers[0]), answers[1..])
  }

  /** Each answer is one the kernel may give, with what is left by then. */
  predicate Accepted(hint: nat, rx: Rx, rest: seq<byte>, answers: seq<KernelAnswer>)
    requires rx.buf.Valid()
    decreases |answers|
  {
    answers == []
    || (&& rx.last.AskBody? && MayAnswer(rest, rx.last.size, answers[0])
        && Accepted(hint, Feed(hint, rx, answers[0]), rest[|answers[0].Bytes()|..], answers[1..]))
  }

  /** Asking for at most what the prepared area holds. */
  predicate Asking(rx: Rx) {
    && rx.st == Receiving && rx.last.AskBody?
    && rx.buf.size + rx.last.size <= |rx.buf.vec| && rx.last.size < DWORD_RANGE
  }

  /** One answer: its bytes are committed, unless it is an error; then either
      the next receive is under way or the operation is complete. */
  lemma OneAnswer(hint: nat, rx: Rx, rest: seq<byte>, a: KernelAnswer)
    requires Asking(rx) && MayAnswer(rest, rx.last.size, a)
    ensures var r := Feed(hint, rx, a);
      && r.buf.Committed() == rx.buf.Committed() + a.Bytes()
      && match a
         case Data(d) =>
           var next := if |d| < hint then 1 else hint;
           && Asking(r) && r.last.size == next % DWORD_RANGE
           && r.buf.size == rx.buf.size + |d| && |r.buf.vec| == r.buf.size + next
         case EndOfFile(t) =>
           r.last == Complete(Completion(0, |t|)) && r.buf == Storage(rx.buf.Committed() + t, rx.buf.size + |t|)
         case Failed(e, n) => r.last == Complete(Completion(e, n))
         case Refused(e) =>
           if e == ERROR_HANDLE_EOF then
             r.last == Complete(Completion(0, 0)) && r.buf == Storage(rx.buf.Committed(), rx.buf.size)
           else r.last == Complete(Completion(e, 0))
  {
    var d := a.Bytes();
    var f := rx.buf.Fill(d);
    assert f.vec[..f.size + |d|] == rx.buf.Committed() + d;
    assert f.Commit(|d|) == Storage(rx.buf.Committed() + d, rx.buf.size + |d|);
    if d == [] {
      EmptyFill(rx.buf);
      assert rx.buf.Committed() + [] == rx.buf.Committed();
    }
  }

  function Gathered(answers: seq<KernelAnswer>): seq<byte> {
    if answers == [] then [] else answers[0].Bytes() + Gathered(answers[1..])
  }

  /** What a kernel has handed over is a prefix of the body, and all of it once
      it reports the end of file. */
  lemma {:induction false} GatheredIsPrefix(hint: nat, rx: Rx, rest: seq<byte>, answers: seq<KernelAnswer>)
    requires Asking(rx) && Accepted(hint, rx, rest, answers)
    ensures Gathered(answers) <= rest
    ensures var r := Play(hint, rx, answers);
      r.last.Complete? && r.last.result.ec == 0 ==> Gathered(answers) == rest
    decreases |answers|
  {
    if answers != [] {
      var a := answers[0];
      OneAnswer(hint, rx, rest, a);
      assert rest == a.Bytes() + rest[|a.Bytes()|..];
      if a.Data? {
        GatheredIsPrefix(hint, Feed(hint, rx, a), rest[|a.Bytes()|..], answers[1..]);
      } else {
        assert answers[1..] == [];
      }
    }
  }

  /** The operation commits what the kernel hands over; after a success the
      vector is trimmed to it and the length reported is that of the last answer
      only. */
  lemma {:induction false} CommitsGathered(hint: nat, rx: Rx, rest: seq<byte>, answers: seq<KernelAnswer>)
    requires Asking(rx) && Accepted(hint, rx, rest, answers)
    ensures var r := Play(hint, rx, answers);
      && r.buf.Committed() == rx.buf.Committed() + Gathered(answers)
      && (r.last.Complete? && r.last.result.ec == 0 ==>
            && |r.buf.vec| == r.buf.size
            && answers != [] && r.last.result.len == |answers[|answers| - 1].Bytes()|)
    decreases |answers|
  {
    if answers != [] {
      var a := answers[0];
      OneAnswer(hint, rx, rest, a);
      if a.Data? {
        CommitsGathered(hint, Feed(hint, rx, a), rest[|a.Bytes()|..], answers[1..]);
        assert answers[1..] != [] ==> answers[|answers| - 1] == answers[1..][|answers| - 2];
      } else {
        assert answers[1..] == [];
      }
    }
  }

  /** What the operation does next, or completes with, by its last answer: it asks
      for the hint again after an answer of that size, and for one byte after a
      shorter one; the end of file (38) is a success with the length of its tail;
      any other error is reported. */
  lemma {:induction false} LastAnswerDecides(hint: nat, rx: Rx, rest: seq<byte>, answers: seq<KernelAnswer>)
    requires Asking(rx) && Accepted(hint, rx, rest, answers) && answers != []
    ensures var a := Play(hint, rx, answers).last;
      match answers[|answers| - 1]
      case Data(d) => a == AskBody(if |d| >= hint then hint % DWORD_RANGE else 1)
      case EndOfFile(t) => a == Complete(Completion(0, |t|))
      case Failed(e, n) => a == Complete(Completion(e, n))
      case Refused(e) => a == Complete(Completion(if e == 38 then 0 else e, 0))
    decreases |answers|
  {
    var a, more := answers[0], answers[1..];
    OneAnswer(hint, rx, rest, a);
    assert Play(hint, rx, answers) == Play(hint, Feed(hint, rx, a), more);
    if more != [] {
      assert a.Data? && more[|more| - 1] == answers[|answers| - 1];
      LastAnswerDecides(hint, Feed(hint, rx, a), rest[|a.Bytes()|..], more);
    }
  }

  /** Every answer but the last brings at least one byte, except that the first
      receive of a hint that is a multiple of 2^32 asks for nothing. */
  lemma {:induction false} ReceivesAreBounded(hint: nat, rx: Rx, rest: seq<byte>, answers: seq<KernelAnswer>)
    requires hint > 0 && Asking(rx) && Accepted(hint, rx, rest, answers)
    ensures |answers| <= |rest| + (if rx.last.size == 0 then 2 else 1)
    decreases |answers|
  {
    if answers != [] {
      var a := answers[0];
      OneAnswer(hint, rx, rest, a);
      if a.Data? {
        ReceivesAreBounded(hint, Feed(hint, rx, a), rest[|a.Bytes()|..], answers[1..]);
      } else {
        assert answers[1..] == [];
      }
    }
  }

  /** For every hint and every way the kernel splits the body: after a success
      the buffer is what it had committed followed by the body and nothing else;
      at any other time, a prefix of the body follows. */
  lemma BodyReassembles(hint: nat, buf: Storage, body: seq<byte>, answers: seq<KernelAnswer>)
    requires buf.Valid() && Accepted(hint, Begin(hint, buf), body, answers)
    ensures var r := Play(hint, Begin(hint, buf), answers);
      && r.buf.Committed() == buf.Committed() + Gathered(answers) && Gathered(answers) <= body
      && (r.last.Complete? && r.last.result.ec == 0 ==>
            && r.buf == Storage(buf.Committed() + body, buf.size + |body|)
            && answers != [] && r.last.result.len == |answers[|answers| - 1].Bytes()|)
  {
    var rx := Begin(hint, buf);
    PrepareKeeps(buf, hint);
    GatheredIsPrefix(hint, rx, body, answers);
    CommitsGathered(hint, rx, body, answers);
    var r := Play(hint, rx, answers);
    assert |r.buf.vec| == r.buf.size ==> r.buf.Committed() == r.buf.vec;
  }

  // ---- the one hint that does not work ----

  /** n answers of a kernel that is asked for 0 bytes. */
  function Nothings(n: nat): seq<KernelAnswer> {
    if n == 0 then [] else [Data([])] + Nothings(n - 1)
  }

  lemma {:induction false} ZeroHintStalls(rx: Rx, rest: seq<byte>, n: nat)
    requires Asking(rx) && rx.last == AskBody(0)
    ensures Accepted(0, rx, rest, Nothings(n)) && |Nothings(n)| == n
    decreases n
  {
    if n > 0 {
      var a := Data([]);
      OneAnswer(0, rx, rest, a);
      assert rest[0..] == rest && Nothings(n)[1..] == Nothings(n - 1);
      ZeroHintStalls(Feed(0, rx, a), rest, n - 1);
    }
  }

  predicate Bounded(hint: nat, buf: Storage, body: seq<byte>, answers: seq<KernelAnswer>)
    requires buf.Valid()
  {
    Accepted(hint, Begin(hint, buf), body, answers) ==> |answers| <= |body| + 2
  }

  /** The number of receives is bounded for every body exactly when the hint is
      not 0; with 0 the operation asks for 0 bytes for ever. */
  lemma BoundedIffHintPositive(hint: nat, buf: Storage)
    requires buf.Valid()
    ensures (forall body, answers :: Bounded(hint, buf, body, answers)) <==> hint > 0
  {
    if hint > 0 {
      forall body, answers ensures Bounded(hint, buf, body, answers) {
        if Accepted(hint, Begin(hint, buf), body, answers) {
          ReceivesAreBounded(hint, Begin(hint, buf), body, answers);
        }
      }
    } else {
      ZeroHintStalls(Begin(0, buf), [], 3);
      assert !Bounded(hint, buf, [], Nothings(3));
    }
  }

  // ---- exact cost with FILL_BUFFER ----

  /** FILL_BUFFER: the buffer is filled unless the body ends, and the end of
      file comes alone. */
  function FillAnswer(rest: seq<byte>, asked: nat): KernelAnswer {
    if rest == [] then EndOfFile([]) else Data(rest[..Min(asked, |rest|)])
  }

  function Max(a: nat, b: nat): nat {
    if a >= b then a else b
  }

  datatype Cost = Cost(receives: nat, peak: nat, end: Rx)

  /** Runs the operation against such a kernel, counting the receives and the
      largest size of the vector. */
  function FillRun(hint: nat, rx: Rx, rest: seq<byte>): (r: Cost)
    requires hint > 0 && Asking(rx)
    ensures r.end.buf.Valid()
    decreases |rest|, if rx.last.size == 0 then 1 else 0
  {
    var a := FillAnswer(rest, rx.last.size);
    OneAnswer(hint, rx, rest, a);
    var r := Feed(hint, rx, a);
    if a.EndOfFile? then Cost(1, |rx.buf.vec|, r)
    else
      var c := FillRun(hint, r, rest[|a.Bytes()|..]);
      Cost(1 + c.receives, Max(|rx.buf.vec|, c.peak), c.end)
  }

  /** The run is one of those of BodyReassembles. */
  function FillAnswers(hint: nat, rx: Rx, rest: seq<byte>): (r: seq<KernelAnswer>)
    requires hint > 0 && Asking(rx)
    ensures r != [] && r[|r| - 1] == EndOfFile([])
    decreases |rest|, if rx.last.size == 0 then 1 else 0
  {
    var a := FillAnswer(rest, rx.last.size);
    OneAnswer(hint, rx, rest, a);
    if a.EndOfFile? then [a]
    else [a] + FillAnswers(hint, Feed(hint, rx, a), rest[|a.Bytes()|..])
  }

  /** One answer put in front of a run. */
  lemma AnswerInFront(hint: nat, rx: Rx, rest: seq<byte>, a: KernelAnswer, more: seq<KernelAnswer>)
    requires rx.buf.Valid() && rx.last.AskBody? && MayAnswer(rest, rx.last.size, a)
    requires Accepted(hint, Feed(hint, rx, a), rest[|a.Bytes()|..], more)
    ensures Accepted(hint, rx, rest, [a] + more)
    ensures Play(hint, rx, [a] + more) == Play(hint, Feed(hint, rx, a), more)
  {
    assert ([a] + more)[0] == a && ([a] + more)[1..] == more;
  }

  lemma {:induction false} FillRunIsARun(hint: nat, rx: Rx, rest: seq<byte>)
    requires hint > 0 && Asking(rx)
    ensures var answers, c := FillAnswers(hint, rx, rest), FillRun(hint, rx, rest);
      && Accepted(hint, rx, rest, answers) && c.receives == |answers|
      && c.end == Play(hint, rx, answers) && c.end.last.Complete? && c.end.last.result.ec == 0
    decreases |rest|, if rx.last.size == 0 then 1 else 0
  {
    var a := FillAnswer(rest, rx.last.size);
    OneAnswer(hint, rx, rest, a);
    var r, left := Feed(hint, rx, a), rest[|a.Bytes()|..];
    if a.Data? {
      FillRunIsARun(hint, r, left);
      AnswerInFront(hint, rx, rest, a, FillAnswers(hint, r, left));
    } else {
      AnswerInFront(hint, rx, rest, a, []);
      assert [a] + [] == [a];
    }
  }

  /** Receives needed for n bytes with hint h. */
  function Receives(n: nat, h: nat): nat
    requires h > 0
  {
    n / h + if n % h == 0 then 1 else 2
  }

  /** The room those receives take up. */
  function Room(n: nat, h: nat): nat
    requires h > 0
  {
    (n / h + 1) * h
  }

  lemma MulMonotone(h: nat, a: nat, b: nat)
    requires a <= b
    ensures h * a <= h * b
  {
  }

  lemma QuotientIsUnique(n: nat, h: nat, q: nat, r: nat)
    requires n == h * q + r && r < h
    ensures n / h == q && n % h == r
  {
    var a, b := n / h, n % h;
    assert n == h * a + b;
    if a > q {
      MulMonotone(h, q + 1, a);
    } else if a < q {
      MulMonotone(h, a + 1, q);
    }
  }

  /** One full buffer less. */
  lemma OneBufferLess(n: nat, h: nat)
    requires 0 < h <= n
    ensures Receives(n, h) == 1 + Receives(n - h, h) && Room(n, h) == h + Room(n - h, h)
  {
    var q := n / h;
    assert q >= 1;
    assert n - h == h * (q - 1) + n % h;
    QuotientIsUnique(n - h, h, q - 1, n % h);
  }

  lemma LastBuffer(n: nat, h: nat)
    requires n < h
    ensures Receives(n, h) == (if n == 0 then 1 else 2) && Room(n, h) == h
  {
    QuotientIsUnique(n, h, 0, n);
  }

  lemma {:induction false} FillCost(hint: nat, rx: Rx, rest: seq<byte>, receives: nat, room: nat)
    requires 0 < hint < DWORD_RANGE && Asking(rx) && rx.last.size == hint
    requires |rx.buf.vec| == rx.buf.size + hint
    requires receives == Receives(|rest|, hint) && room == Room(|rest|, hint)
    ensures FillRun(hint, rx, rest).receives == receives
    ensures FillRun(hint, rx, rest).peak == rx.buf.size + room
    decreases |rest|
  {
    var a := FillAnswer(rest, hint);
    var r := Feed(hint, rx, a);
    OneAnswer(hint, rx, rest, a);
    if |rest| >= hint {
      OneBufferLess(|rest|, hint);
      FillCost(hint, r, rest[hint..], receives - 1, room - hint);
    } else {
      LastBuffer(|rest|, hint);
      if rest != [] {
        assert rest[|rest|..] == [];
        ProbeCost(hint, r);
      }
    }
  }

  /** The one-byte probe for the end of file. */
  lemma ProbeCost(hint: nat, rx: Rx)
    requires hint > 0 && Asking(rx)
    ensures FillRun(hint, rx, []).receives == 1 && FillRun(hint, rx, []).peak == |rx.buf.vec|
  {
  }

  lemma BeginAsks(hint: nat, buf: Storage)
    requires buf.Valid()
    ensures var rx := Begin(hint, buf);
      && Asking(rx) && rx.last.size == hint % DWORD_RANGE
      && rx.buf.size == buf.size && |rx.buf.vec| == buf.size + hint
  {
  }

  lemma NarrowCost(hint: nat, buf: Storage, body: seq<byte>)
    requires 0 < hint < DWORD_RANGE && buf.Valid()
    ensures var c, n := FillRun(hint, Begin(hint, buf), body), |body|;
      c.receives == Receives(n, hint) && c.peak == buf.size + Room(n, hint)
  {
    BeginAsks(hint, buf);
    FillCost(hint, Begin(hint, buf), body, Receives(|body|, hint), Room(|body|, hint));
  }

  /** After the first receive for a hint of 2^32 or more, every answer is short
      of the hint, so each receive asks for one byte. */
  lemma {:induction false} ByteByByte(hint: nat, rx: Rx, rest: seq<byte>)
    requires hint >= DWORD_RANGE && Asking(rx) && rx.last.size == 1 && |rx.buf.vec| == rx.buf.size + 1
    ensures FillRun(hint, rx, rest).receives == |rest| + 1
    ensures FillRun(hint, rx, rest).peak == rx.buf.size + |rest| + 1
    decreases |rest|
  {
    if rest == [] {
      ProbeCost(hint, rx);
    } else {
      var a := FillAnswer(rest, 1);
      OneAnswer(hint, rx, rest, a);
      ByteByByte(hint, Feed(hint, rx, a), rest[1..]);
    }
  }

  lemma WideTail(hint: nat, rx: Rx, rest: seq<byte>, first: nat)
    requires hint >= DWORD_RANGE && Asking(rx) && |rx.buf.vec| == rx.buf.size + hint
    requires rest != [] && first == Min(rx.last.size, |rest|)
    ensures FillRun(hint, rx, rest).receives == |rest| - first + 2
    ensures FillRun(hint, rx, rest).peak == rx.buf.size + Max(hint, |rest| + 1)
  {
    var a := FillAnswer(rest, rx.last.size);
    var r := Feed(hint, rx, a);
    OneAnswer(hint, rx, rest, a);
    assert |a.Bytes()| == first && first < hint;
    ByteByByte(hint, r, rest[first..]);
  }

  lemma WideCost(hint: nat, buf: Storage, body: seq<byte>)
    requires hint >= DWORD_RANGE && buf.Valid()
    ensures var rx, n := Begin(hint, buf), |body|;
      && Asking(rx)
      && FillRun(hint, rx, body).receives == (if n == 0 then 1 else n - Min(hint % DWORD_RANGE, n) + 2)
      && FillRun(hint, rx, body).peak == buf.size + Max(hint, n + 1)
  {
    var rx := Begin(hint, buf);
    if body == [] {
      ProbeCost(hint, rx);
    } else {
      WideTail(hint, rx, body, Min(hint % DWORD_RANGE, |body|));
    }
  }

  /** How it ends, whatever the hint. */
  lemma FillEnds(hint: nat, buf: Storage, body: seq<byte>)
    requires hint > 0 && buf.Valid()
    ensures Asking(Begin(hint, buf))
    ensures var c := FillRun(hint, Begin(hint, buf), body);
      && c.end.last == Complete(Completion(0, 0))
      && c.end.buf == Storage(buf.Committed() + body, buf.size + |body|)
  {
    var rx := Begin(hint, buf);
    FillRunIsARun(hint, rx, body);
    BodyReassembles(hint, buf, body, FillAnswers(hint, rx, body));
  }

  /** A body of n bytes takes n/h + 1 receives when h divides n and n/h + 2
      otherwise, and the vector grows by (n/h + 1)*h at most, the one-byte probe
      included. A hint of 2^32 or more is truncated, which costs a receive for
      each byte behind the first answer. At the end the vector is trimmed. */
  lemma ExactCost(hint: nat, buf: Storage, body: seq<byte>)
    requires hint > 0 && buf.Valid()
    ensures Asking(Begin(hint, buf))
    ensures var c, n := FillRun(hint, Begin(hint, buf), body), |body|;
      && (hint < DWORD_RANGE ==>
            c.receives == Receives(n, hint) && c.peak == buf.size + Room(n, hint))
      && (hint >= DWORD_RANGE ==>
            && c.receives == (if n == 0 then 1 else n - Min(hint % DWORD_RANGE, n) + 2)
            && c.peak == buf.size + Max(hint, n + 1))
      && c.end.last == Complete(Completion(0, 0))
      && c.end.buf == Storage(buf.Committed() + body, buf.size + n)
  {
    if hint < DWORD_RANGE {
      NarrowCost(hint, buf, body);
    } else {
      WideCost(hint, buf, body);
    }
    FillEnds(hint, buf, body);
  }
}
