/** Receiving a request head: grow and retry until the kernel is satisfied. */
module HttpSysRequest {
  import opened Basics
  import opened DynamicBuffers
  import opened HttpSysReceive
  import Overlapped

  /** What becomes of a receive of a request head: a completion packet with a
      head, with the size that a too small buffer would need, with the end of
      file or with an error; or a refusal by the system call itself. */
  datatype KernelAnswer =
    | Head(data: seq<byte>)
    | TooSmall(needed: nat, front: seq<byte>)
    | EndOfFile(len: nat)
    | Failed(error: ErrorCode, transferred: nat)
    | Refused(error: ErrorCode)
  {
    function Bytes(): seq<byte> {
      match this
      case Head(d) => d
      case TooSmall(_, f) => f
      case _ => []
    }

    function Result(): Completion {
      match this
      case Head(d) => Completion(0, |d|)
      case TooSmall(n, _) => Completion(ERROR_MORE_DATA, n)
      case EndOfFile(n) => Completion(ERROR_HANDLE_EOF, n)
      case Failed(e, n) => Completion(e, n)
      // the initiator completes the handler, with no length
      case Refused(e) => Overlapped.Completed(Overlapped.ReceiveRequest, Overlapped.Failure(e))
    }
  }

  /** The kernel's possible answers to a receive with room for asked bytes. A
      packet for a buffer that is too small names a larger size and leaves the
      request structure at the front, if there was room for it. A receive may be
      refused with any error, but as too small for that structure only if it is. */
  predicate MayAnswer(lay: Layout, asked: nat, a: KernelAnswer) {
    match a
    case Head(d) => |d| <= asked
    case TooSmall(n, f) =>
      asked < n < DWORD_RANGE && |f| <= asked && (lay.structSize <= asked ==> lay.structSize <= |f|)
    case EndOfFile(_) => true
    case Failed(e, _) => e != 0 && e != ERROR_HANDLE_EOF && e != ERROR_MORE_DATA
    case Refused(e) => e != 0 && (e == Overlapped.ERROR_INSUFFICIENT_BUFFER ==> asked < lay.structSize)
  }

  /** The first resumption. */
  function Begin(lay: Layout, buf: Storage): (r: Rx)
    requires buf.Valid()
    ensures r.buf.Valid()
  {
    var (st, b, a) := RequestStep(lay, RxIdle, buf, Completion(0, 0));
    Rx(st, b, a)
  }

  function Feed(lay: Layout, rx: Rx, a: KernelAnswer): (r: Rx)
    requires rx.buf.Valid()
    ensures r.buf.Valid()
  {
    var d := a.Bytes();
    var b := if rx.buf.size + |d| <= |rx.buf.vec| then rx.buf.Fill(d) else rx.buf;
    var (st, b', act) := RequestStep(lay, rx.st, b, a.Result());
    Rx(st, b', act)
  }

  /** The operation after a list of answers, if each was one the kernel could
      give when it was asked. */
  function After(lay: Layout, buf: Storage, answers: seq<KernelAnswer>): (r: Option<Rx>)
    requires buf.Valid()
    ensures r.Some? ==> r.value.buf.Valid()
  {
    if answers == [] then Some(Begin(lay, buf))
    else
      var before := After(lay, buf, answers[..|answers| - 1]);
      if before.Some? && before.value.last.AskRequest?
         && MayAnswer(lay, before.value.last.size, answers[|answers| - 1])
      then Some(Feed(lay, before.value, answers[|answers| - 1]))
      else None
  }

  function InitialSize(lay: Layout): nat {
    lay.structSize + EXTRA_SIZE
  }

  /** An operation that is asking: the initial content is still what is
      committed, and behind it the vector is exactly the area asked for. */
  predicate Asking(rx: Rx, initial: seq<byte>) {
    && rx.st == Receiving && rx.buf.size == |initial| && initial <= rx.buf.vec
    && rx.last.AskRequest? && |rx.buf.vec| == |initial| + rx.last.size
  }

  lemma FirstAsk(lay: Layout, buf: Storage)
    requires lay.Valid() && buf.Valid()
    ensures var rx := Begin(lay, buf);
      Asking(rx, buf.Committed()) && rx.last == AskRequest(NULL_ID, InitialSize(lay), false)
  {
    var v, pos := buf.Prepare(InitialSize(lay)).vec, buf.size + lay.idOffset;
    var w := Overwritten(v, pos, NULL_ID);
    assert w[pos..pos + ID_SIZE] == NULL_ID;
    assert v[..buf.size] == buf.Committed() && w[..buf.size] == buf.Committed();
  }

  /** Filling and regrowing keeps what was committed and the front filled in. */
  lemma RegrowKeeps(b: Storage, front: seq<byte>, needed: nat)
    requires b.Valid() && b.size + |front| <= |b.vec| && |front| <= needed
    ensures var v := b.Fill(front).Prepare(needed).vec;
      |v| == b.size + needed && v[..b.size] == b.vec[..b.size] && v[b.size..b.size + |front|] == front
  {
    var f := b.Fill(front);
    assert f.vec[..b.size] == b.vec[..b.size] && f.vec[b.size..b.size + |front|] == front;
    var v := f.Prepare(needed).vec;
    assert v[..b.size + |front|] == f.vec[..b.size + |front|];
  }

  lemma FrontKeepsId(v: seq<byte>, n: nat, front: seq<byte>, offset: nat)
    requires n + |front| <= |v| && v[n..n + |front|] == front && offset + ID_SIZE <= |front|
    ensures Slice(v, n + offset, ID_SIZE) == front[offset..offset + ID_SIZE]
  {
    var id, want := v[n + offset..n + offset + ID_SIZE], front[offset..offset + ID_SIZE];
    forall i | 0 <= i < ID_SIZE ensures id[i] == want[i] {
      assert id[i] == v[n + offset + i] && want[i] == front[offset + i] == v[n..n + |front|][offset + i];
    }
  }

  /** The regrown area keeps its front, so the id in it is the kernel's. */
  lemma Regrown(lay: Layout, rx: Rx, initial: seq<byte>, needed: nat, front: seq<byte>)
    requires lay.Valid() && Asking(rx, initial) && MayAnswer(lay, rx.last.size, TooSmall(needed, front))
    ensures var r := Feed(lay, rx, TooSmall(needed, front));
      && Asking(r, initial) && r.last.size == needed
      && (lay.structSize <= |front| ==> r.last.id == front[lay.idOffset..lay.idOffset + ID_SIZE])
      && (r.last.violated <==> needed <= |initial|)
  {
    RegrowKeeps(rx.buf, front, needed);
    var v := rx.buf.Fill(front).Prepare(needed).vec;
    assert v[..|initial|] == initial;
    if lay.structSize <= |front| {
      FrontKeepsId(v, |initial|, front, lay.idOffset);
    }
  }

  /** A receive refused with ERROR_MORE_DATA carries the length 0: the growth
      assertion fails, and the next receive is for 0 bytes, with an id that lies
      outside the vector. */
  lemma RefusedAsTooSmall(lay: Layout, rx: Rx, initial: seq<byte>)
    requires lay.Valid() && Asking(rx, initial)
    ensures var r := Feed(lay, rx, Refused(ERROR_MORE_DATA));
      r == Rx(Receiving, Storage(initial, |initial|), AskRequest([], 0, true)) && Asking(r, initial)
  {
    EmptyFill(rx.buf);
    assert rx.buf.Prepare(0).vec == initial;
  }

  /** Which answers are retried, and how: nothing is committed meanwhile. The
      growth assertion compares the report with what was committed before. */
  lemma {:induction false} RetryFollowsAnswer(lay: Layout, buf: Storage, answers: seq<KernelAnswer>)
    requires lay.Valid() && buf.Valid()
    requires var rx := After(lay, buf, answers);
      rx.Some? && rx.value.last.AskRequest?
    ensures var rx := After(lay, buf, answers).value;
      && Asking(rx, buf.Committed())
      && if answers == [] then rx.last == AskRequest(NULL_ID, InitialSize(lay), false)
         else
           match answers[|answers| - 1]
           case TooSmall(n, f) =>
             && rx.last.size == n && (rx.last.violated <==> n <= buf.size)
             && (lay.structSize <= |f| ==> rx.last.id == f[lay.idOffset..lay.idOffset + ID_SIZE])
           case Refused(e) =>
             && e == ERROR_MORE_DATA
             && rx == Rx(Receiving, Storage(buf.Committed(), buf.size), AskRequest([], 0, true))
           case _ => false
    decreases |answers|
  {
    if answers == [] {
      FirstAsk(lay, buf);
    } else {
      var before, a := answers[..|answers| - 1], answers[|answers| - 1];
      RetryFollowsAnswer(lay, buf, before);
      var rx := After(lay, buf, before).value;
      assert a.TooSmall? || a == Refused(ERROR_MORE_DATA);
      if a.TooSmall? {
        Regrown(lay, rx, buf.Committed(), a.needed, a.front);
      } else {
        RefusedAsTooSmall(lay, rx, buf.Committed());
      }
    }
  }

  /** A retry that no refusal has caused asks for more than before. */
  lemma AsksForMore(lay: Layout, rx: Rx, a: KernelAnswer)
    requires rx.buf.Valid() && rx.st == Receiving && rx.last.AskRequest? && MayAnswer(lay, rx.last.size, a)
    requires a != Refused(ERROR_MORE_DATA) && Feed(lay, rx, a).last.AskRequest?
    ensures a.TooSmall? && Feed(lay, rx, a).st == Receiving
    ensures rx.last.size < Feed(lay, rx, a).last.size == a.needed < DWORD_RANGE
  {
  }

  lemma {:induction false} SizesGrow(lay: Layout, buf: Storage, answers: seq<KernelAnswer>)
    requires lay.Valid() && buf.Valid() && Refused(ERROR_MORE_DATA) !in answers
    requires var rx := After(lay, buf, answers);
      rx.Some? && rx.value.last.AskRequest?
    ensures var rx := After(lay, buf, answers).value;
      rx.st == Receiving && InitialSize(lay) + |answers| <= rx.last.size < DWORD_RANGE
    decreases |answers|
  {
    if answers != [] {
      var before, a := answers[..|answers| - 1], answers[|answers| - 1];
      SizesGrow(lay, buf, before);
      assert a in answers;
      AsksForMore(lay, After(lay, buf, before).value, a);
    }
  }

  /** Unless a receive was refused with ERROR_MORE_DATA, every retry asks for
      the size reported last, with the id the kernel left behind, and the sizes
      grow. */
  lemma RetriesKeepTheId(lay: Layout, buf: Storage, answers: seq<KernelAnswer>)
    requires lay.Valid() && buf.Valid() && Refused(ERROR_MORE_DATA) !in answers
    requires var rx := After(lay, buf, answers);
      rx.Some? && rx.value.last.AskRequest?
    ensures var rx := After(lay, buf, answers).value;
      && Asking(rx, buf.Committed()) && InitialSize(lay) + |answers| <= rx.last.size < DWORD_RANGE
      && if answers == [] then rx.last == AskRequest([0, 0, 0, 0, 0, 0, 0, 0], lay.structSize + 1024, false)
         else
           var a := answers[|answers| - 1];
           && a.TooSmall? && rx.last.size == a.needed && lay.structSize <= |a.front|
           && rx.last.id == a.front[lay.idOffset..lay.idOffset + ID_SIZE]
           && (rx.last.violated <==> a.needed <= buf.size)
  {
    SizesGrow(lay, buf, answers);
    RetryFollowsAnswer(lay, buf, answers);
    if answers != [] {
      var a := answers[|answers| - 1];
      assert a in answers && a.TooSmall?;
      SizesGrow(lay, buf, answers[..|answers| - 1]);
    }
  }

  lemma HeadCommitted(lay: Layout, rx: Rx, initial: seq<byte>, d: seq<byte>)
    requires Asking(rx, initial) && |d| <= rx.last.size
    ensures var r := Feed(lay, rx, Head(d));
      r.last == Complete(Completion(0, |d|)) && r.buf == Storage(initial + d, |initial| + |d|)
  {
    var f := rx.buf.Fill(d);
    assert f.vec[..|initial| + |d|] == initial + d;
  }

  /** A completed operation after its last answer. */
  predicate EndsWith(rx: Rx, initial: seq<byte>, a: KernelAnswer)
    requires rx.buf.Valid() && rx.last.Complete?
  {
    match a
    case Head(d) => rx.last.result == Completion(0, |d|) && rx.buf == Storage(initial + d, |initial| + |d|)
    case EndOfFile(n) => rx.last.result == Completion(0, n) && rx.buf.Committed() == initial
    case Failed(e, n) => rx.last.result == Completion(e, n) && rx.buf.Committed() == initial
    case Refused(e) =>
      && e != ERROR_MORE_DATA && rx.buf.Committed() == initial
      && rx.last.result == Completion(if e == ERROR_HANDLE_EOF then 0 else e, 0)
    case TooSmall(_, _) => false
  }

  /** How the operation ends: a head is committed exactly when the kernel has
      delivered one, and the end of file is a success that has committed
      nothing. */
  lemma RequestOutcome(lay: Layout, buf: Storage, answers: seq<KernelAnswer>)
    requires lay.Valid() && buf.Valid()
    requires var rx := After(lay, buf, answers);
      rx.Some? && rx.value.last.Complete?
    ensures answers != []
    ensures EndsWith(After(lay, buf, answers).value, buf.Committed(), answers[|answers| - 1])
  {
    if answers == [] {
      FirstAsk(lay, buf);
    } else {
      var before, a := answers[..|answers| - 1], answers[|answers| - 1];
      RetryFollowsAnswer(lay, buf, before);
      var rx := After(lay, buf, before).value;
      if a.Head? {
        HeadCommitted(lay, rx, buf.Committed(), a.data);
      } else if !a.TooSmall? {
        EmptyFill(rx.buf);
      }
    }
  }

  // ---- the assertions, and the number of retries ----

  /** Answers of a kernel that may, or does not, refuse a receive at once with
      ERROR_MORE_DATA. */
  predicate Allowed(mayRefuse: bool, answers: seq<KernelAnswer>) {
    mayRefuse || Refused(ERROR_MORE_DATA) !in answers
  }

  /** The growth assertion holds in the state after these answers. */
  predicate GrowthHolds(lay: Layout, buf: Storage, answers: seq<KernelAnswer>)
    requires buf.Valid()
  {
    var rx := After(lay, buf, answers);
    rx.Some? && rx.value.last.AskRequest? ==> !rx.value.last.violated
  }

  /** The initiator's assertion that the buffer had room for the structure. */
  predicate RoomHolds(lay: Layout, buf: Storage, answers: seq<KernelAnswer>)
    requires buf.Valid()
  {
    After(lay, buf, answers).Some? && answers != [] ==>
      answers[|answers| - 1] != Refused(Overlapped.ERROR_INSUFFICIENT_BUFFER)
  }

  /** The retries are bounded by how far the reports can grow. */
  predicate RetriesWithin(lay: Layout, buf: Storage, answers: seq<KernelAnswer>, bound: nat)
    requires buf.Valid()
  {
    var rx := After(lay, buf, answers);
    && rx.Some? && rx.value.last.AskRequest?
    && (forall i :: 0 <= i < |answers| && answers[i].TooSmall? ==> answers[i].needed <= bound)
    ==> answers == [] || InitialSize(lay) + |answers| <= bound
  }

  lemma RetriesAreBounded(lay: Layout, buf: Storage, answers: seq<KernelAnswer>, bound: nat)
    requires lay.Valid() && buf.Valid() && Refused(ERROR_MORE_DATA) !in answers
    ensures RetriesWithin(lay, buf, answers, bound)
  {
    var rx := After(lay, buf, answers);
    if rx.Some? && rx.value.last.AskRequest? {
      RetriesKeepTheId(lay, buf, answers);
    }
  }

  lemma AfterSnoc(lay: Layout, buf: Storage, answers: seq<KernelAnswer>, a: KernelAnswer)
    requires buf.Valid()
    requires var rx := After(lay, buf, answers);
      rx.Some? && rx.value.last.AskRequest? && MayAnswer(lay, rx.value.last.size, a)
    ensures After(lay, buf, answers + [a]) == Some(Feed(lay, After(lay, buf, answers).value, a))
  {
    assert (answers + [a])[..|answers|] == answers;
  }

  lemma AfterOne(lay: Layout, buf: Storage, a: KernelAnswer)
    requires lay.Valid() && buf.Valid() && MayAnswer(lay, InitialSize(lay), a)
    ensures var first := Begin(lay, buf);
      Asking(first, buf.Committed()) && After(lay, buf, [a]) == Some(Feed(lay, first, a))
  {
    FirstAsk(lay, buf);
    AfterSnoc(lay, buf, [], a);
    assert [] + [a] == [a];
  }

  /** The growth assertion holds against every kernel exactly when the buffer
      holds no more at the start than the first attempt asks for, and receives
      are never refused at once with ERROR_MORE_DATA. */
  lemma GrowthHoldsIff(lay: Layout, buf: Storage, mayRefuse: bool)
    requires lay.Valid() && buf.Valid()
    ensures (forall answers :: Allowed(mayRefuse, answers) ==> GrowthHolds(lay, buf, answers))
       <==> buf.size <= InitialSize(lay) && !mayRefuse
  {
    if mayRefuse {
      AfterOne(lay, buf, Refused(ERROR_MORE_DATA));
      RefusedAsTooSmall(lay, Begin(lay, buf), buf.Committed());
      assert !GrowthHolds(lay, buf, [Refused(ERROR_MORE_DATA)]);
    } else if buf.size > InitialSize(lay) {
      var a := TooSmall(InitialSize(lay) + 1, Resize([], lay.structSize));
      AfterOne(lay, buf, a);
      Regrown(lay, Begin(lay, buf), buf.Committed(), a.needed, a.front);
      assert !GrowthHolds(lay, buf, [a]) && Allowed(mayRefuse, [a]);
    } else {
      forall answers | Allowed(mayRefuse, answers) ensures GrowthHolds(lay, buf, answers) {
        var rx := After(lay, buf, answers);
        if rx.Some? && rx.value.last.AskRequest? {
          RetriesKeepTheId(lay, buf, answers);
        }
      }
    }
  }

  /** n receives, each refused with ERROR_MORE_DATA. */
  function Refusals(n: nat): (r: seq<KernelAnswer>)
    ensures |r| == n && forall a :: a in r ==> a == Refused(ERROR_MORE_DATA)
  {
    if n == 0 then [] else Refusals(n - 1) + [Refused(ERROR_MORE_DATA)]
  }

  /** An operation that has asked for 0 bytes after a refusal. */
  function Starved(buf: Storage): Rx
    requires buf.Valid()
  {
    Rx(Receiving, Storage(buf.Committed(), buf.size), AskRequest([], 0, true))
  }

  lemma {:induction false} RefusalsGoOn(lay: Layout, buf: Storage, n: nat)
    requires lay.Valid() && buf.Valid()
    ensures After(lay, buf, Refusals(n)) == Some(if n == 0 then Begin(lay, buf) else Starved(buf))
    decreases n
  {
    if n > 0 {
      var before, a := Refusals(n - 1), Refused(ERROR_MORE_DATA);
      RefusalsGoOn(lay, buf, n - 1);
      FirstAsk(lay, buf);
      var rx := if n == 1 then Begin(lay, buf) else Starved(buf);
      assert Asking(rx, buf.Committed()) && After(lay, buf, before) == Some(rx);
      RefusedAsTooSmall(lay, rx, buf.Committed());
      AfterSnoc(lay, buf, before, a);
    }
  }

  /** The initiator's assertion holds against every kernel exactly when none
      refuses with ERROR_MORE_DATA: only then is room for less asked for. */
  lemma RoomHoldsIff(lay: Layout, buf: Storage, mayRefuse: bool)
    requires lay.Valid() && buf.Valid()
    ensures (forall answers :: Allowed(mayRefuse, answers) ==> RoomHolds(lay, buf, answers)) <==> !mayRefuse
  {
    var small := Refused(Overlapped.ERROR_INSUFFICIENT_BUFFER);
    if mayRefuse {
      RefusalsGoOn(lay, buf, 1);
      var answers := Refusals(1) + [small];
      AfterSnoc(lay, buf, Refusals(1), small);
      assert Allowed(mayRefuse, answers) && !RoomHolds(lay, buf, answers);
    } else {
      forall answers | Allowed(mayRefuse, answers) ensures RoomHolds(lay, buf, answers) {
        if After(lay, buf, answers).Some? && answers != [] {
          RetriesKeepTheId(lay, buf, answers[..|answers| - 1]);
        }
      }
    }
  }

  /** So with the bound on the retries: refusals can go on for ever. */
  lemma RetriesBoundedIff(lay: Layout, buf: Storage, bound: nat, mayRefuse: bool)
    requires lay.Valid() && buf.Valid()
    ensures (forall answers :: Allowed(mayRefuse, answers) ==> RetriesWithin(lay, buf, answers, bound))
       <==> !mayRefuse
  {
    if mayRefuse {
      RefusalsGoOn(lay, buf, bound + 1);
      assert forall a :: a in Refusals(bound + 1) ==> !a.TooSmall?;
      assert Allowed(mayRefuse, Refusals(bound + 1)) && !RetriesWithin(lay, buf, Refusals(bound + 1), bound);
    } else {
      forall answers | Allowed(mayRefuse, answers) ensures RetriesWithin(lay, buf, answers, bound) {
        RetriesAreBounded(lay, buf, answers, bound);
      }
    }
  }

  // ---- exact reports ----

  /** A kernel that holds one request and reports its size exactly. */
  predicate Exact(lay: Layout, head: seq<byte>, answers: seq<KernelAnswer>) {
    forall i :: 0 <= i < |answers| ==>
      match answers[i]
      case Head(d) => d == head
      case TooSmall(n, _) => n == |head|
      case _ => false
  }

  /** With exact reports there is at most one retry, and it comes exactly when
      the request exceeds the first buffer; either way the request is what ends
      up committed. */
  lemma ExactReportsRetryOnce(lay: Layout, buf: Storage, head: seq<byte>, answers: seq<KernelAnswer>)
    requires lay.Valid() && buf.Valid() && Exact(lay, head, answers)
    requires After(lay, buf, answers).Some?
    ensures |answers| <= 2
    ensures var rx := After(lay, buf, answers).value;
      rx.last.Complete? ==>
        && rx.last.result == Completion(0, |head|)
        && rx.buf == Storage(buf.Committed() + head, buf.size + |head|)
        && |answers| == (if |head| <= InitialSize(lay) then 1 else 2)
  {
    if answers == [] {
      FirstAsk(lay, buf);
    } else {
      var before := answers[..|answers| - 1];
      RetriesKeepTheId(lay, buf, before);
      if |before| >= 1 {
        RetriesKeepTheId(lay, buf, before[..|before| - 1]);
      }
      if After(lay, buf, answers).value.last.Complete? {
        RequestOutcome(lay, buf, answers);
      }
    }
  }
}
