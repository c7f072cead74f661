/** The two serving loops over one request queue: the controller, which re-arms
    its receive on every completion, and the chain of connections, where each
    received request starts the next connection. */
module Serving {
  import opened Basics
  import opened HttpSysReceive
  import Overlapped

  datatype JobKind = Receive | Body | Send

  function ApiOf(k: JobKind): Overlapped.Kind {
    match k
    case Receive => Overlapped.ReceiveRequest
    case Body => Overlapped.ReceiveBody
    case Send => Overlapped.SendResponse
  }

  /** One system call made for a connection, and where its handler is. */
  datatype Call = Call(kind: JobKind, conn: nat, state: CallState)

  datatype CallState = Live(place: Overlapped.Place) | Delivered(result: Completion)

  /** How far a connection has come. */
  datatype Phase = Listening | Reading | Answered | ReceiveFailed | BodyFailed | Raised

  /** What the loops have been told and have done so far. */
  datatype Ledger = Ledger(received: nat, bodyFailed: nat, dispatched: nat, raised: nat)

  datatype Server = Server(rearms: bool, calls: seq<Call>, phases: seq<Phase>, ledger: Ledger)

  datatype Move =
    | Return(h: nat, r: Overlapped.ApiResult)
    | PostPacket(h: nat, c: Completion)
    | Run(h: nat, raises: bool)

  function NewCall(k: JobKind, c: nat): Call {
    Call(k, c, Live(Overlapped.Held))
  }

  function Begin(rearms: bool): Server {
    Server(rearms, [NewCall(Receive, 0)], [Listening], Ledger(0, 0, 0, 0))
  }

  predicate Can(s: Server, m: Move) {
    m.h < |s.calls| && s.calls[m.h].state.Live?
    && match m
       case Return(h, r) => s.calls[h].state.place.Held?
       case PostPacket(h, _) => s.calls[h].state.place.Released?
       case Run(h, _) => s.calls[h].state.place.Queued?
  }

  /** The handler of a completed receive, body or send. Retries are decided by
      the composed operations; the rest is the loops' own code. raises: dispatch
      or the application's handler throws, and no response is sent. */
  function React(s: Server, kind: JobKind, c: nat, ec: ErrorCode, raises: bool): Server
    requires c < |s.phases|
  {
    var next, led := |s.phases|, s.ledger;
    match kind
    case Receive =>
      (match RequestVerdict(ec)
       case Retry => s.(calls := s.calls + [NewCall(Receive, c)])
       case Finished(ok) =>
         if s.rearms then
           // the next receive is armed before the error is looked at
           s.(calls := s.calls + [NewCall(Receive, next)] + (if ok then [NewCall(Body, c)] else []),
              phases := s.phases[c := if ok then Reading else ReceiveFailed] + [Listening],
              ledger := if ok then led.(received := led.received + 1) else led)
         else if ok then
           s.(calls := s.calls + [NewCall(Body, c)] + [NewCall(Receive, next)],
              phases := s.phases[c := Reading] + [Listening],
              ledger := led.(received := led.received + 1))
         else s.(phases := s.phases[c := ReceiveFailed]))
    case Body =>
      (match BodyVerdict(ec)
       case Retry => s.(calls := s.calls + [NewCall(Body, c)])
       case Finished(ok) =>
         if ok && raises then
           s.(phases := s.phases[c := Raised],
              ledger := led.(dispatched := led.dispatched + 1, raised := led.raised + 1))
         else if ok then
           s.(calls := s.calls + [NewCall(Send, c)], phases := s.phases[c := Answered],
              ledger := led.(dispatched := led.dispatched + 1))
         else
           s.(phases := s.phases[c := BodyFailed], ledger := led.(bodyFailed := led.bodyFailed + 1)))
    case Send => s
  }

  function Do(s: Server, m: Move): Server
    requires Can(s, m)
  {
    var call := s.calls[m.h];
    match m
    case Return(h, r) =>
      s.(calls := s.calls[h := call.(state := Live(Overlapped.Handoff(ApiOf(call.kind), r)))])
    case PostPacket(h, c) => s.(calls := s.calls[h := call.(state := Live(Overlapped.Queued(c)))])
    case Run(h, raises) =>
      var s' := s.(calls := s.calls[h := call.(state := Delivered(call.state.place.result))]);
      if call.conn < |s.phases| then React(s', call.kind, call.conn, call.state.place.result.ec, raises) else s'
  }

  /** The loops as objects: the calls they have made and their connections. */
  class Loop {
    const rearms: bool
    var calls: seq<Call>
    var phases: seq<Phase>
    var ledger: Ledger

    function View(): Server
      reads this
    {
      Server(rearms, calls, phases, ledger)
    }

    constructor (rearms: bool)
      ensures View() == Begin(rearms)
    {
      this.rearms := rearms;
      phases := [Listening];
      calls := [NewCall(Receive, 0)];
      ledger := Ledger(0, 0, 0, 0);
    }

    /** receive_next_request, or the start of another connection. */
    method ReceiveNext()
      modifies this`calls, this`phases
      ensures calls == old(calls) + [NewCall(Receive, |old(phases)|)] && phases == old(phases) + [Listening]
    {
      calls := calls + [NewCall(Receive, |phases|)];
      phases := phases + [Listening];
    }

    /** The reading of the body of a received request. */
    method ReceiveBody(c: nat)
      requires c < |phases|
      modifies this
      ensures calls == old(calls) + [NewCall(Body, c)] && phases == old(phases)[c := Reading]
      ensures ledger == old(ledger).(received := old(ledger).received + 1)
    {
      ledger := ledger.(received := ledger.received + 1);
      calls := calls + [NewCall(Body, c)];
      phases := phases[c := Reading];
    }

    /** The completion of the receive of connection c. */
    method OnReceived(c: nat, ec: ErrorCode)
      requires c < |phases|
      modifies this
      ensures View() == React(old(View()), Receive, c, ec, false)
      ensures ec == 234 ==> phases == old(phases)
      ensures ec == 0 || ec == 38 ==> phases == old(phases)[c := Reading] + [Listening]
      ensures ec != 0 && ec != 38 && ec != 234 ==>
        phases == old(phases)[c := ReceiveFailed] + if rearms then [Listening] else []
    {
      if ec == ERROR_MORE_DATA {
        calls := calls + [NewCall(Receive, c)];
      } else if rearms {
        ReceiveNext();
        if ec != NO_ERROR && ec != ERROR_HANDLE_EOF {
          phases := phases[c := ReceiveFailed];
        } else {
          ReceiveBody(c);
        }
      } else if ec != NO_ERROR && ec != ERROR_HANDLE_EOF {
        phases := phases[c := ReceiveFailed];
      } else {
        ReceiveBody(c);
        ReceiveNext();
      }
    }

    /** The completion of a body read of connection c; raises is what dispatch,
        or the application's handler, does. */
    method OnBody(c: nat, ec: ErrorCode, raises: bool)
      requires c < |phases|
      modifies this
      ensures View() == React(old(View()), Body, c, ec, raises)
      ensures ec == 0 ==> phases == old(phases) && calls == old(calls) + [NewCall(Body, c)]
      ensures ec == 38 && raises ==> phases == old(phases)[c := Raised] && calls == old(calls)
      ensures ec == 38 && !raises ==>
        phases == old(phases)[c := Answered] && calls == old(calls) + [NewCall(Send, c)]
      ensures ec != 0 && ec != 38 ==> phases == old(phases)[c := BodyFailed] && calls == old(calls)
    {
      if ec == NO_ERROR {
        calls := calls + [NewCall(Body, c)];
      } else if ec == ERROR_HANDLE_EOF {
        ledger := ledger.(dispatched := ledger.dispatched + 1);
        if raises {
          ledger := ledger.(raised := ledger.raised + 1);
          phases := phases[c := Raised];
          return;
        }
        calls := calls + [NewCall(Send, c)];
        phases := phases[c := Answered];
      } else {
        ledger := ledger.(bodyFailed := ledger.bodyFailed + 1);
        phases := phases[c := BodyFailed];
      }
    }
  }

  predicate Reaches(s: Server, ms: seq<Move>, end: Server)
    decreases |ms|
  {
    if ms == [] then s == end else Can(s, ms[0]) && Reaches(Do(s, ms[0]), ms[1..], end)
  }

  // ---- counting calls and connections ----

  /** The calls of one kind, of one connection or of all; receives and body
      reads as long as they are outstanding, sends for good. */
  datatype Want = Want(kind: JobKind, conn: Option<nat>)

  function Hit(w: Want, c: Call): nat {
    if c.kind == w.kind && (w.conn == None || w.conn == Some(c.conn)) && (c.state.Live? || c.kind == Send)
    then 1 else 0
  }

  function Count(calls: seq<Call>, w: Want): nat {
    if calls == [] then 0 else Count(calls[..|calls| - 1], w) + Hit(w, calls[|calls| - 1])
  }

  function PhaseFor(k: JobKind): Phase {
    match k
    case Receive => Listening
    case Body => Reading
    case Send => Answered
  }

  function PhaseHit(w: Want, c: nat, p: Phase): nat {
    if p == PhaseFor(w.kind) && (w.conn == None || w.conn == Some(c)) then 1 else 0
  }

  /** The connections, among all or just one, that are in the phase of a kind. */
  function Tally(phases: seq<Phase>, w: Want): nat {
    if phases == [] then 0
    else Tally(phases[..|phases| - 1], w) + PhaseHit(w, |phases| - 1, phases[|phases| - 1])
  }

  lemma CountSnoc(calls: seq<Call>, c: Call, w: Want)
    ensures Count(calls + [c], w) == Count(calls, w) + Hit(w, c)
  {
    assert (calls + [c])[..|calls|] == calls;
  }

  lemma {:induction false} CountUpdate(calls: seq<Call>, h: nat, c: Call, w: Want)
    requires h < |calls|
    ensures Count(calls[h := c], w) + Hit(w, calls[h]) == Count(calls, w) + Hit(w, c)
    ensures Hit(w, calls[h]) <= Count(calls, w)
    decreases |calls|
  {
    var n := |calls| - 1;
    if h == n {
      assert calls[h := c][..n] == calls[..n];
    } else {
      assert calls[h := c][..n] == calls[..n][h := c];
      CountUpdate(calls[..n], h, c, w);
    }
  }

  lemma TallySnoc(phases: seq<Phase>, p: Phase, w: Want)
    ensures Tally(phases + [p], w) == Tally(phases, w) + PhaseHit(w, |phases|, p)
  {
    assert (phases + [p])[..|phases|] == phases;
  }

  lemma {:induction false} TallyUpdate(phases: seq<Phase>, c: nat, p: Phase, w: Want)
    requires c < |phases|
    ensures Tally(phases[c := p], w) + PhaseHit(w, c, phases[c]) == Tally(phases, w) + PhaseHit(w, c, p)
    decreases |phases|
  {
    var n := |phases| - 1;
    if c == n {
      assert phases[c := p][..n] == phases[..n];
    } else {
      assert phases[c := p][..n] == phases[..n][c := p];
      TallyUpdate(phases[..n], c, p, w);
    }
  }

  lemma {:induction false} TallyOne(phases: seq<Phase>, k: JobKind, c: nat)
    ensures Tally(phases, Want(k, Some(c))) == (if c < |phases| && phases[c] == PhaseFor(k) then 1 else 0)
    decreases |phases|
  {
    if phases != [] {
      TallyOne(phases[..|phases| - 1], k, c);
    }
  }

  // ---- conservation ----

  /** Every connection has exactly the calls its phase says. */
  ghost predicate Balanced(s: Server) {
    forall w: Want :: Count(s.calls, w) == Tally(s.phases, w)
  }

  /** Only the newest connection receives. */
  predicate Frontier(s: Server) {
    && s.phases != []
    && (forall c :: 0 <= c < |s.phases| - 1 ==> s.phases[c] != Listening)
    && (s.rearms ==> s.phases[|s.phases| - 1] == Listening)
    && (!s.rearms ==>
          && (s.phases[|s.phases| - 1] == Listening || s.phases[|s.phases| - 1] == ReceiveFailed)
          && (forall c :: 0 <= c < |s.phases| - 1 ==> s.phases[c] != ReceiveFailed))
  }

  /** Each request received is being read, has failed or was dispatched, and each
      dispatch was answered or raised. */
  predicate Accounted(s: Server) {
    && s.ledger.dispatched == Tally(s.phases, Want(Send, None)) + s.ledger.raised
    && s.ledger.received == Tally(s.phases, Want(Body, None)) + s.ledger.bodyFailed + s.ledger.dispatched
  }

  ghost predicate Inv(s: Server) {
    Balanced(s) && Frontier(s) && Accounted(s)
  }

  /** An outstanding receive or body read finds its connection in its phase. */
  lemma LiveMeansPhase(s: Server, h: nat)
    requires Balanced(s) && h < |s.calls| && s.calls[h].state.Live?
    ensures s.calls[h].conn < |s.phases| && s.phases[s.calls[h].conn] == PhaseFor(s.calls[h].kind)
  {
    var w := Want(s.calls[h].kind, Some(s.calls[h].conn));
    CountUpdate(s.calls, h, s.calls[h], w);
    TallyOne(s.phases, w.kind, s.calls[h].conn);
    assert Count(s.calls, w) == Tally(s.phases, w);
  }

  /** Moving a handler along, without running it, changes no count. */
  lemma BalancedPlace(s: Server, h: nat, place: Overlapped.Place)
    requires Balanced(s) && h < |s.calls| && s.calls[h].state.Live?
    ensures Balanced(s.(calls := s.calls[h := s.calls[h].(state := Live(place))]))
  {
    forall w: Want ensures Count(s.calls[h := s.calls[h].(state := Live(place))], w) == Tally(s.phases, w) {
      CountUpdate(s.calls, h, s.calls[h].(state := Live(place)), w);
      assert Count(s.calls, w) == Tally(s.phases, w);
    }
  }

  /** One count, when a call is delivered and its connection makes another. */
  lemma RunCounts(s: Server, h: nat, k: JobKind, w: Want, res: Completion)
    requires h < |s.calls| && s.calls[h].state.Live? && !s.calls[h].kind.Send?
    requires s.calls[h].conn < |s.phases| && s.phases[s.calls[h].conn] == PhaseFor(s.calls[h].kind)
    requires Count(s.calls, w) == Tally(s.phases, w)
    ensures var c, done := s.calls[h].conn, s.calls[h := s.calls[h].(state := Delivered(res))];
      Count(done + [NewCall(k, c)], w) == Tally(s.phases[c := PhaseFor(k)], w)
  {
    var c, gone := s.calls[h].conn, s.calls[h].(state := Delivered(res));
    CountUpdate(s.calls, h, gone, w);
    CountSnoc(s.calls[h := gone], NewCall(k, c), w);
    TallyUpdate(s.phases, c, PhaseFor(k), w);
  }

  /** One count, when the next connection starts to listen before or after. */
  lemma ArmCounts(calls: seq<Call>, phases: seq<Phase>, call: Call, w: Want)
    requires Count(calls + [call], w) == Tally(phases, w)
    ensures var arm := NewCall(Receive, |phases|);
      && Count(calls + [call] + [arm], w) == Tally(phases + [Listening], w)
      && Count(calls + [arm] + [call], w) == Tally(phases + [Listening], w)
  {
    var arm := NewCall(Receive, |phases|);
    CountSnoc(calls, call, w);
    CountSnoc(calls + [call], arm, w);
    CountSnoc(calls, arm, w);
    CountSnoc(calls + [arm], call, w);
    TallySnoc(phases, Listening, w);
  }

  /** A delivered call after which its connection makes another. */
  lemma BalancedRun(s: Server, h: nat, k: JobKind, p: Phase, res: Completion)
    requires Balanced(s) && h < |s.calls| && s.calls[h].state.Live? && !s.calls[h].kind.Send?
    requires p == PhaseFor(k)
    ensures var c, done := s.calls[h].conn, s.calls[h := s.calls[h].(state := Delivered(res))];
      && c < |s.phases|
      && Balanced(s.(calls := done + [NewCall(k, c)], phases := s.phases[c := p]))
      && Balanced(s.(calls := done + [NewCall(k, c)] + [NewCall(Receive, |s.phases|)],
                     phases := s.phases[c := p] + [Listening]))
      && Balanced(s.(calls := done + [NewCall(Receive, |s.phases|)] + [NewCall(k, c)],
                     phases := s.phases[c := p] + [Listening]))
  {
    LiveMeansPhase(s, h);
    var c, done := s.calls[h].conn, s.calls[h := s.calls[h].(state := Delivered(res))];
    var call, arm := NewCall(k, c), NewCall(Receive, |s.phases|);
    forall w: Want
      ensures Count(done + [call], w) == Tally(s.phases[c := p], w)
      ensures Count(done + [call] + [arm], w) == Tally(s.phases[c := p] + [Listening], w)
      ensures Count(done + [arm] + [call], w) == Tally(s.phases[c := p] + [Listening], w)
    {
      assert Count(s.calls, w) == Tally(s.phases, w);
      RunCounts(s, h, k, w, res);
      ArmCounts(done, s.phases[c := p], call, w);
    }
  }

  /** A delivered call after which its connection makes no further one. */
  lemma BalancedFailure(s: Server, h: nat, p: Phase, res: Completion)
    requires Balanced(s) && h < |s.calls| && s.calls[h].state.Live? && !s.calls[h].kind.Send?
    requires p == ReceiveFailed || p == BodyFailed || p == Raised
    ensures var c, done := s.calls[h].conn, s.calls[h := s.calls[h].(state := Delivered(res))];
      && c < |s.phases|
      && Balanced(s.(calls := done, phases := s.phases[c := p]))
      && Balanced(s.(calls := done + [NewCall(Receive, |s.phases|)], phases := s.phases[c := p] + [Listening]))
  {
    LiveMeansPhase(s, h);
    var c, done := s.calls[h].conn, s.calls[h := s.calls[h].(state := Delivered(res))];
    var arm := NewCall(Receive, |s.phases|);
    forall w: Want
      ensures Count(done, w) == Tally(s.phases[c := p], w)
      ensures Count(done + [arm], w) == Tally(s.phases[c := p] + [Listening], w)
    {
      assert Count(s.calls, w) == Tally(s.phases, w);
      CountUpdate(s.calls, h, s.calls[h].(state := Delivered(res)), w);
      CountSnoc(done, arm, w);
      TallyUpdate(s.phases, c, p, w);
      TallySnoc(s.phases[c := p], Listening, w);
    }
  }

  /** The two tallies, when one connection changes its phase and perhaps the
      next one starts to listen. */
  lemma PhaseMoves(phases: seq<Phase>, c: nat, p: Phase, k: JobKind)
    requires c < |phases| && !k.Receive?
    ensures var w, was, now := Want(k, None), phases[c] == PhaseFor(k), p == PhaseFor(k);
      && Tally(phases[c := p], w) == Tally(phases, w) - (if was then 1 else 0) + (if now then 1 else 0)
      && Tally(phases[c := p] + [Listening], w) == Tally(phases[c := p], w)
  {
    TallyUpdate(phases, c, p, Want(k, None));
    TallySnoc(phases[c := p], Listening, Want(k, None));
  }

  lemma AccountedReact(s: Server, kind: JobKind, c: nat, ec: ErrorCode, raises: bool)
    requires Accounted(s) && c < |s.phases| && s.phases[c] == PhaseFor(kind)
    ensures Accounted(React(s, kind, c, ec, raises))
  {
    var r := React(s, kind, c, ec, raises);
    if r.phases != s.phases {
      var p := r.phases[c];
      assert r.phases == s.phases[c := p] || r.phases == s.phases[c := p] + [Listening];
      PhaseMoves(s.phases, c, p, Body);
      PhaseMoves(s.phases, c, p, Send);
    }
  }

  lemma BalancedStep(s: Server, h: nat, raises: bool)
    requires Balanced(s) && Can(s, Run(h, raises))
    ensures Balanced(Do(s, Run(h, raises)))
  {
    var call := s.calls[h];
    var c, ec := call.conn, call.state.place.result.ec;
    LiveMeansPhase(s, h);
    match call.kind {
      case Receive =>
        match RequestVerdict(ec) {
          case Retry =>
            BalancedRun(s, h, Receive, Listening, call.state.place.result);
            assert s.phases[c := Listening] == s.phases;
          case Finished(ok) =>
            if ok {
              BalancedRun(s, h, Body, Reading, call.state.place.result);
            } else {
              BalancedFailure(s, h, ReceiveFailed, call.state.place.result);
              var done := s.calls[h := call.(state := Delivered(call.state.place.result))];
              assert done + [NewCall(Receive, |s.phases|)] + [] == done + [NewCall(Receive, |s.phases|)];
            }
        }
      case Body =>
        match BodyVerdict(ec) {
          case Retry =>
            BalancedRun(s, h, Body, Reading, call.state.place.result);
            assert s.phases[c := Reading] == s.phases;
          case Finished(ok) =>
            if ok && raises {
              BalancedFailure(s, h, Raised, call.state.place.result);
            } else if ok {
              BalancedRun(s, h, Send, Answered, call.state.place.result);
            } else {
              BalancedFailure(s, h, BodyFailed, call.state.place.result);
            }
        }
      case Send =>
        var gone := call.(state := Delivered(call.state.place.result));
        forall w: Want ensures Count(s.calls[h := gone], w) == Tally(s.phases, w) {
          CountUpdate(s.calls, h, call.(state := Delivered(call.state.place.result)), w);
          assert Count(s.calls, w) == Tally(s.phases, w);
        }
    }
  }

  lemma FrontierReact(s: Server, kind: JobKind, c: nat, ec: ErrorCode, raises: bool)
    requires Frontier(s) && c < |s.phases| && s.phases[c] == PhaseFor(kind)
    ensures Frontier(React(s, kind, c, ec, raises))
  {
    var r := React(s, kind, c, ec, raises);
    if kind == Receive {
      assert c == |s.phases| - 1;
    }
    assert forall i :: 0 <= i < |s.phases| && i != c ==> r.phases[i] == s.phases[i];
  }

  lemma InvRun(s: Server, h: nat, raises: bool)
    requires Inv(s) && Can(s, Run(h, raises))
    ensures Inv(Do(s, Run(h, raises)))
  {
    var call := s.calls[h];
    var c, ec := call.conn, call.state.place.result.ec;
    var s' := s.(calls := s.calls[h := call.(state := Delivered(call.state.place.result))]);
    LiveMeansPhase(s, h);
    BalancedStep(s, h, raises);
    FrontierReact(s', call.kind, c, ec, raises);
    AccountedReact(s', call.kind, c, ec, raises);
    assert Do(s, Run(h, raises)) == React(s', call.kind, c, ec, raises);
  }

  lemma InvBegin(rearms: bool)
    ensures Inv(Begin(rearms))
  {
    forall w: Want ensures Count(Begin(rearms).calls, w) == Tally(Begin(rearms).phases, w) {
      CountSnoc([], NewCall(Receive, 0), w);
      TallySnoc([], Listening, w);
    }
  }

  lemma {:induction false} InvAlways(s: Server, ms: seq<Move>, end: Server)
    requires Inv(s) && Reaches(s, ms, end)
    ensures Inv(end) && end.rearms == s.rearms
    decreases |ms|
  {
    if ms != [] {
      match ms[0] {
        case Return(h, _) => BalancedPlace(s, h, Do(s, ms[0]).calls[h].state.place);
        case PostPacket(h, c) => BalancedPlace(s, h, Overlapped.Queued(c));
        case Run(h, raises) => InvRun(s, h, raises);
      }
      InvAlways(Do(s, ms[0]), ms[1..], end);
    }
  }

  /** In every run: one receive is outstanding in a controller, for ever; in a
      chain one is, until a receive fails, and then none ever is. The requests
      received are those whose body is being read, has failed or is complete,
      and one response is sent for each dispatch, unless it raised. */
  lemma ServingConserves(rearms: bool, ms: seq<Move>, end: Server)
    requires Reaches(Begin(rearms), ms, end)
    ensures Count(end.calls, Want(Receive, None)) ==
      (if rearms || ReceiveFailed !in end.phases then 1 else 0)
    ensures end.ledger.received ==
      Count(end.calls, Want(Body, None)) + end.ledger.bodyFailed + end.ledger.dispatched
    ensures Count(end.calls, Want(Send, None)) + end.ledger.raised == end.ledger.dispatched
    ensures !rearms ==> forall c :: 0 <= c < |end.phases| - 1 ==> end.phases[c] != ReceiveFailed
  {
    InvBegin(rearms);
    InvAlways(Begin(rearms), ms, end);
    var w := Want(Receive, None);
    assert Count(end.calls, w) == Tally(end.phases, w);
    FrontierTally(end.phases);
    assert Count(end.calls, Want(Body, None)) == Tally(end.phases, Want(Body, None));
    assert Count(end.calls, Want(Send, None)) == Tally(end.phases, Want(Send, None));
  }

  lemma {:induction false} NoneListening(phases: seq<Phase>)
    requires forall c :: 0 <= c < |phases| ==> phases[c] != Listening
    ensures Tally(phases, Want(Receive, None)) == 0
    decreases |phases|
  {
    if phases != [] {
      NoneListening(phases[..|phases| - 1]);
    }
  }

  lemma FrontierTally(phases: seq<Phase>)
    requires phases != []
    requires forall c :: 0 <= c < |phases| - 1 ==> phases[c] != Listening
    ensures Tally(phases, Want(Receive, None)) == (if phases[|phases| - 1] == Listening then 1 else 0)
  {
    NoneListening(phases[..|phases| - 1]);
  }

  /** For each connection: the calls it has outstanding are those of its phase,
      and it sends one response, once its body is complete, and never another. */
  lemma ConnectionConserves(rearms: bool, ms: seq<Move>, end: Server, c: nat)
    requires Reaches(Begin(rearms), ms, end) && c < |end.phases|
    ensures Count(end.calls, Want(Receive, Some(c))) == (if end.phases[c] == Listening then 1 else 0)
    ensures Count(end.calls, Want(Body, Some(c))) == (if end.phases[c] == Reading then 1 else 0)
    ensures Count(end.calls, Want(Send, Some(c))) == (if end.phases[c] == Answered then 1 else 0)
  {
    InvBegin(rearms);
    InvAlways(Begin(rearms), ms, end);
    forall k: JobKind ensures Count(end.calls, Want(k, Some(c))) == (if end.phases[c] == PhaseFor(k) then 1 else 0) {
      assert Count(end.calls, Want(k, Some(c))) == Tally(end.phases, Want(k, Some(c)));
      TallyOne(end.phases, k, c);
    }
  }
}
