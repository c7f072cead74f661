/** What the serving loops make of the error codes of their completions, one
    completion at a time and over whole runs. */
module ServingCodes {
  import opened Basics
  import opened Serving
  import Overlapped

  /** The completion of a body read: 38 (the end of file) ends the body, which is
      dispatched and answered unless dispatch throws; 0 asks for more; anything
      else fails the body. */
  lemma BodyRunDoes(s: Server, h: nat, raises: bool)
    requires Balanced(s) && Can(s, Run(h, raises)) && s.calls[h].kind == Body
    ensures var c, res, t := s.calls[h].conn, s.calls[h].state.place.result, Do(s, Run(h, raises));
      var done := s.calls[h := Call(Body, c, Delivered(res))];
      && c < |s.phases| && s.phases[c] == Reading
      && (res.ec == 38 && raises ==> t.phases == s.phases[c := Raised] && t.calls == done)
      && (res.ec == 38 && !raises ==>
            t.phases == s.phases[c := Answered] && t.calls == done + [Call(Send, c, Live(Overlapped.Held))])
      && (res.ec == 0 ==> t.phases == s.phases && t.calls == done + [Call(Body, c, Live(Overlapped.Held))])
      && (res.ec != 0 && res.ec != 38 ==> t.phases == s.phases[c := BodyFailed] && t.calls == done)
  {
    LiveMeansPhase(s, h);
  }

  /** The completion of a receive: 0 and 38 start the body read, 234 (more data)
      another receive for the same connection, anything else fails it. A
      controller arms the next receive first and in every case but 234; a chain
      starts the next connection after the body read, and only with one. */
  lemma ReceiveRunDoes(s: Server, h: nat, raises: bool)
    requires Balanced(s) && Can(s, Run(h, raises)) && s.calls[h].kind == Receive
    ensures var c, res, t := s.calls[h].conn, s.calls[h].state.place.result, Do(s, Run(h, raises));
      var done := s.calls[h := Call(Receive, c, Delivered(res))];
      var arm, read := Call(Receive, |s.phases|, Live(Overlapped.Held)), Call(Body, c, Live(Overlapped.Held));
      && c < |s.phases| && s.phases[c] == Listening
      && (res.ec == 234 ==> t.phases == s.phases && t.calls == done + [Call(Receive, c, Live(Overlapped.Held))])
      && (res.ec == 0 || res.ec == 38 ==>
            && t.phases == s.phases[c := Reading] + [Listening]
            && t.calls == if s.rearms then done + [arm] + [read] else done + [read] + [arm])
      && (res.ec != 0 && res.ec != 38 && res.ec != 234 ==>
            if s.rearms then t.phases == s.phases[c := ReceiveFailed] + [Listening] && t.calls == done + [arm]
            else t.phases == s.phases[c := ReceiveFailed] && t.calls == done)
  {
    LiveMeansPhase(s, h);
    var res := s.calls[h].state.place.result;
    var done := s.calls[h := Call(Receive, s.calls[h].conn, Delivered(res))];
    var arm := Call(Receive, |s.phases|, Live(Overlapped.Held));
    assert done + [arm] + [] == done + [arm];
  }

  /** What a delivered completion means for its connection. */
  datatype Fate = Got | NotGot | Whole | Broken

  function FateOf(call: Call): Option<Fate> {
    if call.state.Live? then None
    else
      var ec := call.state.result.ec;
      match call.kind
      case Receive => if ec == 0 || ec == 38 then Some(Got) else if ec == 234 then None else Some(NotGot)
      case Body => if ec == 38 then Some(Whole) else if ec == 0 then None else Some(Broken)
      case Send => None
  }

  predicate Has(calls: seq<Call>, c: nat, f: Fate) {
    exists h :: 0 <= h < |calls| && calls[h].conn == c && FateOf(calls[h]) == Some(f)
  }

  /** These fates are among the completions of a connection, and no others. */
  predicate Only(calls: seq<Call>, c: nat, fates: set<Fate>) {
    && (Has(calls, c, Got) <==> Got in fates)
    && (Has(calls, c, NotGot) <==> NotGot in fates)
    && (Has(calls, c, Whole) <==> Whole in fates)
    && (Has(calls, c, Broken) <==> Broken in fates)
  }

  /** The phase of a connection, by the completions its handlers were given. */
  predicate Follows(p: Phase, calls: seq<Call>, c: nat) {
    match p
    case Listening => Only(calls, c, {})
    case ReceiveFailed => Only(calls, c, {NotGot})
    case Reading => Only(calls, c, {Got})
    case BodyFailed => Only(calls, c, {Got, Broken})
    case _ => Only(calls, c, {Got, Whole})
  }

  ghost predicate AllFollow(calls: seq<Call>, phases: seq<Phase>) {
    && (forall h :: 0 <= h < |calls| ==> calls[h].conn < |phases|)
    && (forall c :: 0 <= c < |phases| ==> Follows(phases[c], calls, c))
  }

  lemma HasUpdate(calls: seq<Call>, h: nat, x: Call, c: nat, f: Fate)
    requires h < |calls| && calls[h].state.Live?
    ensures Has(calls[h := x], c, f) <==> Has(calls, c, f) || (x.conn == c && FateOf(x) == Some(f))
  {
    var done := calls[h := x];
    if i :| 0 <= i < |calls| && calls[i].conn == c && FateOf(calls[i]) == Some(f) {
      assert done[i] == calls[i];
    }
    if i :| 0 <= i < |done| && done[i].conn == c && FateOf(done[i]) == Some(f) {
      assert i != h ==> done[i] == calls[i];
    }
    assert done[h] == x;
  }

  lemma HasSnoc(calls: seq<Call>, x: Call, c: nat, f: Fate)
    requires x.state.Live?
    ensures Has(calls + [x], c, f) <==> Has(calls, c, f)
  {
    var more := calls + [x];
    assert forall i :: 0 <= i < |calls| ==> more[i] == calls[i];
    assert more[|calls|] == x;
  }

  lemma FollowsSnoc(calls: seq<Call>, x: Call, c: nat, p: Phase)
    requires x.state.Live?
    ensures Follows(p, calls + [x], c) <==> Follows(p, calls, c)
  {
    forall f: Fate ensures Has(calls + [x], c, f) <==> Has(calls, c, f) {
      HasSnoc(calls, x, c, f);
    }
  }

  /** One more call, or the next connection with its receive. */
  lemma AllFollowCall(calls: seq<Call>, phases: seq<Phase>, x: Call)
    requires AllFollow(calls, phases) && x.state.Live? && x.conn < |phases|
    ensures AllFollow(calls + [x], phases)
  {
    forall c | 0 <= c < |phases| ensures Follows(phases[c], calls + [x], c) {
      FollowsSnoc(calls, x, c, phases[c]);
    }
  }

  lemma AllFollowNext(calls: seq<Call>, phases: seq<Phase>)
    requires AllFollow(calls, phases)
    ensures AllFollow(calls, phases + [Listening])
  {
    forall c | 0 <= c < |phases| + 1 ensures Follows((phases + [Listening])[c], calls, c) {
      assert c < |phases| ==> (phases + [Listening])[c] == phases[c];
    }
  }

  /** A delivered completion that moves its connection to the phase it means. */
  lemma AllFollowDelivery(calls: seq<Call>, phases: seq<Phase>, h: nat, res: Completion, p: Phase)
    requires AllFollow(calls, phases) && h < |calls| && calls[h].state.Live?
    requires phases[calls[h].conn] == PhaseFor(calls[h].kind)
    requires match FateOf(calls[h].(state := Delivered(res)))
             case None => p == PhaseFor(calls[h].kind)
             case Some(Got) => p == Reading
             case Some(NotGot) => p == ReceiveFailed
             case Some(Whole) => p == Answered || p == Raised
             case Some(Broken) => p == BodyFailed
    ensures AllFollow(calls[h := calls[h].(state := Delivered(res))], phases[calls[h].conn := p])
  {
    var x := calls[h].(state := Delivered(res));
    var moved := phases[x.conn := p];
    forall c | 0 <= c < |phases| ensures Follows(moved[c], calls[h := x], c) {
      assert Follows(phases[c], calls, c);
      forall f: Fate ensures Has(calls[h := x], c, f) <==> Has(calls, c, f) || (x.conn == c && FateOf(x) == Some(f)) {
        HasUpdate(calls, h, x, c, f);
      }
    }
  }

  lemma AllFollowPlace(calls: seq<Call>, phases: seq<Phase>, h: nat, place: Overlapped.Place)
    requires AllFollow(calls, phases) && h < |calls| && calls[h].state.Live?
    ensures AllFollow(calls[h := calls[h].(state := Live(place))], phases)
  {
    var x := calls[h].(state := Live(place));
    forall c | 0 <= c < |phases| ensures Follows(phases[c], calls[h := x], c) {
      forall f: Fate ensures Has(calls[h := x], c, f) <==> Has(calls, c, f) {
        HasUpdate(calls, h, x, c, f);
      }
    }
  }

  lemma AllFollowRun(s: Server, h: nat, raises: bool)
    requires Balanced(s) && AllFollow(s.calls, s.phases) && Can(s, Run(h, raises))
    ensures var t := Do(s, Run(h, raises)); AllFollow(t.calls, t.phases)
  {
    var call, t := s.calls[h], Do(s, Run(h, raises));
    var c, res := call.conn, call.state.place.result;
    var done := s.calls[h := call.(state := Delivered(res))];
    LiveMeansPhase(s, h);
    match call.kind {
      case Receive =>
        ReceiveRunDoes(s, h, raises);
        var arm, read := NewCall(Receive, |s.phases|), NewCall(Body, c);
        if res.ec == 234 {
          assert s.phases[c := Listening] == s.phases;
          AllFollowDelivery(s.calls, s.phases, h, res, Listening);
          AllFollowCall(done, s.phases, NewCall(Receive, c));
        } else if res.ec == 0 || res.ec == 38 {
          var phases := s.phases[c := Reading];
          AllFollowDelivery(s.calls, s.phases, h, res, Reading);
          AllFollowNext(done, phases);
          AllFollowCall(done, phases + [Listening], arm);
          AllFollowCall(done + [arm], phases + [Listening], read);
          AllFollowCall(done, phases + [Listening], read);
          AllFollowCall(done + [read], phases + [Listening], arm);
        } else {
          var phases := s.phases[c := ReceiveFailed];
          AllFollowDelivery(s.calls, s.phases, h, res, ReceiveFailed);
          AllFollowNext(done, phases);
          AllFollowCall(done, phases + [Listening], arm);
        }
      case Body =>
        BodyRunDoes(s, h, raises);
        if res.ec == 38 {
          AllFollowDelivery(s.calls, s.phases, h, res, if raises then Raised else Answered);
          AllFollowCall(done, t.phases, NewCall(Send, c));
        } else if res.ec == 0 {
          assert s.phases[c := Reading] == s.phases;
          AllFollowDelivery(s.calls, s.phases, h, res, Reading);
          AllFollowCall(done, s.phases, NewCall(Body, c));
        } else {
          AllFollowDelivery(s.calls, s.phases, h, res, BodyFailed);
        }
      case Send =>
        assert s.phases[c := Answered] == s.phases;
        AllFollowDelivery(s.calls, s.phases, h, res, Answered);
    }
  }

  lemma {:induction false} AllFollowAlways(s: Server, ms: seq<Move>, end: Server)
    requires Inv(s) && AllFollow(s.calls, s.phases) && Reaches(s, ms, end)
    ensures AllFollow(end.calls, end.phases)
    decreases |ms|
  {
    if ms != [] {
      var t := Do(s, ms[0]);
      InvAlways(s, [ms[0]], t);
      match ms[0] {
        case Return(h, _) => AllFollowPlace(s.calls, s.phases, h, t.calls[h].state.place);
        case PostPacket(h, c) => AllFollowPlace(s.calls, s.phases, h, Overlapped.Queued(c));
        case Run(h, raises) => AllFollowRun(s, h, raises);
      }
      AllFollowAlways(t, ms[1..], end);
    }
  }

  /** In every run the phase of a connection is what the completions its handlers
      were given say, with the codes written out: its body is being read once a
      receive was completed with 0 or 38; it was dispatched exactly if a body read
      was completed with 38, and its body has failed exactly if one was completed
      with another error; it was never received exactly if a receive was completed
      with an error other than 38 and 234. */
  lemma PhasesFollowCodes(rearms: bool, ms: seq<Move>, end: Server, c: nat)
    requires Reaches(Begin(rearms), ms, end) && c < |end.phases|
    ensures (end.phases[c] == Answered || end.phases[c] == Raised) <==>
      exists h :: 0 <= h < |end.calls| && end.calls[h].conn == c && end.calls[h].kind == Body
        && end.calls[h].state.Delivered? && end.calls[h].state.result.ec == 38
    ensures end.phases[c] == BodyFailed <==>
      exists h :: 0 <= h < |end.calls| && end.calls[h].conn == c && end.calls[h].kind == Body
        && end.calls[h].state.Delivered? && end.calls[h].state.result.ec !in {0, 38}
    ensures end.phases[c] == ReceiveFailed <==>
      exists h :: 0 <= h < |end.calls| && end.calls[h].conn == c && end.calls[h].kind == Receive
        && end.calls[h].state.Delivered? && end.calls[h].state.result.ec !in {0, 38, 234}
    ensures end.phases[c] == Listening || end.phases[c] == ReceiveFailed <==>
      !exists h :: 0 <= h < |end.calls| && end.calls[h].conn == c && end.calls[h].kind == Receive
        && end.calls[h].state.Delivered? && end.calls[h].state.result.ec in {0, 38}
  {
    InvBegin(rearms);
    AllFollowAlways(Begin(rearms), ms, end);
    assert Follows(end.phases[c], end.calls, c);
  }
}
