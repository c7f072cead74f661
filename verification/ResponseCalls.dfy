/** What a response publishes, in terms of the calls an application has made to
    it: the latest call for a header, a trailer, the body, the status or the
    reason decides, and nothing else is published. */
module ResponseCalls {
  import opened Basics
  import opened OrderedMaps
  import opened Convert

  // ---- what is set ----

  lemma {:induction false} SettingsSorted(f: Fields, ops: seq<Op>)
    requires Sorted(f.unknown) && Sorted(f.trailers)
    ensures Sorted(Settings(f, ops).unknown) && Sorted(Settings(f, ops).trailers)
    decreases |ops|
  {
    if ops != [] {
      var before, op := ops[..|ops| - 1], ops[|ops| - 1];
      SettingsSorted(f, before);
      if op.AddUnknown? {
        PutSorted(Settings(f, before).unknown, op.name, op.val);
      }
      if op.AddTrailer? {
        PutSorted(Settings(f, before).trailers, op.name, op.val);
      }
    }
  }

  /** What no call has touched is as it was. */
  lemma {:induction false} UntouchedText(f: Fields, ops: seq<Op>)
    ensures (forall op :: op in ops ==> !op.SetStatus?) ==> Settings(f, ops).status == f.status
    ensures (forall op :: op in ops ==> !op.SetReason?) ==> Settings(f, ops).reason == f.reason
    ensures (forall op :: op in ops ==> !op.SetBody?) ==> Settings(f, ops).body == f.body
    decreases |ops|
  {
    if ops != [] {
      UntouchedText(f, ops[..|ops| - 1]);
      assert ops[|ops| - 1] in ops && forall op :: op in ops[..|ops| - 1] ==> op in ops;
    }
  }

  lemma {:induction false} UntouchedKnown(f: Fields, ops: seq<Op>, id: nat)
    requires forall op :: op in ops && op.AddKnown? ==> op.id != id
    ensures id in Settings(f, ops).known <==> id in f.known
    ensures id in f.known ==> Settings(f, ops).known[id] == f.known[id]
    decreases |ops|
  {
    if ops != [] {
      assert ops[|ops| - 1] in ops;
      UntouchedKnown(f, ops[..|ops| - 1], id);
    }
  }

  lemma {:induction false} UntouchedUnknown(f: Fields, ops: seq<Op>, name: string, val: string)
    requires Sorted(f.unknown) && Sorted(f.trailers)
    requires forall op :: op in ops && op.AddUnknown? ==> op.name != name
    ensures Entry(name, val) in Settings(f, ops).unknown <==> Entry(name, val) in f.unknown
    decreases |ops|
  {
    if ops != [] {
      var before, op := ops[..|ops| - 1], ops[|ops| - 1];
      assert op in ops;
      SettingsSorted(f, before);
      UntouchedUnknown(f, before, name, val);
      if op.AddUnknown? {
        PutSorted(Settings(f, before).unknown, op.name, op.val);
      }
    }
  }

  lemma {:induction false} UntouchedTrailer(f: Fields, ops: seq<Op>, name: string, val: string)
    requires Sorted(f.unknown) && Sorted(f.trailers)
    requires forall op :: op in ops && op.AddTrailer? ==> op.name != name
    ensures Entry(name, val) in Settings(f, ops).trailers <==> Entry(name, val) in f.trailers
    decreases |ops|
  {
    if ops != [] {
      var before, op := ops[..|ops| - 1], ops[|ops| - 1];
      assert op in ops;
      SettingsSorted(f, before);
      UntouchedTrailer(f, before, name, val);
      if op.AddTrailer? {
        PutSorted(Settings(f, before).trailers, op.name, op.val);
      }
    }
  }

  /** Call i is the latest one that sets what it sets. */
  predicate Latest(ops: seq<Op>, i: nat)
    requires i < |ops|
  {
    forall op :: op in ops[i + 1..] ==>
      match ops[i]
      case SetReason(_) => !op.SetReason?
      case SetStatus(_) => !op.SetStatus?
      case SetBody(_) => !op.SetBody?
      case AddKnown(id, _) => op.AddKnown? ==> op.id != id
      case AddUnknown(n, _) => op.AddUnknown? ==> op.name != n
      case AddTrailer(n, _) => op.AddTrailer? ==> op.name != n
      case Get => true
  }

  lemma LatestText(f: Fields, ops: seq<Op>, i: nat)
    requires i < |ops| && Latest(ops, i)
    ensures ops[i].SetStatus? ==> Settings(f, ops).status == ops[i].code
    ensures ops[i].SetReason? ==> Settings(f, ops).reason == ops[i].reason
    ensures ops[i].SetBody? ==> Settings(f, ops).body == ops[i].body
  {
    SettingsSplit(f, ops, i + 1);
    assert ops[..i + 1][..i] == ops[..i];
    UntouchedText(Settings(f, ops[..i + 1]), ops[i + 1..]);
  }

  lemma LatestKnownCall(f: Fields, ops: seq<Op>, i: nat)
    requires i < |ops| && Latest(ops, i) && ops[i].AddKnown?
    ensures ops[i].id in Settings(f, ops).known && Settings(f, ops).known[ops[i].id] == ops[i].data
  {
    SettingsSplit(f, ops, i + 1);
    assert ops[..i + 1][..i] == ops[..i];
    UntouchedKnown(Settings(f, ops[..i + 1]), ops[i + 1..], ops[i].id);
  }

  lemma LatestUnknownCall(f: Fields, ops: seq<Op>, i: nat, val: string)
    requires Sorted(f.unknown) && Sorted(f.trailers) && i < |ops| && Latest(ops, i) && ops[i].AddUnknown?
    ensures Entry(ops[i].name, val) in Settings(f, ops).unknown <==> val == ops[i].val
  {
    var g := Settings(f, ops[..i + 1]);
    SettingsSplit(f, ops, i + 1);
    assert ops[..i + 1][..i] == ops[..i];
    SettingsSorted(f, ops[..i]);
    SettingsSorted(f, ops[..i + 1]);
    PutSorted(Settings(f, ops[..i]).unknown, ops[i].name, ops[i].val);
    UntouchedUnknown(g, ops[i + 1..], ops[i].name, val);
  }

  lemma LatestTrailerCall(f: Fields, ops: seq<Op>, i: nat, val: string)
    requires Sorted(f.unknown) && Sorted(f.trailers) && i < |ops| && Latest(ops, i) && ops[i].AddTrailer?
    ensures Entry(ops[i].name, val) in Settings(f, ops).trailers <==> val == ops[i].val
  {
    var g := Settings(f, ops[..i + 1]);
    SettingsSplit(f, ops, i + 1);
    assert ops[..i + 1][..i] == ops[..i];
    SettingsSorted(f, ops[..i]);
    SettingsSorted(f, ops[..i + 1]);
    PutSorted(Settings(f, ops[..i]).trailers, ops[i].name, ops[i].val);
    UntouchedTrailer(g, ops[i + 1..], ops[i].name, val);
  }

  // ---- what a final get_response publishes ----

  /** The application never removes a header. */
  lemma {:induction false} UnknownOnlyGrow(f: Fields, ops: seq<Op>)
    requires Settings(f, ops).unknown == []
    ensures LatestUnknown(Calls(f, ops)) == []
    decreases |ops|
  {
    if ops != [] {
      UnknownOnlyGrow(f, ops[..|ops| - 1]);
    }
  }

  lemma {:induction false} KnownOnlyGrow(f: Fields, ops: seq<Op>, id: nat)
    requires id !in Settings(f, ops).known
    ensures LatestKnown(Calls(f, ops), id) == Slot("", 0)
    decreases |ops|
  {
    if ops != [] {
      KnownOnlyGrow(f, ops[..|ops| - 1], id);
    }
  }

  lemma CallsSnoc(f: Fields, ops: seq<Op>)
    ensures Calls(f, ops + [Get]) == Calls(f, ops) + [Settings(f, ops)]
    ensures Settings(f, ops + [Get]) == Settings(f, ops)
  {
    assert (ops + [Get])[..|ops|] == ops;
  }

  /** The status and the reason of the final call. */
  lemma FinalLine(anyStatus: nat, ops: seq<Op>)
    ensures var r, g := Run(Fresh(anyStatus), ops + [Get]).resp, Settings(Fresh(anyStatus).fields, ops);
      r.status == g.status && r.reason == g.reason && r.reasonLength == |g.reason| % USHORT_RANGE
  {
    assert (ops + [Get])[..|ops|] == ops;
    RunPublishes(anyStatus, ops);
    ApplyIs(Run(Fresh(anyStatus), ops), Get);
  }

  /** Its arrays. */
  lemma FinalArrays(anyStatus: nat, ops: seq<Op>)
    ensures var m, g := Run(Fresh(anyStatus), ops + [Get]), Settings(Fresh(anyStatus).fields, ops);
      && m.fields == g
      && m.resp.unknown == Encode(g.unknown) && m.resp.unknownCount == |g.unknown| % USHORT_RANGE
      && m.resp.known == Filled(BLANK.known, g.known)
  {
    var f, m := Fresh(anyStatus).fields, Run(Fresh(anyStatus), ops + [Get]);
    var g, fs := Settings(f, ops), Calls(f, ops);
    RunPublishes(anyStatus, ops + [Get]);
    CallsSnoc(f, ops);
    assert (fs + [g])[..|fs|] == fs;
    if g.unknown == [] {
      UnknownOnlyGrow(f, ops);
    }
    forall id | 0 <= id < KNOWN_HEADERS ensures m.resp.known[id] == Filled(BLANK.known, g.known)[id] {
      assert m.resp.known[id] == LatestKnown(fs + [g], id);
      if id !in g.known {
        KnownOnlyGrow(f, ops, id);
      }
    }
  }

  /** Its own chunks are the last ones, the body before the trailers. */
  lemma FinalChunks(anyStatus: nat, ops: seq<Op>)
    ensures var m, g := Run(Fresh(anyStatus), ops + [Get]), Settings(Fresh(anyStatus).fields, ops);
      && |Group(g)| <= |m.resp.chunks|
      && m.resp.chunks[|m.resp.chunks| - |Group(g)|..] == Group(g)
      && m.resp.chunkCount == |m.resp.chunks| % USHORT_RANGE
  {
    var f := Fresh(anyStatus).fields;
    var g, fs := Settings(f, ops), Calls(f, ops);
    RunPublishes(anyStatus, ops + [Get]);
    CallsSnoc(f, ops);
    assert (fs + [g])[..|fs|] == fs;
    assert Groups(fs + [g]) == Groups(fs) + Group(g);
  }

  /** After any calls and a final get_response, the status line is that of the
      latest set_status_code and of the latest set_reason. */
  lemma StatusLineIsLatest(anyStatus: nat, ops: seq<Op>, i: nat)
    requires i < |ops| && Latest(ops, i)
    ensures var r := Run(Fresh(anyStatus), ops + [Get]).resp;
      && (ops[i].SetStatus? ==> r.status == ops[i].code)
      && (ops[i].SetReason? ==> r.reason == ops[i].reason && r.reasonLength == |ops[i].reason| % USHORT_RANGE)
  {
    LatestText(Fresh(anyStatus).fields, ops, i);
    FinalLine(anyStatus, ops);
  }

  /** A body chunk for this text, whose length is taken modulo 2^32. */
  predicate HoldsText(c: Chunk, text: string, now: Fields) {
    && c.FromMemory? && c.length == |text| % DWORD_RANGE && c.length <= |text|
    && BodyText(c, now) == Some(text[..c.length])
  }

  lemma FirstIsBody(f: Fields)
    requires f.body != ""
    ensures |Group(f)| == (if f.trailers == [] then 1 else 2) && HoldsText(Group(f)[0], f.body, f)
  {
  }

  /** What the latest set_body has set, if it is not empty, is the text of the
      last chunk, or of the one before the trailers. */
  lemma BodyIsLatest(anyStatus: nat, ops: seq<Op>, i: nat)
    requires i < |ops| && Latest(ops, i) && ops[i].SetBody? && ops[i].body != ""
    ensures var m := Run(Fresh(anyStatus), ops + [Get]);
      var j := |m.resp.chunks| - if m.fields.trailers == [] then 1 else 2;
      0 <= j < |m.resp.chunks| && HoldsText(m.resp.chunks[j], ops[i].body, m.fields)
  {
    var m := Run(Fresh(anyStatus), ops + [Get]);
    LatestText(Fresh(anyStatus).fields, ops, i);
    FinalArrays(anyStatus, ops);
    FinalChunks(anyStatus, ops);
    FirstIsBody(m.fields);
    var g := Group(m.fields);
    assert m.resp.chunks[|m.resp.chunks| - |g|] == m.resp.chunks[|m.resp.chunks| - |g|..][0];
  }

  /** Without a body set last, no chunk of the final call is a body. */
  lemma EmptyBodyIsAbsent(anyStatus: nat, ops: seq<Op>)
    requires Settings(Fresh(anyStatus).fields, ops).body == ""
    ensures var m := Run(Fresh(anyStatus), ops + [Get]);
      var before := Groups(Calls(Fresh(anyStatus).fields, ops));
      m.resp.chunks == if m.fields.trailers == [] then before
                       else before + [Trailers(|m.fields.trailers| % USHORT_RANGE, m.fields.trailerSets)]
  {
    var f := Fresh(anyStatus).fields;
    var g, fs := Settings(f, ops), Calls(f, ops);
    RunPublishes(anyStatus, ops + [Get]);
    CallsSnoc(f, ops);
    assert (fs + [g])[..|fs|] == fs;
    assert Groups(fs + [g]) == Groups(fs) + Group(g);
  }

  /** The slot of a known header holds the value of the latest add_known_header for
      its id, and nothing without such a call. */
  lemma KnownHeadersAreCalls(anyStatus: nat, ops: seq<Op>, id: nat, data: string)
    requires id < KNOWN_HEADERS
    ensures var r := Run(Fresh(anyStatus), ops + [Get]).resp;
      && |r.known| == KNOWN_HEADERS
      && ((exists i :: 0 <= i < |ops| && ops[i] == AddKnown(id, data) && Latest(ops, i)) ==>
            r.known[id] == Slot(data, |data| % USHORT_RANGE))
      && ((forall op :: op in ops && op.AddKnown? ==> op.id != id) ==> r.known[id] == Slot("", 0))
  {
    var f := Fresh(anyStatus).fields;
    FinalArrays(anyStatus, ops);
    if i :| 0 <= i < |ops| && ops[i] == AddKnown(id, data) && Latest(ops, i) {
      LatestKnownCall(f, ops, i);
    }
    if forall op :: op in ops && op.AddKnown? ==> op.id != id {
      UntouchedKnown(f, ops, id);
    }
  }

  /** A header field in an array of headers. */
  predicate InArray(list: seq<Header>, name: string, val: string) {
    Header(name, |name| % USHORT_RANGE, val, |val| % USHORT_RANGE) in list
  }

  lemma InArrayIsEntry(m: Entries, name: string, val: string)
    ensures InArray(Encode(m), name, val) <==> Entry(name, val) in m
  {
    var h := Header(name, |name| % USHORT_RANGE, val, |val| % USHORT_RANGE);
    if Entry(name, val) in m {
      var i :| 0 <= i < |m| && m[i] == Entry(name, val);
      assert Encode(m)[i] == h;
    }
    if h in Encode(m) {
      var i :| 0 <= i < |m| && Encode(m)[i] == h;
      assert m[i] == Entry(name, val);
    }
  }

  /** The latest of the calls that add this header. */
  lemma {:induction false} LatestOf(ops: seq<Op>, name: string) returns (i: nat)
    requires exists op :: op in ops && op.AddUnknown? && op.name == name
    ensures i < |ops| && ops[i].AddUnknown? && ops[i].name == name && Latest(ops, i)
    decreases |ops|
  {
    var n := |ops| - 1;
    if ops[n].AddUnknown? && ops[n].name == name {
      i := n;
    } else {
      var op :| op in ops && op.AddUnknown? && op.name == name;
      assert op in ops[..n];
      i := LatestOf(ops[..n], name);
      assert ops[i + 1..] == ops[..n][i + 1..] + [ops[n]];
    }
  }

  lemma {:induction false} LatestTrailerOf(ops: seq<Op>, name: string) returns (i: nat)
    requires exists op :: op in ops && op.AddTrailer? && op.name == name
    ensures i < |ops| && ops[i].AddTrailer? && ops[i].name == name && Latest(ops, i)
    decreases |ops|
  {
    var n := |ops| - 1;
    if ops[n].AddTrailer? && ops[n].name == name {
      i := n;
    } else {
      var op :| op in ops && op.AddTrailer? && op.name == name;
      assert op in ops[..n];
      i := LatestTrailerOf(ops[..n], name);
      assert ops[i + 1..] == ops[..n][i + 1..] + [ops[n]];
    }
  }

  /** The unknown headers published by a final get_response are those of the
      add_unknown_header calls: a name with a value, if and only if the latest call
      for the name gave it that value. */
  lemma UnknownHeadersAreCalls(anyStatus: nat, ops: seq<Op>, name: string, val: string)
    ensures InArray(Run(Fresh(anyStatus), ops + [Get]).resp.unknown, name, val) <==>
      exists i :: 0 <= i < |ops| && ops[i] == AddUnknown(name, val) && Latest(ops, i)
  {
    var f := Fresh(anyStatus).fields;
    FinalArrays(anyStatus, ops);
    InArrayIsEntry(Settings(f, ops).unknown, name, val);
    if op :| op in ops && op.AddUnknown? && op.name == name {
      var i := LatestOf(ops, name);
      LatestUnknownCall(f, ops, i, val);
      if j :| 0 <= j < |ops| && ops[j] == AddUnknown(name, val) && Latest(ops, j) {
        LatestUnknownCall(f, ops, j, val);
      }
    } else {
      UntouchedUnknown(f, ops, name, val);
    }
  }

  /** So with the trailers, in the array the last chunk points to. */
  lemma TrailersAreCalls(anyStatus: nat, ops: seq<Op>, name: string, val: string)
    ensures var m := Run(Fresh(anyStatus), ops + [Get]);
      && (m.fields.trailers != [] ==>
            && m.resp.chunks != [] && m.resp.chunks[|m.resp.chunks| - 1].Trailers?
            && TrailerList(m.resp.chunks[|m.resp.chunks| - 1], m.fields) == Some(Encode(m.fields.trailers)))
      && (InArray(Encode(m.fields.trailers), name, val) <==>
            exists i :: 0 <= i < |ops| && ops[i] == Op.AddTrailer(name, val) && Latest(ops, i))
  {
    var f, m := Fresh(anyStatus).fields, Run(Fresh(anyStatus), ops + [Get]);
    var g := Settings(f, ops);
    FinalArrays(anyStatus, ops);
    FinalChunks(anyStatus, ops);
    if g.trailers != [] {
      var n := |m.resp.chunks|;
      assert m.resp.chunks[n - 1] == m.resp.chunks[n - |Group(g)|..][|Group(g)| - 1];
    }
    InArrayIsEntry(g.trailers, name, val);
    if op :| op in ops && op.AddTrailer? && op.name == name {
      var i := LatestTrailerOf(ops, name);
      LatestTrailerCall(f, ops, i, val);
      if j :| 0 <= j < |ops| && ops[j] == Op.AddTrailer(name, val) && Latest(ops, j) {
        LatestTrailerCall(f, ops, j, val);
      }
    } else {
      UntouchedTrailer(f, ops, name, val);
    }
  }

  /** What decoding the published arrays gives: under the sizes of the format, the
      map of the latest call for each name, and nothing else. */
  lemma DecodedHeadersAreCalls(anyStatus: nat, ops: seq<Op>, name: string, val: string)
    requires var r := Run(Fresh(anyStatus), ops + [Get]).resp;
      |r.unknown| < USHORT_RANGE && forall i :: 0 <= i < |r.unknown| ==>
        |r.unknown[i].name| < USHORT_RANGE && |r.unknown[i].raw| < USHORT_RANGE
    ensures var r := Run(Fresh(anyStatus), ops + [Get]).resp;
      && AllValid(r.unknown) && r.unknownCount <= |r.unknown|
      && var headers := DecodeHeaders(r.unknown, r.unknownCount, map[]);
         (name in headers && headers[name] == val) <==>
           exists i :: 0 <= i < |ops| && ops[i] == AddUnknown(name, val) && Latest(ops, i)
  {
    var f, r := Fresh(anyStatus).fields, Run(Fresh(anyStatus), ops + [Get]).resp;
    var entries := Settings(f, ops).unknown;
    FinalArrays(anyStatus, ops);
    SettingsSorted(f, ops);
    assert Marshallable(entries) by {
      assert forall i :: 0 <= i < |entries| ==> r.unknown[i] == HeaderOf(entries[i]);
    }
    HeadersRoundTrip(entries);
    EntriesAreItems(entries, name, val);
    UnknownHeadersAreCalls(anyStatus, ops, name, val);
    InArrayIsEntry(entries, name, val);
  }

  /** A value as far as its 16-bit length goes. */
  function Cut(data: string): string {
    data[..|data| % USHORT_RANGE]
  }

  /** Decoding the published known headers gives, for each id, the value of the
      latest call for it, as far as its 16-bit length goes and unless that is 0. */
  lemma DecodedKnownAreCalls(anyStatus: nat, ops: seq<Op>, id: nat, data: string)
    requires id < KNOWN_HEADERS
    ensures var r := Run(Fresh(anyStatus), ops + [Get]).resp;
      && |r.known| == KNOWN_HEADERS && SlotsValid(r.known)
      && var headers := DecodeKnown(r.known, KNOWN_HEADERS);
         && ((exists i :: 0 <= i < |ops| && ops[i] == AddKnown(id, data) && Latest(ops, i)) ==>
               if Cut(data) == "" then id !in headers else id in headers && headers[id] == Cut(data))
         && ((forall op :: op in ops && op.AddKnown? ==> op.id != id) ==> id !in headers)
  {
    var r, f := Run(Fresh(anyStatus), ops + [Get]).resp, Fresh(anyStatus).fields;
    FinalArrays(anyStatus, ops);
    KnownRoundTrip(Settings(f, ops).known);
    KnownHeadersAreCalls(anyStatus, ops, id, data);
    DecodeKnownHolds(r.known, KNOWN_HEADERS);
  }
}
