/** Marshalling: a response's maps become the arrays and 16-bit lengths of the
    HTTP Server API, and a request's arrays become maps again. The pointers of
    headers are modelled by the text they point to; those of chunks, which are
    kept from call to call, by what they were taken from. */
module Convert {
  import opened Basics
  import opened OrderedMaps

  /** Entries of the known-header array of a response. */
  const KNOWN_HEADERS: nat := 30

  const CONTENT_TYPE: nat := 12

  /** HTTP_KNOWN_HEADER: a text and the length the reader goes by. */
  datatype Slot = Slot(raw: string, length: nat) {
    predicate Valid() { length <= |raw| }

    function Text(): string
      requires Valid()
    {
      raw[..length]
    }
  }

  /** HTTP_UNKNOWN_HEADER. */
  datatype Header = Header(name: string, nameLength: nat, raw: string, rawLength: nat) {
    predicate Valid() { nameLength <= |name| && rawLength <= |raw| }

    function Read(): Entry
      requires Valid()
    {
      Entry(name[..nameLength], raw[..rawLength])
    }
  }

  /** HTTP_DATA_CHUNK: a length or count, and a pointer into the body string or
      into the array of trailers. at says which: how often the body, or the
      trailers, had been set when it was taken. */
  datatype Chunk =
    | FromMemory(length: nat, at: nat)
    | Trailers(count: nat, at: nat)

  /** HTTP_RESPONSE. */
  datatype Response = Response(
    status: nat,
    reason: string,
    reasonLength: nat,
    known: seq<Slot>,
    unknownCount: nat,
    unknown: seq<Header>,
    chunkCount: nat,
    chunks: seq<Chunk>)

  function EmptySlots(n: nat): (r: seq<Slot>)
    ensures |r| == n && forall i :: 0 <= i < n ==> r[i] == Slot("", 0)
  {
    seq(n, _ => Slot("", 0))
  }

  const BLANK: Response := Response(0, "", 0, EmptySlots(KNOWN_HEADERS), 0, [], 0, [])

  function KnownSlot(v: string): (s: Slot)
    ensures s.Valid()
  {
    Slot(v, |v| % USHORT_RANGE)
  }

  function HeaderOf(e: Entry): (h: Header)
    ensures h.Valid()
  {
    Header(e.key, |e.key| % USHORT_RANGE, e.value, |e.value| % USHORT_RANGE)
  }

  function Encode(m: Entries): (r: seq<Header>)
    ensures |r| == |m|
    ensures forall i :: 0 <= i < |m| ==> r[i] == HeaderOf(m[i])
  {
    seq(|m|, i requires 0 <= i < |m| => HeaderOf(m[i]))
  }

  /** The known headers written into the array; other slots stay. */
  function Filled(slots: seq<Slot>, known: map<nat, string>): (r: seq<Slot>)
    ensures |r| == |slots|
    ensures forall i :: 0 <= i < |slots| ==> r[i] == if i in known then KnownSlot(known[i]) else slots[i]
  {
    seq(|slots|, i requires 0 <= i < |slots| => if i in known then KnownSlot(known[i]) else slots[i])
  }

  /** What the application has set, and how often the body and the trailers. */
  datatype Fields = Fields(
    status: nat,
    reason: string,
    body: string,
    known: map<nat, string>,
    unknown: Entries,
    trailers: Entries,
    bodySets: nat,
    trailerSets: nat)

  /** The chunks one call appends: the body if any, then the trailers if any. */
  function Group(f: Fields): seq<Chunk> {
    (if f.body == "" then [] else [FromMemory(|f.body| % DWORD_RANGE, f.bodySets)])
    + (if f.trailers == [] then [] else [Trailers(|f.trailers| % USHORT_RANGE, f.trailerSets)])
  }

  /** get_response: the new structure and the chunk list it points into. Counts
      and lists are published only when they are not empty. */
  function Rendered(r: Response, chunks: seq<Chunk>, f: Fields): (Response, seq<Chunk>) {
    var all := chunks + Group(f);
    (Response(
       f.status, f.reason, |f.reason| % USHORT_RANGE,
       Filled(r.known, f.known),
       if f.unknown == [] then r.unknownCount else |f.unknown| % USHORT_RANGE,
       if f.unknown == [] then r.unknown else Encode(f.unknown),
       if all == [] then r.chunkCount else |all| % USHORT_RANGE,
       if all == [] then r.chunks else all),
     all)
  }

  predicate AllInside(ids: set<nat>) {
    forall id :: id in ids ==> id < KNOWN_HEADERS
  }

  lemma InsideMore(ids: set<nat>, todo: set<nat>, id: nat)
    requires id in ids && id in todo
    ensures AllInside(ids - (todo - {id})) <==> AllInside(ids - todo) && id < KNOWN_HEADERS
  {
    assert forall x :: x in ids - (todo - {id}) <==> x in ids - todo || x == id;
  }

  /** The calls an application makes to a response. */
  datatype Op =
    | SetReason(reason: string)
    | SetStatus(code: nat)
    | SetBody(body: string)
    | AddKnown(id: nat, data: string)
    | AddUnknown(name: string, val: string)
    | AddTrailer(name: string, val: string)
    | Get

  /** A response: what get_response has published, and what has been set. */
  datatype Message = Message(resp: Response, chunks: seq<Chunk>, fields: Fields)

  const UNSET: Fields := Fields(0, "", "", map[], [], [], 0, 0)

  /** The constructor leaves the status as it finds it. */
  function Fresh(anyStatus: nat): Message {
    Message(BLANK, [], UNSET.(status := anyStatus))
  }

  function Set(f: Fields, op: Op): Fields {
    match op
    case SetReason(r) => f.(reason := r)
    case SetStatus(c) => f.(status := c)
    case SetBody(b) => f.(body := b, bodySets := f.bodySets + 1)
    case AddKnown(id, d) => f.(known := f.known[id := d])
    case AddUnknown(n, v) => f.(unknown := Put(f.unknown, n, v))
    case AddTrailer(n, v) => f.(trailers := Put(f.trailers, n, v), trailerSets := f.trailerSets + 1)
    case Get => f
  }

  function Apply(m: Message, op: Op): Message {
    if op.Get? then
      var (r, c) := Rendered(m.resp, m.chunks, m.fields);
      Message(r, c, m.fields)
    else m.(fields := Set(m.fields, op))
  }

  /** The loop that turns a map into an array, in the order of the map. */
  method FillBuffer(m: Entries) returns (buff: seq<Header>)
    ensures buff == Encode(m)
  {
    buff := [];
    for i := 0 to |m|
      invariant buff == Encode(m[..i])
    {
      var x := m[i];
      buff := buff + [Header(x.key, |x.key| % USHORT_RANGE, x.value, |x.value| % USHORT_RANGE)];
    }
    assert m[..|m|] == m;
  }

  class SimpleResponse {
    var resp: Response
    var dataChunks: seq<Chunk>
    var reason: string
    var status: nat
    var body: string
    var known: map<nat, string>
    var unknown: Entries
    var unknownBuff: seq<Header>
    var trailers: Entries
    var trailersBuff: seq<Header>
    /** How often the body and the trailers have been set: the identity of what
        pointers are taken from. */
    var bodySets: nat
    var trailerSets: nat

    ghost predicate Valid()
      reads this
    {
      |resp.known| == KNOWN_HEADERS && Sorted(unknown) && Sorted(trailers)
    }

    function View(): Message
      reads this
    {
      Message(resp, dataChunks, Fields(status, reason, body, known, unknown, trailers, bodySets, trailerSets))
    }

    constructor (anyStatus: nat)
      ensures Valid() && View() == Fresh(anyStatus)
      ensures View().fields == Fields(anyStatus, "", "", map[], [], [], 0, 0) && dataChunks == []
    {
      resp := BLANK;
      dataChunks := [];
      reason := "";
      status := anyStatus; // the constructor leaves it unset
      body := "";
      known := map[];
      unknown := [];
      unknownBuff := [];
      trailers := [];
      trailersBuff := [];
      bodySets, trailerSets := 0, 0;
    }

    method SetReason(r: string)
      requires Valid()
      modifies `reason
      ensures Valid() && View() == Apply(old(View()), Op.SetReason(r))
    {
      reason := r;
    }

    method SetStatusCode(code: nat)
      requires Valid()
      modifies `status
      ensures Valid() && View() == Apply(old(View()), SetStatus(code))
    {
      status := code;
    }

    method SetBody(b: string)
      requires Valid()
      modifies `body, `bodySets
      ensures Valid() && View() == Apply(old(View()), Op.SetBody(b))
    {
      body := b;
      bodySets := bodySets + 1;
    }

    method AddKnownHeader(id: nat, data: string)
      requires Valid()
      modifies `known
      ensures Valid() && View() == Apply(old(View()), AddKnown(id, data))
    {
      known := known[id := data];
    }

    method SetContentType(contentType: string)
      requires Valid()
      modifies `known
      ensures Valid() && View() == Apply(old(View()), AddKnown(12, contentType))
    {
      AddKnownHeader(CONTENT_TYPE, contentType);
    }

    method AddUnknownHeader(name: string, val: string)
      requires Valid()
      modifies `unknown
      ensures Valid() && View() == Apply(old(View()), AddUnknown(name, val))
    {
      PutSorted(unknown, name, val);
      unknown := Put(unknown, name, val);
    }

    method AddTrailer(name: string, val: string)
      requires Valid()
      modifies `trailers, `trailerSets
      ensures Valid() && View() == Apply(old(View()), Op.AddTrailer(name, val))
    {
      PutSorted(trailers, name, val);
      trailers := Put(trailers, name, val);
      trailerSets := trailerSets + 1;
    }

    /** An id past the end of the array is not checked for: inside is false when
        such a slot has been written. */
    method FillKnown() returns (inside: bool)
      requires Valid()
      modifies `resp
      ensures resp == old(resp).(known := Filled(old(resp.known), known))
      ensures inside <==> AllInside(known.Keys)
    {
      var todo := known.Keys;
      inside := true;
      while todo != {}
        invariant todo <= known.Keys
        invariant |resp.known| == KNOWN_HEADERS && resp == old(resp).(known := resp.known)
        invariant inside <==> AllInside(known.Keys - todo)
        invariant forall i :: 0 <= i < KNOWN_HEADERS ==>
          resp.known[i] == if i in known && i !in todo then KnownSlot(known[i]) else old(resp.known[i])
      {
        var id :| id in todo;
        if id < KNOWN_HEADERS {
          resp := resp.(known := resp.known[id := KnownSlot(known[id])]);
        } else {
          inside := false;
        }
        InsideMore(known.Keys, todo, id);
        todo := todo - {id};
      }
      assert known.Keys - {} == known.Keys;
      assert resp.known == Filled(old(resp.known), known);
    }

    /** The body and the trailers, each if it is not empty. */
    method AppendChunks()
      requires Valid()
      modifies `trailersBuff, `dataChunks
      ensures dataChunks == old(dataChunks) + Group(View().fields) && trailersBuff == Encode(trailers)
    {
      if |body| > 0 {
        dataChunks := dataChunks + [FromMemory(|body| % DWORD_RANGE, bodySets)];
      }
      trailersBuff := FillBuffer(trailers);
      if |trailersBuff| > 0 {
        dataChunks := dataChunks + [Trailers(|trailersBuff| % USHORT_RANGE, trailerSets)];
      }
    }

    method GetResponse() returns (inside: bool)
      requires Valid()
      modifies `resp, `unknownBuff, `trailersBuff, `dataChunks
      ensures Valid()
      ensures View() == Apply(old(View()), Get)
      ensures unknownBuff == Encode(unknown) && trailersBuff == Encode(trailers)
      ensures inside <==> AllInside(known.Keys)
    {
      resp := resp.(status := status, reason := reason, reasonLength := |reason| % USHORT_RANGE);
      inside := FillKnown();

      unknownBuff := FillBuffer(unknown);
      if |unknownBuff| > 0 {
        resp := resp.(unknownCount := |unknownBuff| % USHORT_RANGE, unknown := unknownBuff);
      }

      AppendChunks();
      if |dataChunks| > 0 {
        resp := resp.(chunkCount := |dataChunks| % USHORT_RANGE, chunks := dataChunks);
      }
    }
  }

  // ---- the decoders ----

  predicate AllValid(list: seq<Header>) {
    forall i :: 0 <= i < |list| ==> list[i].Valid()
  }

  predicate SlotsValid(slots: seq<Slot>) {
    forall i :: 0 <= i < |slots| ==> slots[i].Valid()
  }

  /** The map left behind by reading the first n headers of an array. */
  function DecodeHeaders(list: seq<Header>, n: nat, into: map<string, string>): map<string, string>
    requires n <= |list| && AllValid(list)
  {
    if n == 0 then into
    else
      var e := list[n - 1].Read();
      DecodeHeaders(list, n - 1, into)[e.key := e.value]
  }

  /** get_unknown_headers_all. */
  method GetUnknownHeadersAll(list: seq<Header>, count: nat, into: map<string, string>)
    returns (headers: map<string, string>)
    requires count <= |list| && AllValid(list)
    ensures headers == DecodeHeaders(list, count, into)
  {
    headers := into;
    if count == 0 {
      return;
    }
    for i := 0 to count
      invariant headers == DecodeHeaders(list, i, into)
    {
      var h := list[i];
      headers := headers[h.name[..h.nameLength] := h.raw[..h.rawLength]];
    }
  }

  predicate IsNamed(h: Header, name: string) {
    h.Valid() && h.name[..h.nameLength] == name
  }

  /** A name that none of the headers has keeps what it had. */
  lemma {:induction false} OtherNamesStay(list: seq<Header>, n: nat, into: map<string, string>, name: string)
    requires n <= |list| && AllValid(list) && forall j :: 0 <= j < n ==> !IsNamed(list[j], name)
    ensures name in DecodeHeaders(list, n, into) <==> name in into
    ensures name in into ==> DecodeHeaders(list, n, into)[name] == into[name]
    decreases n
  {
    if n > 0 {
      OtherNamesStay(list, n - 1, into, name);
    }
  }

  /** The latest of several headers of a name decides. */
  lemma {:induction false} LatestHeaderDecides(
    list: seq<Header>, n: nat, into: map<string, string>, name: string, i: nat)
    requires i < n <= |list| && AllValid(list) && IsNamed(list[i], name)
    requires forall j :: i < j < n ==> !IsNamed(list[j], name)
    ensures var m := DecodeHeaders(list, n, into);
      name in m && m[name] == list[i].raw[..list[i].rawLength]
    decreases n
  {
    if i < n - 1 {
      LatestHeaderDecides(list, n - 1, into, name, i);
    }
  }

  /** The non-empty ones of the first n slots, by id. */
  function DecodeKnown(slots: seq<Slot>, n: nat): map<nat, string>
    requires n <= |slots| && SlotsValid(slots)
  {
    if n == 0 then map[]
    else if slots[n - 1].length == 0 then DecodeKnown(slots, n - 1)
    else DecodeKnown(slots, n - 1)[n - 1 := slots[n - 1].Text()]
  }

  /** Each slot that is not empty gives an entry, and there is no other. */
  lemma {:induction false} DecodeKnownHolds(slots: seq<Slot>, n: nat)
    requires n <= |slots| && SlotsValid(slots)
    ensures var m := DecodeKnown(slots, n);
      && (forall i: nat :: i in m <==> i < n && slots[i].length != 0)
      && (forall i: nat :: i in m ==> m[i] == slots[i].Text())
    decreases n
  {
    if n > 0 {
      DecodeKnownHolds(slots, n - 1);
    }
  }

  /** get_known_headers_all. */
  method GetKnownHeadersAll(slots: seq<Slot>, into: map<nat, string>) returns (headers: map<nat, string>)
    requires SlotsValid(slots)
    ensures headers == into + DecodeKnown(slots, |slots|)
  {
    headers := into;
    for i := 0 to |slots|
      invariant headers == into + DecodeKnown(slots, i)
    {
      var s := slots[i];
      if s.length == 0 {
        continue;
      }
      headers := headers[i := s.raw[..s.length]];
    }
  }

  // ---- round trips ----

  predicate Short(e: Entry) {
    |e.key| < USHORT_RANGE && |e.value| < USHORT_RANGE
  }

  /** Fits the 16-bit lengths and the 16-bit count. */
  predicate Marshallable(m: Entries) {
    |m| < USHORT_RANGE && forall i :: 0 <= i < |m| ==> Short(m[i])
  }

  lemma {:induction false} DecodeShort(m: Entries, n: nat)
    requires n <= |m| && forall i :: 0 <= i < n ==> Short(m[i])
    ensures DecodeHeaders(Encode(m), n, map[]) == ToMap(m[..n])
    decreases n
  {
    if n > 0 {
      DecodeShort(m, n - 1);
      assert m[..n][..n - 1] == m[..n - 1];
      assert HeaderOf(m[n - 1]).Read() == m[n - 1];
    }
  }

  /** What comes out of an array has short names and values, and no more of
      them than were read. */
  lemma {:induction false} DecodedIsShort(m: Entries, n: nat)
    requires n <= |m|
    ensures var d := DecodeHeaders(Encode(m), n, map[]);
      |d| <= n && forall k :: k in d ==> |k| < USHORT_RANGE && |d[k]| < USHORT_RANGE
    decreases n
  {
    if n > 0 {
      DecodedIsShort(m, n - 1);
    }
  }

  /** A map whose entries are short, and which has fewer than 2^16 of them. */
  lemma ShortMapIsMarshallable(m: Entries, d: map<string, string>)
    requires Sorted(m) && d == ToMap(m) && |d| <= |m| % USHORT_RANGE
    requires forall k :: k in d ==> |k| < USHORT_RANGE && |d[k]| < USHORT_RANGE
    ensures Marshallable(m)
  {
    ToMapFaithful(m);
    forall i | 0 <= i < |m| ensures Short(m[i]) {
      assert m[i].key in d;
    }
  }

  lemma MarshallableDecodes(m: Entries)
    requires Marshallable(m)
    ensures DecodeHeaders(Encode(m), |m| % USHORT_RANGE, map[]) == ToMap(m)
  {
    DecodeShort(m, |m|);
    assert m[..|m|] == m && |m| % USHORT_RANGE == |m|;
  }

  lemma DecodesOnlyMarshallable(m: Entries)
    requires Sorted(m) && DecodeHeaders(Encode(m), |m| % USHORT_RANGE, map[]) == ToMap(m)
    ensures Marshallable(m)
  {
    DecodedIsShort(m, |m| % USHORT_RANGE);
    ShortMapIsMarshallable(m, ToMap(m));
  }

  /** Reading count headers of a list gives the map m. */
  predicate ReadsBack(list: seq<Header>, count: nat, m: Entries) {
    AllValid(list) && count <= |list| && DecodeHeaders(list, count, map[]) == ToMap(m)
  }

  /** Decoding the array with its published count gives the map back exactly
      when names, values and the number of entries fit in 16 bits. */
  lemma HeadersRoundTrip(m: Entries)
    requires Sorted(m)
    ensures ReadsBack(Encode(m), |m| % USHORT_RANGE, m) <==> Marshallable(m)
  {
    if Marshallable(m) {
      MarshallableDecodes(m);
    } else if DecodeHeaders(Encode(m), |m| % USHORT_RANGE, map[]) == ToMap(m) {
      DecodesOnlyMarshallable(m);
    }
  }

  function NonEmpty(known: map<nat, string>): map<nat, string> {
    map id | id in known && known[id] != "" :: known[id]
  }

  /** What is not empty has a slot in the array and fits in 16 bits. */
  predicate KnownFits(known: map<nat, string>) {
    forall id :: id in known && known[id] != "" ==> id < KNOWN_HEADERS && |known[id]| < USHORT_RANGE
  }

  /** A slot of a fresh array after the known headers have been written. */
  lemma SlotOf(known: map<nat, string>, id: nat)
    requires id < KNOWN_HEADERS
    ensures var s := Filled(BLANK.known, known)[id];
      && s.Valid() && |s.Text()| < USHORT_RANGE
      && (id !in known ==> s.length == 0)
      && (id in known && |known[id]| < USHORT_RANGE ==> s == Slot(known[id], |known[id]|))
  {
  }

  lemma KnownFitsDecodes(known: map<nat, string>)
    requires KnownFits(known) && SlotsValid(Filled(BLANK.known, known))
    ensures DecodeKnown(Filled(BLANK.known, known), KNOWN_HEADERS) == NonEmpty(known)
  {
    var slots := Filled(BLANK.known, known);
    var d, want := DecodeKnown(slots, KNOWN_HEADERS), NonEmpty(known);
    DecodeKnownHolds(slots, KNOWN_HEADERS);
    forall id: nat ensures id in d <==> id in want {
      if id < KNOWN_HEADERS {
        SlotOf(known, id);
      }
    }
    forall id: nat | id in d ensures d[id] == want[id] {
      SlotOf(known, id);
      assert slots[id].Text() == known[id];
    }
  }

  lemma DecodesOnlyFitting(known: map<nat, string>)
    requires SlotsValid(Filled(BLANK.known, known))
    requires DecodeKnown(Filled(BLANK.known, known), KNOWN_HEADERS) == NonEmpty(known)
    ensures KnownFits(known)
  {
    DecodeKnownHolds(Filled(BLANK.known, known), KNOWN_HEADERS);
    forall id | id in known && known[id] != "" ensures id < KNOWN_HEADERS && |known[id]| < USHORT_RANGE {
      assert id in NonEmpty(known);
      SlotOf(known, id);
    }
  }

  /** The known headers of a fresh response come back, without the empty ones,
      exactly when every other one has a slot and fits in 16 bits. */
  lemma KnownRoundTrip(known: map<nat, string>)
    ensures SlotsValid(Filled(BLANK.known, known))
    ensures DecodeKnown(Filled(BLANK.known, known), KNOWN_HEADERS) == NonEmpty(known) <==> KnownFits(known)
  {
    var slots := Filled(BLANK.known, known);
    forall id | 0 <= id < KNOWN_HEADERS ensures slots[id].Valid() {
      SlotOf(known, id);
    }
    if KnownFits(known) {
      KnownFitsDecodes(known);
    }
    if DecodeKnown(slots, KNOWN_HEADERS) == NonEmpty(known) {
      DecodesOnlyFitting(known);
    }
  }

  // ---- several calls ----

  /** A response and its chunk list after a call of get_response with each of
      these field values in turn. */
  function After(fs: seq<Fields>): (Response, seq<Chunk>) {
    if fs == [] then (BLANK, [])
    else
      var before := After(fs[..|fs| - 1]);
      Rendered(before.0, before.1, fs[|fs| - 1])
  }

  /** The chunk groups of all calls. */
  function Groups(fs: seq<Fields>): seq<Chunk> {
    if fs == [] then [] else Groups(fs[..|fs| - 1]) + Group(fs[|fs| - 1])
  }

  /** The unknown headers of the latest call that had any. */
  function LatestUnknown(fs: seq<Fields>): Entries {
    if fs == [] then []
    else if fs[|fs| - 1].unknown != [] then fs[|fs| - 1].unknown
    else LatestUnknown(fs[..|fs| - 1])
  }

  /** A known header as the latest call that had it has left it. */
  function LatestKnown(fs: seq<Fields>, id: nat): Slot {
    if fs == [] then Slot("", 0)
    else if id in fs[|fs| - 1].known then KnownSlot(fs[|fs| - 1].known[id])
    else LatestKnown(fs[..|fs| - 1], id)
  }

  /** The headers and chunks published after these calls. */
  predicate Published(fs: seq<Fields>, r: Response, chunks: seq<Chunk>) {
    && |r.known| == KNOWN_HEADERS
    && (forall id :: 0 <= id < KNOWN_HEADERS ==> r.known[id] == LatestKnown(fs, id))
    && r.unknown == Encode(LatestUnknown(fs)) && r.unknownCount == |LatestUnknown(fs)| % USHORT_RANGE
    && chunks == r.chunks == Groups(fs) && r.chunkCount == |Groups(fs)| % USHORT_RANGE
  }

  lemma PublishedStep(before: seq<Fields>, r: Response, chunks: seq<Chunk>, f: Fields)
    requires Published(before, r, chunks)
    ensures var (r', chunks') := Rendered(r, chunks, f); Published(before + [f], r', chunks')
  {
    var fs := before + [f];
    assert fs[..|fs| - 1] == before;
    var (r', _) := Rendered(r, chunks, f);
    forall id | 0 <= id < KNOWN_HEADERS ensures r'.known[id] == LatestKnown(fs, id) {
      assert r.known[id] == LatestKnown(before, id);
    }
  }

  lemma {:induction false} AlwaysPublished(fs: seq<Fields>)
    ensures Published(fs, After(fs).0, After(fs).1)
    decreases |fs|
  {
    if fs == [] {
      assert Encode([]) == [];
    } else {
      var before := fs[..|fs| - 1];
      AlwaysPublished(before);
      PublishedStep(before, After(before).0, After(before).1, fs[|fs| - 1]);
      assert before + [fs[|fs| - 1]] == fs;
    }
  }

  /** Whatever the application sets between the calls: status, reason and headers
      are the latest ones, but the chunks of every call are published, in order,
      each with the length or count of its own call, and their number is taken
      modulo 2^16. */
  lemma CallsPileUp(fs: seq<Fields>)
    requires fs != []
    ensures var (r, chunks), f := After(fs), fs[|fs| - 1];
      && r.status == f.status && r.reason == f.reason && r.reasonLength == |f.reason| % USHORT_RANGE
      && Published(fs, r, chunks)
  {
    AlwaysPublished(fs);
  }

  // ---- what the chunks of earlier calls point to ----

  /** The text a body chunk stands for, as long as its pointer can be relied on:
      setting the body again overwrites or frees the string it was taken from. */
  function BodyText(c: Chunk, now: Fields): Option<string>
    requires c.FromMemory?
  {
    if c.at == now.bodySets && c.length <= |now.body| then Some(now.body[..c.length]) else None
  }

  /** The array a trailers chunk stands for: the one of the latest call, which is
      filled anew once the trailers have been set again. */
  function TrailerList(c: Chunk, now: Fields): Option<seq<Header>>
    requires c.Trailers?
  {
    if c.at == now.trailerSets then Some(Encode(now.trailers)) else None
  }

  /** What is set after the application's calls. */
  function Settings(f: Fields, ops: seq<Op>): Fields {
    if ops == [] then f else Set(Settings(f, ops[..|ops| - 1]), ops[|ops| - 1])
  }

  /** The field values each get_response among the calls has met. */
  function Calls(f: Fields, ops: seq<Op>): seq<Fields> {
    if ops == [] then []
    else
      var before := ops[..|ops| - 1];
      if ops[|ops| - 1].Get? then Calls(f, before) + [Settings(f, before)] else Calls(f, before)
  }

  /** A response after the application's calls. */
  function Run(m: Message, ops: seq<Op>): Message {
    if ops == [] then m else Apply(Run(m, ops[..|ops| - 1]), ops[|ops| - 1])
  }

  lemma ApplyIs(m: Message, op: Op)
    ensures Apply(m, op).fields == Set(m.fields, op)
    ensures op.Get? ==> (Apply(m, op).resp, Apply(m, op).chunks) == Rendered(m.resp, m.chunks, m.fields)
    ensures !op.Get? ==> Apply(m, op).resp == m.resp && Apply(m, op).chunks == m.chunks
  {
  }

  /** A run of the object publishes what its get_response calls, in turn, do. */
  lemma {:induction false} RunPublishes(anyStatus: nat, ops: seq<Op>)
    ensures var m, f := Run(Fresh(anyStatus), ops), Fresh(anyStatus).fields;
      m.fields == Settings(f, ops) && Published(Calls(f, ops), m.resp, m.chunks)
    decreases |ops|
  {
    var f := Fresh(anyStatus).fields;
    if ops == [] {
      assert Published([], BLANK, []) by {
        AlwaysPublished([]);
      }
    } else {
      var before, op := ops[..|ops| - 1], ops[|ops| - 1];
      var m := Run(Fresh(anyStatus), before);
      RunPublishes(anyStatus, before);
      ApplyIs(m, op);
      if op.Get? {
        PublishedStep(Calls(f, before), m.resp, m.chunks, m.fields);
      }
    }
  }

  lemma {:induction false} SettingsSplit(f: Fields, ops: seq<Op>, k: nat)
    requires k <= |ops|
    ensures Settings(f, ops) == Settings(Settings(f, ops[..k]), ops[k..])
    decreases |ops|
  {
    if k < |ops| {
      var n := |ops| - 1;
      SettingsSplit(f, ops[..n], k);
      assert ops[..n][..k] == ops[..k] && ops[k..][..n - k] == ops[..n][k..];
    } else {
      assert ops[..k] == ops && ops[k..] == [];
    }
  }

  predicate SetsBody(ops: seq<Op>) {
    exists i :: 0 <= i < |ops| && ops[i].SetBody?
  }

  predicate SetsTrailers(ops: seq<Op>) {
    exists i :: 0 <= i < |ops| && ops[i].AddTrailer?
  }

  lemma SetsSnoc(before: seq<Op>, op: Op)
    ensures SetsBody(before + [op]) <==> SetsBody(before) || op.SetBody?
    ensures SetsTrailers(before + [op]) <==> SetsTrailers(before) || op.AddTrailer?
  {
    var ops := before + [op];
    assert ops[|before|] == op && forall i :: 0 <= i < |before| ==> ops[i] == before[i];
  }

  /** The counters tell whether the body or the trailers have been set. */
  lemma {:induction false} CountersTell(f: Fields, ops: seq<Op>)
    ensures var g := Settings(f, ops);
      && f.bodySets <= g.bodySets && f.trailerSets <= g.trailerSets
      && (f.bodySets == g.bodySets <==> !SetsBody(ops)) && (!SetsBody(ops) ==> g.body == f.body)
      && (f.trailerSets == g.trailerSets <==> !SetsTrailers(ops)) && (!SetsTrailers(ops) ==> g.trailers == f.trailers)
    decreases |ops|
  {
    if ops != [] {
      var before, op := ops[..|ops| - 1], ops[|ops| - 1];
      assert ops == before + [op];
      SetsSnoc(before, op);
      CountersTell(f, before);
    }
  }

  lemma {:induction false} GroupStays(fs: seq<Fields>, k: nat)
    requires k < |fs|
    ensures Groups(fs[..k]) + Group(fs[k]) <= Groups(fs)
    decreases |fs|
  {
    var n := |fs| - 1;
    if k < n {
      assert fs[..n][..k] == fs[..k];
      GroupStays(fs[..n], k);
    }
  }

  lemma {:induction false} CallStays(f: Fields, ops: seq<Op>, k: nat)
    requires k < |ops| && ops[k].Get?
    ensures Calls(f, ops[..k]) + [Settings(f, ops[..k])] <= Calls(f, ops)
    decreases |ops|
  {
    var n := |ops| - 1;
    if k < n {
      assert ops[..n][..k] == ops[..k];
      CallStays(f, ops[..n], k);
    }
  }

  /** Whatever follows a call, its chunk group stays in the list. */
  lemma GroupOfCallStays(f: Fields, ops: seq<Op>, k: nat)
    requires k < |ops| && ops[k].Get?
    ensures Groups(Calls(f, ops[..k])) + Group(Settings(f, ops[..k])) <= Groups(Calls(f, ops))
  {
    CallStays(f, ops, k);
    var fs, n := Calls(f, ops), |Calls(f, ops[..k])|;
    assert fs[..n + 1] == Calls(f, ops[..k]) + [Settings(f, ops[..k])];
    assert fs[..n] == Calls(f, ops[..k]) && fs[n] == Settings(f, ops[..k]);
    GroupStays(fs, n);
  }

  /** The chunks g were made for the values f: their lengths are those of then,
      and they can be read as what they were made for unless that has been set. */
  predicate StandsFor(g: seq<Chunk>, f: Fields, now: Fields, bodySet: bool, trailersSet: bool) {
    && |g| == |Group(f)|
    && (f.body != "" ==>
          && g[0].FromMemory? && g[0].length == |f.body| % DWORD_RANGE
          && (BodyText(g[0], now) == Some(f.body[..g[0].length]) <==> !bodySet))
    && (f.trailers != [] ==>
          var c := g[|g| - 1];
          && c.Trailers? && c.count == |f.trailers| % USHORT_RANGE
          && (TrailerList(c, now) == Some(Encode(f.trailers)) <==> !trailersSet))
  }

  lemma GroupStandsFor(f: Fields, ops: seq<Op>)
    ensures StandsFor(Group(f), f, Settings(f, ops), SetsBody(ops), SetsTrailers(ops))
  {
    CountersTell(f, ops);
  }

  lemma PartIs(front: seq<Chunk>, part: seq<Chunk>, all: seq<Chunk>)
    requires front + part <= all
    ensures all[|front|..|front| + |part|] == part
  {
    assert (front + part)[|front|..|front| + |part|] == part;
  }

  /** The chunks of call k in the list, and what they stand for after all calls. */
  lemma ChunksOfCall(f0: Fields, ops: seq<Op>, k: nat)
    requires k < |ops| && ops[k].Get?
    ensures var f, all, j := Settings(f0, ops[..k]), Groups(Calls(f0, ops)), |Groups(Calls(f0, ops[..k]))|;
      && j + |Group(f)| <= |all|
      && StandsFor(all[j..j + |Group(f)|], f, Settings(f0, ops), SetsBody(ops[k..]), SetsTrailers(ops[k..]))
  {
    var f := Settings(f0, ops[..k]);
    GroupOfCallStays(f0, ops, k);
    PartIs(Groups(Calls(f0, ops[..k])), Group(f), Groups(Calls(f0, ops)));
    SettingsSplit(f0, ops, k);
    GroupStandsFor(f, ops[k..]);
  }

  /** In every run of calls: the chunks of each get_response are published by all
      later ones, with the lengths of then; a body chunk still stands for the text
      it was made for if and only if the body has not been set since, a trailers
      chunk for its trailers if and only if they have not been set since. */
  lemma ChunkIsReadableIff(anyStatus: nat, ops: seq<Op>, k: nat)
    requires k < |ops| && ops[k].Get?
    ensures var f0, m := Fresh(anyStatus).fields, Run(Fresh(anyStatus), ops);
      var f, j := Settings(f0, ops[..k]), |Groups(Calls(f0, ops[..k]))|;
      && m.resp.chunks == Groups(Calls(f0, ops)) && m.resp.chunkCount == |m.resp.chunks| % USHORT_RANGE
      && j + |Group(f)| <= |m.resp.chunks|
      && StandsFor(m.resp.chunks[j..j + |Group(f)|], f, m.fields, SetsBody(ops[k..]), SetsTrailers(ops[k..]))
  {
    RunPublishes(anyStatus, ops);
    ChunksOfCall(Fresh(anyStatus).fields, ops, k);
  }

  /** A body cleared between two calls: the second still publishes a chunk of the
      old length, whose text is gone. */
  lemma ClearedBodyIsPublished(anyStatus: nat, body: string)
    requires body != ""
    ensures var m := Run(Fresh(anyStatus), [Op.SetBody(body), Get, Op.SetBody(""), Get]);
      m.resp.chunks == [FromMemory(|body| % DWORD_RANGE, 1)] && BodyText(m.resp.chunks[0], m.fields) == None
  {
    var m1 := Apply(Fresh(anyStatus), Op.SetBody(body));
    var ops := [Op.SetBody(body), Get, Op.SetBody(""), Get];
    assert ops[..3][..2][..1] == [Op.SetBody(body)] && [Op.SetBody(body)][..0] == [];
    assert Run(Fresh(anyStatus), [Op.SetBody(body)]) == m1;
    assert Run(Fresh(anyStatus), ops[..2]) == Apply(m1, Get) by {
      assert ops[..2][..1] == [Op.SetBody(body)];
    }
    assert Run(Fresh(anyStatus), ops[..3]) == Apply(Apply(m1, Get), Op.SetBody("")) by {
      assert ops[..3][..2] == ops[..2];
    }
  }

  // ---- repeated calls ----

  function Repeat(f: Fields, k: nat): (r: seq<Fields>)
    ensures |r| == k && forall i :: 0 <= i < k ==> r[i] == f
  {
    seq(k, _ => f)
  }

  function Copies(g: seq<Chunk>, k: nat): (r: seq<Chunk>)
    ensures |r| == k * |g|
  {
    if k == 0 then [] else Copies(g, k - 1) + g
  }

  lemma {:induction false} RepeatedGroups(f: Fields, k: nat)
    ensures Groups(Repeat(f, k)) == Copies(Group(f), k)
    decreases k
  {
    if k > 0 {
      RepeatedGroups(f, k - 1);
      assert Repeat(f, k)[..k - 1] == Repeat(f, k - 1);
    }
  }

  lemma {:induction false} RepeatedUnknown(f: Fields, k: nat)
    requires k > 0
    ensures LatestUnknown(Repeat(f, k)) == f.unknown
    decreases k
  {
    assert Repeat(f, k)[..k - 1] == Repeat(f, k - 1);
    if k > 1 {
      RepeatedUnknown(f, k - 1);
    }
  }

  lemma {:induction false} RepeatedKnown(f: Fields, k: nat, id: nat)
    requires k > 0 && id < KNOWN_HEADERS
    ensures LatestKnown(Repeat(f, k), id) == Filled(BLANK.known, f.known)[id]
    decreases k
  {
    assert Repeat(f, k)[..k - 1] == Repeat(f, k - 1);
    if k > 1 {
      RepeatedKnown(f, k - 1, id);
    }
  }

  /** With unchanged fields the headers are the same after every call; the chunks
      pile up, one group for each call, and the published count is taken modulo
      2^16. */
  lemma RepeatedCalls(f: Fields, k: nat)
    requires k > 0
    ensures var (r, chunks), group := After(Repeat(f, k)), Group(f);
      && r.status == f.status && r.reason == f.reason && r.reasonLength == |f.reason| % USHORT_RANGE
      && r.known == Filled(BLANK.known, f.known)
      && r.unknown == Encode(f.unknown) && r.unknownCount == |f.unknown| % USHORT_RANGE
      && chunks == r.chunks == Copies(group, k)
      && r.chunkCount == (k * |group|) % USHORT_RANGE
  {
    CallsPileUp(Repeat(f, k));
    RepeatedGroups(f, k);
    RepeatedUnknown(f, k);
    forall id | 0 <= id < KNOWN_HEADERS ensures LatestKnown(Repeat(f, k), id) == Filled(BLANK.known, f.known)[id] {
      RepeatedKnown(f, k, id);
    }
  }

  /** What the first get_response publishes, and where. */
  lemma FirstCall(f: Fields)
    ensures After([f]).0.unknown == Encode(f.unknown)
    ensures After([f]).0.unknownCount == |f.unknown| % USHORT_RANGE
    ensures After([f]).0.chunks == Group(f)
    ensures After([f]).0.chunkCount == |Group(f)|
    ensures After([f]).0.known == Filled(BLANK.known, f.known)
  {
    RepeatedCalls(f, 1);
    assert Repeat(f, 1) == [f];
    assert Copies(Group(f), 0) == [];
  }

  /** The unknown headers of the first response can be read back exactly when
      they fit in 16 bits. */
  lemma UnknownHeadersRoundTrip(f: Fields, r: Response)
    requires Sorted(f.unknown) && r == After([f]).0
    ensures ReadsBack(r.unknown, r.unknownCount, f.unknown) <==> Marshallable(f.unknown)
  {
    FirstCall(f);
    HeadersRoundTrip(f.unknown);
  }

  /** The chunks of one call, read before anything is set again. */
  lemma OwnChunks(f: Fields)
    requires Sorted(f.trailers)
    ensures var g := Group(f);
      && |g| == (if f.body == "" then 0 else 1) + (if f.trailers == [] then 0 else 1)
      && (f.body != "" ==>
            g[0].FromMemory? && BodyText(g[0], f) == Some(f.body[..|f.body| % DWORD_RANGE]))
      && (f.trailers != [] ==>
            var c := g[|g| - 1];
            && c.Trailers? && TrailerList(c, f) == Some(Encode(f.trailers))
            && (ReadsBack(Encode(f.trailers), c.count, f.trailers) <==> Marshallable(f.trailers)))
  {
    HeadersRoundTrip(f.trailers);
  }

  /** The chunks of the first response: the body, if any, first and in full; the
      trailers, if any, last, to be read back exactly when they fit in 16 bits;
      and no other. */
  lemma ChunksRoundTrip(f: Fields, r: Response)
    requires Sorted(f.trailers) && r == After([f]).0
    ensures r.chunkCount == |r.chunks| == (if f.body == "" then 0 else 1) + (if f.trailers == [] then 0 else 1)
    ensures f.body != "" ==>
      r.chunks[0].FromMemory? && BodyText(r.chunks[0], f) == Some(f.body[..|f.body| % DWORD_RANGE])
    ensures f.trailers != [] ==>
      var c := r.chunks[|r.chunks| - 1];
      && c.Trailers? && TrailerList(c, f) == Some(Encode(f.trailers))
      && (ReadsBack(Encode(f.trailers), c.count, f.trailers) <==> Marshallable(f.trailers))
  {
    FirstCall(f);
    OwnChunks(f);
  }

  /** The known headers of the first response come back likewise. */
  lemma KnownHeadersRoundTrip(f: Fields, r: Response)
    requires r == After([f]).0
    ensures |r.known| == KNOWN_HEADERS && SlotsValid(r.known)
    ensures DecodeKnown(r.known, KNOWN_HEADERS) == NonEmpty(f.known) <==> KnownFits(f.known)
  {
    FirstCall(f);
    KnownRoundTrip(f.known);
  }

  /** A further call publishes the same response exactly when there is neither a
      body nor a trailer. */
  lemma IdempotentIffNoEntity(f: Fields, k: nat)
    requires k > 0
    ensures After(Repeat(f, k + 1)).0 == After(Repeat(f, k)).0 <==> f.body == "" && f.trailers == []
  {
    RepeatedCalls(f, k);
    RepeatedCalls(f, k + 1);
    var group := Group(f);
    assert |Copies(group, k + 1)| == |Copies(group, k)| + |group|;
  }
}
