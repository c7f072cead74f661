/** The controller's routing table: handlers by full URL and verb, filled by
    registrations and consulted for each request. */
module Controller {
  import opened Basics

  /** HttpVerbMaximum: the size of the array of handlers of one URL. */
  const VERBS: nat := 20

  const MIN_BASE: nat := 7

  /** A callable; registrations may also carry an empty one. */
  type Handler = nat

  datatype Registration = Registration(part: string, verb: nat, handler: Option<Handler>)

  type Routes = map<string, seq<Option<Handler>>>

  /** Where the first question mark stands. */
  function FirstMark(s: string): (q: Option<nat>)
    ensures q.None? <==> '?' !in s
    ensures q.Some? ==> q.value < |s| && s[q.value] == '?' && '?' !in s[..q.value]
  {
    if s == "" then None
    else if s[0] == '?' then Some(0)
    else
      match FirstMark(s[1..])
      case None => None
      case Some(q) =>
        assert s[..q + 1] == [s[0]] + s[1..][..q];
        Some(q + 1)
  }

  /** The request's URL as http.sys hands it over: the text, its length in bytes,
      and where the query string starts in it, at the first question mark. */
  datatype Request = Request(fullUrl: string, lengthInBytes: nat, query: Option<nat>, verb: nat) {
    predicate Valid() {
      lengthInBytes == 2 * |fullUrl| && query == FirstMark(fullUrl)
    }

    /** The text dispatch looks up. */
    function Url(): string
      requires Valid()
    {
      match query
      case None => fullUrl[..lengthInBytes / 2]
      case Some(q) => fullUrl[..q]
    }
  }

  /** 404, a handler invoked with 200, or the range exception of the array. */
  datatype Outcome = NotFound | Invoked(handler: Handler) | OutOfRange

  // ---- URLs ----

  /** None stands for the exception. */
  function FormatUrlBase(base: string): Option<string> {
    if |base| < MIN_BASE then None
    else if base[|base| - 1] == '/' then Some(base[..|base| - 1])
    else Some(base)
  }

  predicate ValidPart(part: string) {
    part != "" && part[0] == '/'
  }

  predicate EndsIn(s: string, end: string) {
    |end| <= |s| && s[|s| - |end|..] == end
  }

  /** What the comment in format_url_base says it ensures. */
  predicate AsCommented(base: string) {
    ("http://" <= base || "https://" <= base) && !EndsIn(base, "/")
  }

  /** Only the length is checked, and one trailing slash is removed: the result
      is as commented exactly when the argument has a scheme and does not end in
      two slashes. */
  lemma BaseAsCommentedIff(base: string)
    ensures FormatUrlBase(base).Some? <==> |base| >= 7
    ensures FormatUrlBase(base).Some? ==>
      var b := FormatUrlBase(base).value;
      && b <= base && (base == b || base == b + "/")
      && (EndsIn(b, "/") <==> EndsIn(base, "//"))
      && (AsCommented(b) <==> ("http://" <= base || "https://" <= base) && !EndsIn(base, "//"))
  {
    if |base| >= MIN_BASE {
      var n := |base|;
      assert EndsIn(base, "/") <==> base[n - 1] == '/';
      assert EndsIn(base, "//") <==> base[n - 2] == '/' && base[n - 1] == '/';
      var b := FormatUrlBase(base).value;
      assert EndsIn(b, "/") <==> b[|b| - 1] == '/';
    }
  }

  lemma BuildUrlInjective(base: string, p: string, q: string)
    ensures base + p == base + q <==> p == q
  {
    assert (base + p)[|base|..] == p && (base + q)[|base|..] == q;
  }

  // ---- the table ----

  function EmptyRow(): (r: seq<Option<Handler>>)
    ensures |r| == VERBS && forall v :: 0 <= v < VERBS ==> r[v] == None
  {
    seq(VERBS, _ => None)
  }

  predicate WellFormed(routes: Routes) {
    forall url :: url in routes ==> |routes[url]| == VERBS
  }

  function Lookup(routes: Routes, url: string, verb: nat): Outcome
    requires WellFormed(routes)
  {
    if url !in routes then NotFound
    else if verb >= VERBS then OutOfRange
    else if routes[url][verb] == None then NotFound
    else Invoked(routes[url][verb].value)
  }

  class HttpController {
    const baseUrl: string
    var handlers: Routes
    /** Every registration accepted so far. */
    ghost var log: seq<Registration>

    ghost predicate Valid()
      reads this
    {
      && LogValid(log) && WellFormed(handlers)
      && (forall url, verb :: Lookup(handlers, url, verb) == Chosen(baseUrl, log, url, verb))
    }

    constructor (base: string)
      requires FormatUrlBase(base).Some?
      ensures Valid() && log == [] && baseUrl == FormatUrlBase(base).value
    {
      baseUrl := FormatUrlBase(base).value;
      handlers := map[];
      log := [];
    }

    /** register_url_part; false stands for the exception about the part. */
    method Register(part: string, verb: nat, h: Option<Handler>) returns (ok: bool)
      requires Valid() && verb < VERBS
      modifies this
      ensures Valid() && (ok <==> part != "" && part[0] == '/')
      ensures log == (if ok then old(log) + [Registration(part, verb, h)] else old(log))
    {
      if !ValidPart(part) {
        return false;
      }
      var url := baseUrl + part;
      var row := if url in handlers then handlers[url] else EmptyRow();
      handlers := handlers[url := row[verb := h]];
      log := log + [Registration(part, verb, h)];
      forall u, v ensures Lookup(handlers, u, v) == Chosen(baseUrl, log, u, v) {
        assert Lookup(old(handlers), u, v) == Chosen(baseUrl, old(log), u, v);
        assert Lookup(old(handlers), u, 0) == Chosen(baseUrl, old(log), u, 0);
        ChosenSnoc(baseUrl, old(log), Registration(part, verb, h), u, v);
      }
      return true;
    }

    /** The part of dispatch that picks the handler and the default status. */
    method Dispatch(rq: Request) returns (outcome: Outcome, status: nat)
      requires Valid() && rq.Valid()
      ensures outcome == Chosen(baseUrl, log, rq.Url(), rq.verb)
      ensures outcome.NotFound? ==> status == 404
      ensures outcome.Invoked? ==> status == 200
    {
      var url := rq.Url();
      if url !in handlers {
        outcome, status := NotFound, 404;
      } else if rq.verb >= VERBS {
        outcome, status := OutOfRange, 0;
      } else if handlers[url][rq.verb] == None {
        outcome, status := NotFound, 404;
      } else {
        outcome, status := Invoked(handlers[url][rq.verb].value), 200;
      }
      assert outcome == Lookup(handlers, url, rq.verb);
    }
  }

  // ---- the registration log ----

  predicate LogValid(log: seq<Registration>) {
    forall i :: 0 <= i < |log| ==> ValidPart(log[i].part) && log[i].verb < VERBS
  }

  /** The latest registration for a URL and verb, scanning back. */
  function Last(base: string, log: seq<Registration>, url: string, verb: nat): Option<Registration> {
    if log == [] then None
    else
      var r := log[|log| - 1];
      if base + r.part == url && r.verb == verb then Some(r) else Last(base, log[..|log| - 1], url, verb)
  }

  predicate Registered(base: string, log: seq<Registration>, url: string) {
    exists i :: 0 <= i < |log| && base + log[i].part == url
  }

  /** What the log says about a request, without any table. */
  function Chosen(base: string, log: seq<Registration>, url: string, verb: nat): Outcome {
    if !Registered(base, log, url) then NotFound
    else if verb >= VERBS then OutOfRange
    else
      var r := Last(base, log, url, verb);
      if r.None? || r.value.handler.None? then NotFound else Invoked(r.value.handler.value)
  }

  lemma RegisteredSnoc(base: string, log: seq<Registration>, r: Registration, url: string)
    ensures Registered(base, log + [r], url) <==> Registered(base, log, url) || base + r.part == url
  {
    var log' := log + [r];
    assert log'[|log|] == r;
    if Registered(base, log, url) {
      var i :| 0 <= i < |log| && base + log[i].part == url;
      assert log'[i] == log[i];
    }
  }

  lemma LastNone(base: string, log: seq<Registration>, url: string, verb: nat)
    requires !Registered(base, log, url)
    ensures Last(base, log, url, verb) == None
  {
    if log != [] {
      RegisteredSnoc(base, log[..|log| - 1], log[|log| - 1], url);
      assert log == log[..|log| - 1] + [log[|log| - 1]];
      LastNone(base, log[..|log| - 1], url, verb);
    }
  }

  /** How one more registration changes what the log says. */
  lemma ChosenSnoc(base: string, log: seq<Registration>, r: Registration, url: string, verb: nat)
    requires r.verb < VERBS
    ensures var before, after := Chosen(base, log, url, verb), Chosen(base, log + [r], url, verb);
      if base + r.part != url then after == before
      else if verb >= VERBS then after == OutOfRange
      else if verb == r.verb then after == (if r.handler.None? then NotFound else Invoked(r.handler.value))
      else after == before
  {
    RegisteredSnoc(base, log, r, url);
    assert (log + [r])[..|log|] == log;
    if !Registered(base, log, url) {
      LastNone(base, log, url, verb);
    }
  }

  lemma LatestChosen(base: string, log: seq<Registration>, i: nat)
    requires LogValid(log) && i < |log|
    requires forall j :: i < j < |log| ==> log[j].part != log[i].part || log[j].verb != log[i].verb
    ensures Chosen(base, log, base + log[i].part, log[i].verb) ==
      if log[i].handler.None? then NotFound else Invoked(log[i].handler.value)
    decreases |log|
  {
    var n := |log| - 1;
    assert log == log[..n] + [log[n]];
    ChosenSnoc(base, log[..n], log[n], base + log[i].part, log[i].verb);
    BuildUrlInjective(base, log[n].part, log[i].part);
    if i < n {
      LatestChosen(base, log[..n], i);
    }
  }

  /** The request for a text. */
  function RequestFor(text: string, verb: nat): (rq: Request)
    ensures rq.Valid() && '?' !in rq.Url()
  {
    Request(text, 2 * |text|, FirstMark(text), verb)
  }

  /** Nothing, or a question mark and what follows. */
  predicate IsQuery(query: string) {
    query == "" || query[0] == '?'
  }

  lemma {:induction false} FirstMarkAt(s: string, n: nat)
    requires n < |s| && s[n] == '?' && '?' !in s[..n]
    ensures FirstMark(s) == Some(n)
    decreases n
  {
    if n > 0 {
      assert s[0] == s[..n][0] && s[1..][..n - 1] == s[..n][1..];
      FirstMarkAt(s[1..], n - 1);
    }
  }

  lemma UrlOfRequest(url: string, query: string, verb: nat)
    requires IsQuery(query)
    ensures RequestFor(url + query, verb).Url() == url <==> '?' !in url
  {
    var text := url + query;
    assert text[..|url|] == url;
    if '?' !in url && query != "" {
      FirstMarkAt(text, |url|);
    }
  }

  /** The request for a registered part and verb, with this query, goes to
      registration i. */
  predicate ServedBy(base: string, log: seq<Registration>, i: nat, query: string)
    requires i < |log|
  {
    Chosen(base, log, RequestFor(base + log[i].part + query, log[i].verb).Url(), log[i].verb)
      == if log[i].handler.None? then NotFound else Invoked(log[i].handler.value)
  }

  /** Registration i is the latest for its part and verb. */
  predicate Latest(log: seq<Registration>, i: nat) {
    && LogValid(log) && i < |log|
    && (forall j :: i < j < |log| ==> log[j].part != log[i].part || log[j].verb != log[i].verb)
  }

  /** A request for a registered pair goes to the latest registration of that
      part and verb, whatever its query string and whatever was registered for
      other parts or verbs; an empty handler registered last withdraws it. */
  lemma LatestRegistrationWins(base: string, log: seq<Registration>, i: nat, query: string)
    requires Latest(log, i) && IsQuery(query) && '?' !in base + log[i].part
    ensures ServedBy(base, log, i, query)
  {
    LatestChosen(base, log, i);
    UrlOfRequest(base + log[i].part, query, log[i].verb);
  }

  /** A registration whose URL holds a question mark changes nothing for any
      request: http.sys ends every URL before the first one. */
  lemma MarkedPartIsNeverServed(base: string, log: seq<Registration>, r: Registration, rq: Request)
    requires r.verb < VERBS && rq.Valid() && '?' in base + r.part
    ensures Chosen(base, log + [r], rq.Url(), rq.verb) == Chosen(base, log, rq.Url(), rq.verb)
  {
    ChosenSnoc(base, log, r, rq.Url(), rq.verb);
    assert '?' !in rq.Url() by {
      assert rq.query.None? ==> rq.Url() == rq.fullUrl[..|rq.fullUrl|] == rq.fullUrl;
    }
  }

  /** One registration of such a part, and a request for it: not found. */
  lemma MarkedPartIsNotFound(base: string, part: string, query: string)
    requires ValidPart(part) && IsQuery(query) && '?' in base + part
    ensures var log := [Registration(part, 4, Some(7))];
      Latest(log, 0) && !ServedBy(base, log, 0, query)
  {
    var r := Registration(part, 4, Some(7));
    MarkedPartIsNeverServed(base, [], r, RequestFor(base + part + query, 4));
    assert [] + [r] == [r];
  }

  /** The latest registration of a part is what its requests go to, in every log
      and with every query, if and only if the URL holds no question mark. */
  lemma PartIsServedIff(base: string, part: string)
    requires ValidPart(part)
    ensures (forall log: seq<Registration>, i: nat, query |
               Latest(log, i) && IsQuery(query) && log[i].part == part :: ServedBy(base, log, i, query))
       <==> '?' !in base + part
  {
    if '?' in base + part {
      MarkedPartIsNotFound(base, part, "");
      assert IsQuery("");
    } else {
      forall log: seq<Registration>, i: nat, query | Latest(log, i) && IsQuery(query) && log[i].part == part
        ensures ServedBy(base, log, i, query)
      {
        LatestRegistrationWins(base, log, i, query);
      }
    }
  }

  /** Nothing else is served: a pair that was never registered is not found, and
      a verb outside the array raises only for a URL that was registered. */
  lemma OthersAreNotFound(base: string, log: seq<Registration>, rq: Request)
    requires LogValid(log) && rq.Valid()
    requires forall j :: 0 <= j < |log| ==> base + log[j].part != rq.Url() || log[j].verb != rq.verb
    ensures Chosen(base, log, rq.Url(), rq.verb) ==
      if rq.verb >= VERBS && Registered(base, log, rq.Url()) then OutOfRange else NotFound
    decreases |log|
  {
    if log != [] {
      var n := |log| - 1;
      assert log == log[..n] + [log[n]];
      RegisteredSnoc(base, log[..n], log[n], rq.Url());
      ChosenSnoc(base, log[..n], log[n], rq.Url(), rq.verb);
      OthersAreNotFound(base, log[..n], rq);
    }
  }
}
