/** The additional-header block of a WinHTTP request: "name: value" lines
    separated by CRLF, the field-line form of RFC 9112, section 5. */
module HeaderBlock {
  import opened Basics

  const CRLF: string := "\r\n"
  const SEPARATOR: string := ": "

  datatype Field = Field(key: string, val: string)

  function Line(f: Field): string {
    f.key + SEPARATOR + f.val
  }

  /** headers::add on the text so far. */
  function Added(data: string, f: Field): string {
    (if data == "" then "" else data + CRLF) + Line(f)
  }

  /** The text after a list of adds. */
  function Build(fields: seq<Field>): string {
    if fields == [] then "" else Added(Build(fields[..|fields| - 1]), fields[|fields| - 1])
  }

  class Headers {
    var data: string
    ghost var fields: seq<Field>

    ghost predicate Valid()
      reads this
    {
      data == Build(fields)
    }

    constructor ()
      ensures Valid() && fields == []
    {
      data := "";
      fields := [];
    }

    method Add(key: string, val: string)
      requires Valid()
      modifies this
      ensures Valid() && fields == old(fields) + [Field(key, val)]
    {
      fields := fields + [Field(key, val)];
      assert fields[..|fields| - 1] == old(fields);
      if data != "" {
        data := data + CRLF;
      }
      data := data + key + SEPARATOR + val;
    }

    /** No text is passed on exactly when nothing has been added. */
    method Get() returns (text: Option<string>)
      requires Valid()
      ensures text == None <==> fields == []
      ensures text.Some? ==> text.value == Build(fields)
    {
      BuildEmpty(fields);
      text := if data == "" then None else Some(data);
    }

    method Size() returns (n: nat)
      requires Valid()
      ensures n == |Build(fields)| % 0x1_0000_0000
    {
      n := |data| % DWORD_RANGE;
    }
  }

  lemma BuildEmpty(fields: seq<Field>)
    ensures Build(fields) == "" <==> fields == []
  {
  }

  // ---- reading a block back ----

  predicate PairAt(s: string, i: nat, pair: string)
    requires |pair| == 2
  {
    i + 1 < |s| && s[i] == pair[0] && s[i + 1] == pair[1]
  }

  predicate Free(s: string, pair: string)
    requires |pair| == 2
  {
    forall i: nat :: i < |s| ==> !PairAt(s, i, pair)
  }

  /** The first place of a pair of characters, or the length if there is none. */
  function Find(s: string, pair: string): (r: nat)
    requires |pair| == 2
    ensures r <= |s|
    ensures r < |s| ==> PairAt(s, r, pair)
    ensures forall i: nat :: i < r ==> !PairAt(s, i, pair)
  {
    if s == "" then 0
    else if PairAt(s, 0, pair) then 0
    else
      var r := 1 + Find(s[1..], pair);
      assert forall i: nat :: 0 < i < |s| ==> PairAt(s, i, pair) == PairAt(s[1..], i - 1, pair);
      r
  }

  function Lines(s: string): seq<string>
    decreases |s|
  {
    var i := Find(s, CRLF);
    if i == |s| then [s] else [s[..i]] + Lines(s[i + 2..])
  }

  /** Splits at the first colon-space. */
  function ParseLine(line: string): Field {
    var i := Find(line, SEPARATOR);
    if i == |line| then Field(line, "") else Field(line[..i], line[i + 2..])
  }

  function ParseLines(lines: seq<string>): seq<Field> {
    if lines == [] then [] else [ParseLine(lines[0])] + ParseLines(lines[1..])
  }

  function Parse(s: string): seq<Field> {
    if s == "" then [] else ParseLines(Lines(s))
  }

  /** No line break in a key or a value, and no colon-space in a key. */
  predicate CleanField(f: Field) {
    Free(f.key, CRLF) && Free(f.val, CRLF) && Free(f.key, SEPARATOR)
  }

  predicate Clean(fields: seq<Field>) {
    forall i :: 0 <= i < |fields| ==> CleanField(fields[i])
  }

  /** A part of a text without the pair is without it too. */
  lemma FreePart(s: string, lo: nat, hi: nat, pair: string)
    requires |pair| == 2 && lo <= hi <= |s| && Free(s, pair)
    ensures Free(s[lo..hi], pair)
  {
    forall i: nat | i < hi - lo ensures !PairAt(s[lo..hi], i, pair) {
      assert PairAt(s[lo..hi], i, pair) ==> PairAt(s, lo + i, pair);
    }
  }

  /** The first pair is where the free part before it ends. */
  lemma FindIs(s: string, i: nat, pair: string)
    requires |pair| == 2 && i < |s| && PairAt(s, i, pair)
    requires forall j: nat :: j < i ==> !PairAt(s, j, pair)
    ensures Find(s, pair) == i
  {
  }

  lemma FindNone(s: string, pair: string)
    requires |pair| == 2 && Free(s, pair)
    ensures Find(s, pair) == |s|
  {
  }

  /** Nothing before the first pair, and nothing across its edge. */
  lemma BeforeFind(s: string, pair: string)
    requires |pair| == 2
    ensures Free(s[..Find(s, pair)], pair)
  {
    var r := Find(s, pair);
    forall i: nat | i < r ensures !PairAt(s[..r], i, pair) {
      assert !PairAt(s, i, pair);
    }
  }

  lemma FirstLine(line: string, tail: string)
    requires Free(line, CRLF)
    ensures Lines(line + CRLF + tail) == [line] + Lines(tail)
  {
    var s, i := line + CRLF + tail, |line|;
    forall j: nat | j < i ensures !PairAt(s, j, CRLF) {
      assert !PairAt(line, j, CRLF);
    }
    FindIs(s, i, CRLF);
    assert s[..i] == line && s[i + 2..] == tail;
  }

  lemma LineIsFree(f: Field)
    requires CleanField(f)
    ensures Free(Line(f), CRLF)
  {
    var s, k := Line(f), |f.key|;
    forall i: nat | i < |s| ensures !PairAt(s, i, CRLF) {
      if i < k {
        assert !PairAt(f.key, i, CRLF);
      } else if i >= k + 2 {
        assert !PairAt(f.val, i - k - 2, CRLF);
      }
    }
  }

  lemma LineParses(f: Field)
    requires CleanField(f)
    ensures ParseLine(Line(f)) == f
  {
    var s, k := Line(f), |f.key|;
    forall j: nat | j < k ensures !PairAt(s, j, SEPARATOR) {
      assert !PairAt(f.key, j, SEPARATOR);
    }
    FindIs(s, k, SEPARATOR);
  }

  /** Adding at the end is joining at the front. */
  lemma {:induction false} BuildFront(f: Field, rest: seq<Field>)
    requires rest != []
    ensures Build([f] + rest) == Line(f) + CRLF + Build(rest)
    decreases |rest|
  {
    var n := |rest| - 1;
    assert ([f] + rest)[..|rest|] == [f] + rest[..n];
    if n == 0 {
      assert Build([f]) == Line(f) && rest[..0] == [] && Build(rest) == Line(rest[0]);
      assert [f] + rest[..0] == [f];
    } else {
      BuildFront(f, rest[..n]);
      BuildEmpty([f] + rest[..n]);
      BuildEmpty(rest[..n]);
    }
  }

  lemma {:induction false} CleanParses(fields: seq<Field>)
    requires Clean(fields) && fields != []
    ensures ParseLines(Lines(Build(fields))) == fields
    decreases |fields|
  {
    var f, rest := fields[0], fields[1..];
    LineIsFree(f);
    LineParses(f);
    assert fields == [f] + rest;
    if rest == [] {
      assert fields[..0] == [] && Build(fields) == Line(f);
      FindNone(Line(f), CRLF);
    } else {
      BuildFront(f, rest);
      FirstLine(Line(f), Build(rest));
      CleanParses(rest);
      assert ([Line(f)] + Lines(Build(rest)))[1..] == Lines(Build(rest));
    }
  }

  lemma LineOutputClean(line: string)
    requires Free(line, CRLF)
    ensures CleanField(ParseLine(line))
  {
    var i := Find(line, SEPARATOR);
    BeforeFind(line, SEPARATOR);
    FreePart(line, 0, i, CRLF);
    assert line[..i] == line[0..i];
    if i < |line| {
      FreePart(line, i + 2, |line|, CRLF);
      assert line[i + 2..] == line[i + 2..|line|];
    } else {
      assert line[..i] == line;
    }
  }

  lemma {:induction false} OutputClean(s: string)
    ensures Clean(ParseLines(Lines(s)))
    decreases |s|
  {
    var i := Find(s, CRLF);
    BeforeFind(s, CRLF);
    LineOutputClean(s[..i]);
    if i < |s| {
      OutputClean(s[i + 2..]);
      assert Lines(s)[1..] == Lines(s[i + 2..]);
    } else {
      assert s[..i] == s && Lines(s) == [s] && Lines(s)[1..] == [];
    }
  }

  /** Splitting the block returns the fields added, in order, exactly when no
      key or value holds a line break and no key a colon-space. */
  lemma RoundTripIffClean(fields: seq<Field>)
    ensures Parse(Build(fields)) == fields <==> Clean(fields)
  {
    BuildEmpty(fields);
    if fields != [] {
      OutputClean(Build(fields));
      if Clean(fields) {
        CleanParses(fields);
      }
    }
  }

  /** Different clean lists give different blocks. */
  lemma BlocksAreDistinct(a: seq<Field>, b: seq<Field>)
    requires Clean(a) && Clean(b) && Build(a) == Build(b)
    ensures a == b
  {
    RoundTripIffClean(a);
    RoundTripIffClean(b);
  }
}
