/** The growing byte buffer every receive operation writes into: asio's dynamic
    vector buffer, a vector plus the number of bytes that have been committed. */
module DynamicBuffers {

  newtype byte = b: int | 0 <= b < 256

  function Min(a: nat, b: nat): nat {
    if a <= b then a else b
  }

  /** std::vector::resize: keeps the common prefix, zero-fills what is new. */
  function Resize(v: seq<byte>, n: nat): (r: seq<byte>)
    ensures |r| == n
    ensures forall i :: 0 <= i < Min(n, |v|) ==> r[i] == v[i]
  {
    if n <= |v| then v[..n] else v + seq(n - |v|, _ => 0 as byte)
  }

  /** The value of a dynamic buffer. */
  datatype Storage = Storage(vec: seq<byte>, size: nat) {

    predicate Valid() {
      size <= |vec|
    }

    function Committed(): seq<byte>
      requires Valid()
    {
      vec[..size]
    }

    /** Room for n bytes behind the committed part; the vector may shrink. */
    function Prepare(n: nat): Storage
      requires Valid()
    {
      Storage(Resize(vec, size + n), size)
    }

    /** Takes over at most the prepared bytes and drops the rest of the vector. */
    function Commit(n: nat): Storage
      requires Valid()
    {
      var s := size + Min(n, |vec| - size);
      Storage(vec[..s], s)
    }

    /** The operating system's write of d into the prepared area. */
    function Fill(d: seq<byte>): Storage
      requires Valid() && size + |d| <= |vec|
    {
      Storage(vec[..size] + d + vec[size + |d|..], size)
    }
  }

  /** One receive: whatever arrives in the prepared area is appended by the
      commit, and the unused part of the area is gone from the vector. */
  lemma PrepareFillCommit(b: Storage, n: nat, d: seq<byte>)
    requires b.Valid() && |d| <= n
    ensures b.Prepare(n).Valid() && b.Prepare(n).Committed() == b.Committed()
    ensures b.Prepare(n).Fill(d).Commit(|d|) == Storage(b.Committed() + d, b.size + |d|)
  {
    var f := b.Prepare(n).Fill(d);
    assert b.Prepare(n).vec[..b.size] == b.vec[..b.size];
    assert f.vec[..b.size + |d|] == b.vec[..b.size] + d;
  }

  lemma PrepareKeeps(b: Storage, n: nat)
    requires b.Valid()
    ensures b.Prepare(n).Valid() && b.Prepare(n).Committed() == b.Committed()
  {
  }

  lemma EmptyFill(b: Storage)
    requires b.Valid()
    ensures b.Fill([]) == b
  {
    assert b.vec[..b.size] + [] + b.vec[b.size..] == b.vec;
  }

  class DynamicBuffer {
    var vec: seq<byte>
    var size: nat

    ghost predicate Valid()
      reads this
    {
      View().Valid()
    }

    function View(): Storage
      reads this
    {
      Storage(vec, size)
    }

    constructor (initial: seq<byte>)
      ensures View() == Storage(initial, |initial|)
    {
      vec := initial;
      size := |initial|;
    }

    method Prepare(n: nat)
      requires Valid()
      modifies this
      ensures View() == old(View()).Prepare(n)
      ensures |vec| == size + n && size == old(size) && vec[..size] == old(vec)[..size]
    {
      vec := Resize(vec, size + n);
    }

    method Commit(n: nat)
      requires Valid()
      modifies this
      ensures View() == old(View()).Commit(n)
      ensures size == (if n <= |old(vec)| - old(size) then old(size) + n else |old(vec)|) && vec == old(vec)[..size]
    {
      size := size + Min(n, |vec| - size);
      vec := vec[..size];
    }
  }
}
