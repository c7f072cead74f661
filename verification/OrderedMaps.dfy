/** std::map<std::string, std::string>: entries in the order of their keys. */
module OrderedMaps {

  datatype Entry = Entry(key: string, value: string)

  type Entries = seq<Entry>

  /** std::string's operator<. */
  predicate Less(a: string, b: string) {
    b != "" && (a == "" || a[0] < b[0] || (a[0] == b[0] && Less(a[1..], b[1..])))
  }

  /** The order is that of the first character in which the texts differ, and a
      text comes before what it begins. */
  lemma {:induction false} LessIsLexicographic(a: string, b: string)
    ensures Less(a, b) <==>
      (a <= b && a != b) || exists k :: 0 <= k < |a| && k < |b| && a[..k] == b[..k] && a[k] < b[k]
    decreases |a|
  {
    if a != "" && b != "" && a[0] == b[0] {
      var a', b' := a[1..], b[1..];
      LessIsLexicographic(a', b');
      assert a == [a[0]] + a' && b == [a[0]] + b';
      if k :| 0 <= k < |a'| && k < |b'| && a'[..k] == b'[..k] && a'[k] < b'[k] {
        assert a[..k + 1] == [a[0]] + a'[..k] && b[..k + 1] == [a[0]] + b'[..k];
        assert a[k + 1] < b[k + 1];
      }
      if k :| 0 <= k < |a| && k < |b| && a[..k] == b[..k] && a[k] < b[k] {
        assert a'[..k - 1] == a[..k][1..] && b'[..k - 1] == b[..k][1..];
        assert a'[k - 1] < b'[k - 1];
      }
    } else if a != "" && b != "" {
      assert a[..0] == b[..0];
      if k :| 0 <= k < |a| && k < |b| && a[..k] == b[..k] && a[k] < b[k] {
        assert k > 0 ==> a[..k][0] == b[..k][0];
      }
    }
  }

  predicate Sorted(m: Entries) {
    forall i, j :: 0 <= i < j < |m| ==> Less(m[i].key, m[j].key)
  }

  /** m[key] = value. */
  function Put(m: Entries, key: string, value: string): Entries {
    if m == [] || Less(key, m[0].key) then [Entry(key, value)] + m
    else if key == m[0].key then [Entry(key, value)] + m[1..]
    else [m[0]] + Put(m[1..], key, value)
  }

  /** The map that a list of assignments leaves behind. */
  function ToMap(m: Entries): map<string, string> {
    if m == [] then map[] else ToMap(m[..|m| - 1])[m[|m| - 1].key := m[|m| - 1].value]
  }

  lemma {:induction false} LessIrreflexive(a: string)
    ensures !Less(a, a)
  {
    if a != "" {
      LessIrreflexive(a[1..]);
    }
  }

  lemma {:induction false} LessTransitive(a: string, b: string, c: string)
    requires Less(a, b) && Less(b, c)
    ensures Less(a, c)
  {
    if a != "" && a[0] == b[0] && b[0] == c[0] {
      LessTransitive(a[1..], b[1..], c[1..]);
    }
  }

  lemma {:induction false} LessTotal(a: string, b: string)
    ensures a == b || Less(a, b) || Less(b, a)
  {
    if a != "" && b != "" && a[0] == b[0] {
      LessTotal(a[1..], b[1..]);
      assert a == [a[0]] + a[1..] && b == [b[0]] + b[1..];
    }
  }

  lemma {:induction false} ToMapKeys(m: Entries)
    ensures forall k :: k in ToMap(m) <==> exists i :: 0 <= i < |m| && m[i].key == k
  {
    if m != [] {
      var n := |m| - 1;
      ToMapKeys(m[..n]);
      forall k ensures k in ToMap(m) <==> exists i :: 0 <= i < |m| && m[i].key == k {
        if k in ToMap(m[..n]) {
          var i :| 0 <= i < n && m[..n][i].key == k;
          assert m[i].key == k;
        }
        if i :| 0 <= i < |m| && m[i].key == k {
          assert i < n ==> m[..n][i].key == k;
        }
      }
    }
  }

  /** The keys of a sorted list are distinct, so the map has them all. */
  lemma {:induction false} ToMapFaithful(m: Entries)
    requires Sorted(m)
    ensures |ToMap(m)| == |m|
    ensures forall i :: 0 <= i < |m| ==> m[i].key in ToMap(m) && ToMap(m)[m[i].key] == m[i].value
  {
    if m != [] {
      var n := |m| - 1;
      ToMapFaithful(m[..n]);
      ToMapKeys(m[..n]);
      forall i | 0 <= i < n ensures m[i].key != m[n].key {
        LessIrreflexive(m[n].key);
      }
      assert m[n].key !in ToMap(m[..n]);
      forall i | 0 <= i < n ensures m[i].key in ToMap(m) && ToMap(m)[m[i].key] == m[i].value {
        assert m[..n][i] == m[i];
      }
    }
  }

  /** An assignment keeps the order and changes one key only. */
  lemma {:induction false} PutSorted(m: Entries, key: string, value: string)
    requires Sorted(m)
    ensures Sorted(Put(m, key, value))
    ensures forall e :: e in Put(m, key, value) <==> e == Entry(key, value) || (e in m && e.key != key)
    decreases |m|
  {
    if m == [] {
    } else if Less(key, m[0].key) {
      forall i | 0 <= i < |m| ensures Less(key, m[i].key) {
        if i > 0 {
          LessTransitive(key, m[0].key, m[i].key);
        }
      }
      forall e | e in m ensures e.key != key {
        LessIrreflexive(key);
      }
    } else if key == m[0].key {
      var r := Put(m, key, value);
      assert forall i :: 0 <= i < |m| ==> r[i].key == m[i].key;
      forall e | e in m[1..] ensures e.key != key {
        LessIrreflexive(key);
      }
    } else {
      LessTotal(key, m[0].key);
      var t := Put(m[1..], key, value);
      PutSorted(m[1..], key, value);
      forall i | 0 <= i < |t| ensures Less(m[0].key, t[i].key) {
        assert t[i] in t;
      }
    }
  }

  /** The entries of a sorted list are the items of its map. */
  lemma EntriesAreItems(m: Entries, k: string, v: string)
    requires Sorted(m)
    ensures Entry(k, v) in m <==> k in ToMap(m) && ToMap(m)[k] == v
  {
    ToMapKeys(m);
    ToMapFaithful(m);
    if k in ToMap(m) && ToMap(m)[k] == v {
      var i :| 0 <= i < |m| && m[i].key == k;
      assert m[i] == Entry(k, v);
    }
  }

  /** Put is map update. */
  lemma PutIsUpdate(m: Entries, key: string, value: string)
    requires Sorted(m)
    ensures ToMap(Put(m, key, value)) == ToMap(m)[key := value]
  {
    var p := Put(m, key, value);
    PutSorted(m, key, value);
    var a, b := ToMap(p), ToMap(m)[key := value];
    forall k | k in a ensures k in b && b[k] == a[k] {
      EntriesAreItems(p, k, a[k]);
      EntriesAreItems(m, k, a[k]);
    }
    forall k | k in b ensures k in a && a[k] == b[k] {
      EntriesAreItems(p, k, b[k]);
      EntriesAreItems(m, k, b[k]);
    }
  }
}
