/**
 std::map<std::string, V>: an association list kept in strictly increasing key order, with the
 two insertions the sources use: emplace (keeps an existing value) and operator[] assignment.
 */
module Assoc {
  import opened Bytes

  datatype Pair<+V> = Pair(key: bytes, val: V)

  /** std::string's operator<, on unsigned bytes. */
  predicate Less(a: bytes, b: bytes)
  {
    b != [] && (a == [] || a[0] < b[0] || (a[0] == b[0] && Less(a[1..], b[1..])))
  }

  lemma {:induction false} LessAsym(a: bytes, b: bytes)
    requires Less(a, b)
    ensures !Less(b, a) && a != b
  {
    if a != [] && a[0] == b[0] {
      LessAsym(a[1..], b[1..]);
    }
  }

  lemma {:induction false} LessTotal(a: bytes, b: bytes)
    ensures a == b || Less(a, b) || Less(b, a)
  {
    if a != [] && b != [] && a[0] == b[0] {
      LessTotal(a[1..], b[1..]);
      assert a == [a[0]] + a[1..] && b == [b[0]] + b[1..];
    }
  }

  lemma {:induction false} LessTrans(a: bytes, b: bytes, c: bytes)
    requires Less(a, b) && Less(b, c)
    ensures Less(a, c)
  {
    if a != [] && a[0] == b[0] && b[0] == c[0] {
      LessTrans(a[1..], b[1..], c[1..]);
    }
  }

  ghost predicate Sorted<V>(m: seq<Pair<V>>)
  {
    forall i, j :: 0 <= i < j < |m| ==> Less(m[i].key, m[j].key)
  }

  function Lookup<V>(m: seq<Pair<V>>, k: bytes): (r: Option<V>)
    ensures r.Some? ==> exists i :: 0 <= i < |m| && m[i] == Pair(k, r.value)
    ensures r.None? ==> forall i :: 0 <= i < |m| ==> m[i].key != k
  {
    if m == [] then None
    else if m[0].key == k then (assert m[0] == Pair(k, m[0].val); Some(m[0].val))
    else
      var r := Lookup(m[1..], k);
      assert forall i :: 0 <= i < |m[1..]| ==> m[1..][i] == m[i + 1];
      assert forall i :: 0 < i < |m| ==> m[i] == m[1..][i - 1];
      r
  }

  /** m.emplace(k, v) */
  function Emplace<V>(m: seq<Pair<V>>, k: bytes, v: V): seq<Pair<V>>
  {
    if m == [] || Less(k, m[0].key) then [Pair(k, v)] + m
    else if m[0].key == k then m
    else [m[0]] + Emplace(m[1..], k, v)
  }

  /** m[k] = v */
  function Assign<V>(m: seq<Pair<V>>, k: bytes, v: V): seq<Pair<V>>
  {
    if m == [] || Less(k, m[0].key) then [Pair(k, v)] + m
    else if m[0].key == k then [Pair(k, v)] + m[1..]
    else [m[0]] + Assign(m[1..], k, v)
  }

  lemma {:induction false} EmplaceLast<V>(m: seq<Pair<V>>, k: bytes, v: V)
    requires forall i :: 0 <= i < |m| ==> Less(m[i].key, k)
    ensures Emplace(m, k, v) == m + [Pair(k, v)]
  {
    if m != [] {
      LessAsym(m[0].key, k);
      EmplaceLast(m[1..], k, v);
      assert m == [m[0]] + m[1..];
    }
  }

  lemma {:induction false} AssignKeys<V>(m: seq<Pair<V>>, k: bytes, v: V, i: nat)
    requires i < |Assign(m, k, v)|
    ensures Assign(m, k, v)[i] == Pair(k, v) || Assign(m, k, v)[i] in m
  {
    if !(m == [] || Less(k, m[0].key) || m[0].key == k) && i > 0 {
      AssignKeys(m[1..], k, v, i - 1);
    }
  }

  lemma {:induction false} AssignSorted<V>(m: seq<Pair<V>>, k: bytes, v: V)
    requires Sorted(m)
    ensures Sorted(Assign(m, k, v))
  {
    if m == [] {
    } else if Less(k, m[0].key) {
      forall j | 0 < j < |m| ensures Less(k, m[j].key) {
        LessTrans(k, m[0].key, m[j].key);
      }
    } else if m[0].key != k {
      LessTotal(m[0].key, k);
      AssignSorted(m[1..], k, v);
      var rest := Assign(m[1..], k, v);
      forall j | 0 <= j < |rest| ensures Less(m[0].key, rest[j].key) {
        AssignKeys(m[1..], k, v, j);
      }
    }
  }

  lemma {:induction false} LookupAssign<V>(m: seq<Pair<V>>, k: bytes, v: V, q: bytes)
    ensures Lookup(Assign(m, k, v), q) == if q == k then Some(v) else Lookup(m, q)
  {
    if m != [] && Less(k, m[0].key) {
      LessAsym(k, m[0].key);
      assert Assign(m, k, v)[1..] == m;
    } else if m != [] && m[0].key == k {
      assert Assign(m, k, v)[1..] == m[1..];
    } else if m != [] {
      LookupAssign(m[1..], k, v, q);
      assert Assign(m, k, v)[1..] == Assign(m[1..], k, v);
    }
  }

  /** Assigning what is there changes nothing. */
  lemma {:induction false} AssignSame<V>(m: seq<Pair<V>>, i: nat)
    requires Sorted(m) && i < |m|
    ensures Assign(m, m[i].key, m[i].val) == m
    decreases |m|
  {
    hide Less;
    var k, v := m[i].key, m[i].val;
    if i == 0 {
      NotLess(k);
      assert m == [Pair(k, v)] + m[1..];
    } else {
      LessAsym(m[0].key, k);
      AssignSame(m[1..], i - 1);
      assert m == [m[0]] + m[1..];
    }
  }

  lemma {:induction false} NotLess(k: bytes)
    ensures !Less(k, k)
  {
    if k != [] {
      NotLess(k[1..]);
    }
  }

  lemma {:induction false} LookupOfSorted<V>(m: seq<Pair<V>>, a: nat)
    requires Sorted(m) && a < |m|
    ensures Lookup(m, m[a].key) == Some(m[a].val)
    decreases |m|
  {
    if a > 0 {
      LessAsym(m[0].key, m[a].key);
      LookupOfSorted(m[1..], a - 1);
    }
  }

  lemma {:induction false} EmplaceKeys<V>(m: seq<Pair<V>>, k: bytes, v: V, i: nat)
    requires i < |Emplace(m, k, v)|
    ensures Emplace(m, k, v)[i] == Pair(k, v) || Emplace(m, k, v)[i] in m
  {
    if !(m == [] || Less(k, m[0].key) || m[0].key == k) && i > 0 {
      EmplaceKeys(m[1..], k, v, i - 1);
    }
  }

  lemma {:induction false} EmplaceSorted<V>(m: seq<Pair<V>>, k: bytes, v: V)
    requires Sorted(m)
    ensures Sorted(Emplace(m, k, v))
  {
    if m == [] {
    } else if Less(k, m[0].key) {
      forall j | 0 < j < |m| ensures Less(k, m[j].key) {
        LessTrans(k, m[0].key, m[j].key);
      }
    } else if m[0].key != k {
      LessTotal(m[0].key, k);
      EmplaceSorted(m[1..], k, v);
      var rest := Emplace(m[1..], k, v);
      forall j | 0 <= j < |rest| ensures Less(m[0].key, rest[j].key) {
        EmplaceKeys(m[1..], k, v, j);
      }
    }
  }

  /** emplace keeps what is there. */
  lemma {:induction false} LookupEmplace<V>(m: seq<Pair<V>>, k: bytes, v: V, q: bytes)
    requires Sorted(m) && Lookup(m, q).Some?
    ensures Lookup(Emplace(m, k, v), q) == Lookup(m, q)
    decreases |m|
  {
    if Less(k, m[0].key) {
      SmallerIsMissing(m, k);
      assert Emplace(m, k, v)[1..] == m;
    } else if m[0].key != k && m[0].key != q {
      LookupEmplace(m[1..], k, v, q);
      assert Emplace(m, k, v)[1..] == Emplace(m[1..], k, v);
    }
  }

  /** ... and puts what is not there. */
  lemma {:induction false} LookupEmplaced<V>(m: seq<Pair<V>>, k: bytes, v: V, q: bytes)
    requires Lookup(m, q).None?
    ensures Lookup(Emplace(m, k, v), q) == if q == k then Some(v) else None
    decreases |m|
  {
    if m == [] {
      assert Emplace(m, k, v)[1..] == [];
    } else if Less(k, m[0].key) {
      assert Emplace(m, k, v)[1..] == m;
    } else if m[0].key != k {
      LookupEmplaced(m[1..], k, v, q);
      assert Emplace(m, k, v)[1..] == Emplace(m[1..], k, v);
    }
  }

  lemma SmallerIsMissing<V>(m: seq<Pair<V>>, k: bytes)
    requires Sorted(m) && m != [] && Less(k, m[0].key)
    ensures Lookup(m, k).None?
  {
    forall i | 0 <= i < |m| ensures m[i].key != k {
      if i > 0 {
        LessTrans(k, m[0].key, m[i].key);
      }
      LessAsym(k, m[i].key);
    }
  }
}
