/**
 * PHP arrays with string keys: ordered sequences of key/value pairs. The request body
 * builds its parameters with `$a[$k] = $v`, merges them with the array union
 * operator `+` and orders them with ksort.
 */
module PhpArrays {
  import opened Outcomes
  import opened PhpStrings

  type Entry = (PhpString, PhpString)

  predicate HasKey(es: seq<Entry>, k: PhpString) {
    exists i :: 0 <= i < |es| && es[i].0 == k
  }

  predicate DistinctKeys(es: seq<Entry>) {
    forall i, j :: 0 <= i < j < |es| ==> es[i].0 != es[j].0
  }

  /** `$a[$k]`, or None when the key is absent (the first entry with that key). */
  function Lookup(es: seq<Entry>, k: PhpString): (r: Option<PhpString>)
    ensures r.Some? <==> HasKey(es, k)
    ensures r.Some? ==> (k, r.value) in es
  {
    if es == [] then None
    else if es[0].0 == k then Some(es[0].1)
    else
      assert forall i :: 1 <= i < |es| ==> es[1..][i - 1] == es[i];
      Lookup(es[1..], k)
  }

  /** With distinct keys, an entry is in the array exactly when the lookup of its key finds its value. */
  lemma {:induction false} LookupMember(es: seq<Entry>, k: PhpString, v: PhpString)
    requires DistinctKeys(es)
    ensures Lookup(es, k) == Some(v) <==> (k, v) in es
  {
    if es != [] && es[0].0 != k {
      LookupMember(es[1..], k, v);
      assert (k, v) in es <==> (k, v) in es[1..];
    } else if es != [] && (k, v) in es {
      var i :| 0 <= i < |es| && es[i] == (k, v);
      assert i == 0;
    }
  }

  /** `$a[$k] = $v`: overwrites the value in place when the key is present, appends otherwise. */
  function Put(es: seq<Entry>, k: PhpString, v: PhpString): (r: seq<Entry>)
    ensures forall e :: e in r ==> e in es || e == (k, v)
  {
    if es == [] then [(k, v)]
    else if es[0].0 == k then [(k, v)] + es[1..]
    else [es[0]] + Put(es[1..], k, v)
  }

  /** After `$a[$k] = $v` the key maps to the new value and every other key is untouched. */
  lemma {:induction false} PutLookup(es: seq<Entry>, k: PhpString, v: PhpString, j: PhpString)
    ensures Lookup(Put(es, k, v), j) == if j == k then Some(v) else Lookup(es, j)
  {
    if es != [] && es[0].0 != k {
      PutLookup(es[1..], k, v, j);
    }
  }

  /** Assignment keeps the keys of an array distinct. */
  lemma {:induction false} PutDistinct(es: seq<Entry>, k: PhpString, v: PhpString)
    requires DistinctKeys(es)
    ensures DistinctKeys(Put(es, k, v))
  {
    if es != [] && es[0].0 != k {
      PutDistinct(es[1..], k, v);
      var t := Put(es[1..], k, v);
      forall e | e in t ensures e.0 != es[0].0 {
        if e != (k, v) {
          var i :| 0 <= i < |es[1..]| && es[1..][i] == e;
          assert es[i + 1] == e;
        }
      }
      forall a, b | 0 <= a < b < |[es[0]] + t| ensures ([es[0]] + t)[a].0 != ([es[0]] + t)[b].0 {
        if a == 0 {
          assert t[b - 1] in t;
        } else {
          assert ([es[0]] + t)[a] == t[a - 1] && ([es[0]] + t)[b] == t[b - 1];
        }
      }
    }
  }

  /** The entries of `r` whose key `l` does not have, in their order. */
  function Missing(r: seq<Entry>, l: seq<Entry>): (m: seq<Entry>)
    ensures forall e :: e in m <==> e in r && !HasKey(l, e.0)
  {
    if r == [] then []
    else if HasKey(l, r[0].0) then Missing(r[1..], l)
    else [r[0]] + Missing(r[1..], l)
  }

  lemma {:induction false} LookupAppend(a: seq<Entry>, b: seq<Entry>, k: PhpString)
    ensures Lookup(a + b, k) == if HasKey(a, k) then Lookup(a, k) else Lookup(b, k)
  {
    if a != [] {
      assert (a + b)[0] == a[0] && (a + b)[1..] == a[1..] + b;
      LookupAppend(a[1..], b, k);
    } else {
      assert a + b == b;
    }
  }

  lemma {:induction false} LookupMissing(r: seq<Entry>, l: seq<Entry>, k: PhpString)
    ensures Lookup(Missing(r, l), k) == if HasKey(l, k) then None else Lookup(r, k)
  {
    if r != [] {
      LookupMissing(r[1..], l, k);
    }
  }

  lemma {:induction false} MissingDistinct(r: seq<Entry>, l: seq<Entry>)
    requires DistinctKeys(r)
    ensures DistinctKeys(Missing(r, l))
  {
    if r != [] {
      MissingDistinct(r[1..], l);
      var m := Missing(r[1..], l);
      forall e | e in m ensures e.0 != r[0].0 {
        var i :| 1 <= i < |r| && r[i] == e;
      }
    }
  }

  /** The array union `$l + $r`: all of `$l`, then the entries of `$r` whose key `$l` lacks. */
  function Union(l: seq<Entry>, r: seq<Entry>): (u: seq<Entry>)
    ensures |l| <= |u| && u[..|l|] == l
    ensures forall e :: e in u <==> e in l || (e in r && !HasKey(l, e.0))
  {
    l + Missing(r, l)
  }

  /** The left operand of `+` wins for every key it has; keys only `$r` has keep `$r`'s value. */
  lemma UnionLookup(l: seq<Entry>, r: seq<Entry>, k: PhpString)
    ensures Lookup(Union(l, r), k) == if HasKey(l, k) then Lookup(l, k) else Lookup(r, k)
  {
    LookupAppend(l, Missing(r, l), k);
    LookupMissing(r, l, k);
  }

  /** The union of two arrays with distinct keys has distinct keys. */
  lemma UnionDistinct(l: seq<Entry>, r: seq<Entry>)
    requires DistinctKeys(l) && DistinctKeys(r)
    ensures DistinctKeys(Union(l, r))
  {
    MissingDistinct(r, l);
    var m := Missing(r, l);
    forall i, j | 0 <= i < j < |l + m| ensures (l + m)[i].0 != (l + m)[j].0 {
      if i < |l| && j >= |l| {
        assert m[j - |l|] in m;
      }
    }
  }

  // ---------------------------------------------------------------------------
  // ksort on string keys

  /** Keys strictly ascending in byte order. */
  predicate StrictlySorted(es: seq<Entry>) {
    forall i, j :: 0 <= i < j < |es| ==> Less(es[i].0, es[j].0)
  }

  function Insert(e: Entry, s: seq<Entry>): (r: seq<Entry>)
    ensures multiset(r) == multiset(s) + multiset{e}
  {
    if s == [] then [e]
    else if Less(e.0, s[0].0) then [e] + s
    else
      assert s == [s[0]] + s[1..];
      [s[0]] + Insert(e, s[1..])
  }

  /** ksort: the same entries, ordered by key (an insertion sort). */
  function KSort(es: seq<Entry>): (r: seq<Entry>)
    ensures multiset(r) == multiset(es)
  {
    if es == [] then []
    else
      assert es == [es[0]] + es[1..];
      Insert(es[0], KSort(es[1..]))
  }

  /** Insertion adds `e` and nothing else. */
  lemma InsertMembers(e: Entry, s: seq<Entry>)
    ensures forall x :: x in Insert(e, s) ==> x == e || x in s
  {
    forall x | x in Insert(e, s) ensures x == e || x in s {
      assert x in multiset(Insert(e, s));
    }
  }

  /** A key below every key of a sorted array and below e stays below every key after inserting e. */
  lemma InsertAbove(e: Entry, s: seq<Entry>, lo: PhpString)
    requires Less(lo, e.0)
    requires forall j :: 0 <= j < |s| ==> Less(lo, s[j].0)
    ensures forall x :: x in Insert(e, s) ==> Less(lo, x.0)
  {
    InsertMembers(e, s);
    forall x | x in Insert(e, s) ensures Less(lo, x.0) {
      if x != e {
        var j :| 0 <= j < |s| && s[j] == x;
      }
    }
  }

  lemma {:induction false} InsertSorted(e: Entry, s: seq<Entry>)
    requires StrictlySorted(s) && !HasKey(s, e.0)
    ensures StrictlySorted(Insert(e, s))
  {
    if s == [] {
    } else if Less(e.0, s[0].0) {
      forall j | 0 < j < |s| ensures Less(e.0, s[j].0) {
        LessTransitive(e.0, s[0].0, s[j].0);
      }
    } else {
      LessTotal(e.0, s[0].0);
      InsertSorted(e, s[1..]);
      var t := Insert(e, s[1..]);
      InsertAbove(e, s[1..], s[0].0);
      forall i, j | 0 <= i < j < |[s[0]] + t| ensures Less(([s[0]] + t)[i].0, ([s[0]] + t)[j].0) {
        if i == 0 {
          assert ([s[0]] + t)[j] == t[j - 1];
          assert t[j - 1] in t;
        } else {
          assert ([s[0]] + t)[i] == t[i - 1] && ([s[0]] + t)[j] == t[j - 1];
        }
      }
    }
  }

  /** ksort of an array with distinct keys orders the keys strictly ascending. */
  lemma {:induction false} KSortSorted(es: seq<Entry>)
    requires DistinctKeys(es)
    ensures StrictlySorted(KSort(es))
  {
    if es != [] {
      KSortSorted(es[1..]);
      var t := KSort(es[1..]);
      forall i | 0 <= i < |t| ensures t[i].0 != es[0].0 {
        assert t[i] in multiset(es[1..]);
        var j :| 0 <= j < |es[1..]| && es[1..][j] == t[i];
        assert es[j + 1] == t[i];
      }
      InsertSorted(es[0], t);
    }
  }

  /** Strictly ascending keys are distinct keys. */
  lemma SortedDistinct(es: seq<Entry>)
    requires StrictlySorted(es)
    ensures DistinctKeys(es)
  {
    forall i, j | 0 <= i < j < |es| ensures es[i].0 != es[j].0 {
      LessIrreflexive(es[i].0);
    }
  }

  /** ksort does not change what any key maps to. */
  lemma KSortLookup(es: seq<Entry>, k: PhpString)
    requires DistinctKeys(es)
    ensures Lookup(KSort(es), k) == Lookup(es, k)
  {
    var t := KSort(es);
    KSortSorted(es);
    SortedDistinct(t);
    assert forall e :: e in t <==> e in es by {
      forall e ensures e in t <==> e in es {
        assert e in t <==> e in multiset(t);
        assert e in es <==> e in multiset(es);
      }
    }
    match Lookup(es, k)
    case Some(v) =>
      LookupMember(es, k, v);
      LookupMember(t, k, v);
    case None =>
      if Lookup(t, k).Some? {
        LookupMember(t, k, Lookup(t, k).value);
        LookupMember(es, k, Lookup(t, k).value);
      }
  }
}
