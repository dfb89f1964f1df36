/** Python dicts as association lists in insertion order, and `sorted(d.items())`
    (the `_sorted_items` helper) as an insertion sort on the keys. */
module Keyed {
  import opened Strings
  import opened Wrappers

  predicate SortedByKey<V>(s: seq<(string, V)>)
  {
    forall i, j :: 0 <= i < j < |s| ==> LexLe(s[i].0, s[j].0)
  }

  /** A dict never holds the same key twice. */
  predicate DistinctKeys<V>(s: seq<(string, V)>)
  {
    forall i, j :: 0 <= i < j < |s| ==> s[i].0 != s[j].0
  }

  predicate HasKey<V>(s: seq<(string, V)>, k: string)
  {
    exists i :: 0 <= i < |s| && s[i].0 == k
  }

  /** Inserts `x` before the first entry whose key is not below its own. */
  function Insert<V>(x: (string, V), s: seq<(string, V)>): (r: seq<(string, V)>)
    ensures multiset(r) == multiset(s) + multiset{x}
    ensures SortedByKey(s) ==> SortedByKey(r)
  {
    if s == [] || LexLe(x.0, s[0].0) then
      assert SortedByKey(s) ==> SortedByKey([x] + s) by {
        if SortedByKey(s) { InsertFront(x, s); }
      }
      [x] + s
    else
      var tail := Insert(x, s[1..]);
      assert s == [s[0]] + s[1..];
      assert SortedByKey(s) ==> SortedByKey([s[0]] + tail) by {
        if SortedByKey(s) { InsertBehind(x, s, tail); }
      }
      [s[0]] + tail
  }

  lemma InsertFront<V>(x: (string, V), s: seq<(string, V)>)
    requires SortedByKey(s) && (s == [] || LexLe(x.0, s[0].0))
    ensures SortedByKey([x] + s)
  {
    var r := [x] + s;
    forall j | 0 < j < |r| ensures LexLe(r[0].0, r[j].0) {
      if j > 1 { LexLeTransitive(x.0, s[0].0, s[j - 1].0); }
    }
  }

  lemma InsertBehind<V>(x: (string, V), s: seq<(string, V)>, tail: seq<(string, V)>)
    requires s != [] && !LexLe(x.0, s[0].0) && SortedByKey(s)
    requires SortedByKey(tail) && multiset(tail) == multiset(s[1..]) + multiset{x}
    ensures SortedByKey([s[0]] + tail)
  {
    var r := [s[0]] + tail;
    LexLeTotal(x.0, s[0].0);
    forall j | 0 < j < |r| ensures LexLe(r[0].0, r[j].0) {
      assert r[j] == tail[j - 1];
      assert r[j] in multiset(tail);
      if r[j] != x {
        assert r[j] in multiset(s[1..]);
        var k := MemberIndex(s[1..], r[j]);
        assert s[k + 1] == r[j];
      }
    }
    forall i, j | 0 < i < j < |r| ensures LexLe(r[i].0, r[j].0) {
      assert r[i] == tail[i - 1] && r[j] == tail[j - 1];
    }
  }

  /** `sorted(d.items())` for a dict `d`: the same entries, ordered by key. */
  function SortByKey<V>(d: seq<(string, V)>): (r: seq<(string, V)>)
    ensures SortedByKey(r)
    ensures multiset(r) == multiset(d)
    ensures |r| == |d|
  {
    if d == [] then []
    else
      assert d == [d[0]] + d[1..];
      Insert(d[0], SortByKey(d[1..]))
  }

  lemma MemberIndex<T>(s: seq<T>, x: T) returns (i: nat)
    requires x in multiset(s)
    ensures i < |s| && s[i] == x
  {
    assert x in s;
    i :| 0 <= i < |s| && s[i] == x;
  }

  /** Inserting an entry with a fresh key keeps the keys distinct. */
  lemma {:induction false} InsertDistinct<V>(x: (string, V), s: seq<(string, V)>)
    requires DistinctKeys(s) && !HasKey(s, x.0)
    ensures DistinctKeys(Insert(x, s))
  {
    if s == [] || LexLe(x.0, s[0].0) {
    } else {
      InsertDistinct(x, s[1..]);
      var tail := Insert(x, s[1..]);
      var r := Insert(x, s);
      assert r == [s[0]] + tail;
      forall j | 0 < j < |r| ensures r[0].0 != r[j].0 {
        assert r[j] in multiset(tail);
        if r[j] != x {
          var k := MemberIndex(s[1..], r[j]);
          assert s[k + 1] == r[j];
        }
      }
    }
  }

  /** Sorting keeps a dict a dict. */
  lemma {:induction false} SortByKeyDistinct<V>(d: seq<(string, V)>)
    requires DistinctKeys(d)
    ensures DistinctKeys(SortByKey(d))
  {
    if d != [] {
      var rest := SortByKey(d[1..]);
      SortByKeyDistinct(d[1..]);
      assert !HasKey(rest, d[0].0) by {
        if HasKey(rest, d[0].0) {
          var i :| 0 <= i < |rest| && rest[i].0 == d[0].0;
          assert rest[i] in multiset(d[1..]);
          var k := MemberIndex(d[1..], rest[i]);
        }
      }
      InsertDistinct(d[0], rest);
    }
  }

  /** Two orderings of the same sorted dict are equal. */
  lemma {:induction false} SortedUnique<V>(a: seq<(string, V)>, b: seq<(string, V)>)
    requires SortedByKey(a) && SortedByKey(b)
    requires DistinctKeys(a) && DistinctKeys(b)
    requires multiset(a) == multiset(b)
    ensures a == b
    decreases |a|
  {
    if a == [] {
      assert |b| == |multiset(b)| == 0;
    } else {
      SortedHeads(a, b);
      TailsAgree(a, b);
      TailKeeps(a);
      TailKeeps(b);
      SortedUnique(a[1..], b[1..]);
      assert a == [a[0]] + a[1..] && b == [b[0]] + b[1..];
    }
  }

  /** Two sorted dicts with the same items start with the same entry. */
  lemma SortedHeads<V>(a: seq<(string, V)>, b: seq<(string, V)>)
    requires a != [] && SortedByKey(a) && SortedByKey(b)
    requires DistinctKeys(a) && multiset(a) == multiset(b)
    ensures b != [] && a[0] == b[0]
  {
    assert b != [] by { assert |b| == |multiset(b)| == |multiset(a)| == |a|; }
    var i := MemberIndex(b, a[0]);
    var j := MemberIndex(a, b[0]);
    LexLeReflexive(a[0].0);
    assert LexLe(b[0].0, a[0].0) by { if i > 0 { } }
    assert LexLe(a[0].0, b[0].0) by { if j > 0 { } }
    LexLeAntisymmetric(a[0].0, b[0].0);
  }

  /** What is left of two dicts after the same first entry. */
  lemma TailsAgree<V>(a: seq<(string, V)>, b: seq<(string, V)>)
    requires a != [] && b != [] && a[0] == b[0]
    requires multiset(a) == multiset(b)
    ensures multiset(a[1..]) == multiset(b[1..])
  {
    assert a == [a[0]] + a[1..] && b == [b[0]] + b[1..];
    assert multiset(a[1..]) == multiset(a) - multiset{a[0]};
    assert multiset(b[1..]) == multiset(b) - multiset{b[0]};
  }

  /** Dropping the first entry keeps a dict sorted and its keys distinct. */
  lemma TailKeeps<V>(a: seq<(string, V)>)
    requires a != []
    ensures SortedByKey(a) ==> SortedByKey(a[1..])
    ensures DistinctKeys(a) ==> DistinctKeys(a[1..])
  {
    var t := a[1..];
    assert forall i :: 0 <= i < |t| ==> t[i] == a[i + 1];
  }

  /** The sorted items of a dict do not depend on its insertion order. */
  lemma SortByKeyDeterministic<V>(d1: seq<(string, V)>, d2: seq<(string, V)>)
    requires DistinctKeys(d1) && DistinctKeys(d2)
    requires multiset(d1) == multiset(d2)
    ensures SortByKey(d1) == SortByKey(d2)
  {
    SortByKeyDistinct(d1);
    SortByKeyDistinct(d2);
    SortedUnique(SortByKey(d1), SortByKey(d2));
  }

  /** A sorted dict is its own sorted item list. */
  lemma SortByKeySorted<V>(d: seq<(string, V)>)
    requires SortedByKey(d) && DistinctKeys(d)
    ensures SortByKey(d) == d
  {
    SortByKeyDistinct(d);
    SortedUnique(SortByKey(d), d);
  }

  /** `d[k]` for the first entry with key `k`. */
  function Find<V>(d: seq<(string, V)>, k: string): (r: Option<V>)
    ensures r.Some? <==> HasKey(d, k)
    ensures r.Some? ==> (k, r.value) in d
  {
    if d == [] then None
    else if d[0].0 == k then Some(d[0].1)
    else
      var r := Find(d[1..], k);
      assert HasKey(d, k) ==> HasKey(d[1..], k) by {
        if HasKey(d, k) { var i :| 0 <= i < |d| && d[i].0 == k; assert d[1..][i - 1].0 == k; }
      }
      assert HasKey(d[1..], k) ==> HasKey(d, k) by {
        if HasKey(d[1..], k) { var i :| 0 <= i < |d[1..]| && d[1..][i].0 == k; assert d[i + 1].0 == k; }
      }
      r
  }
}
