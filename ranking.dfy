/** Python's `list.sort(key=k, reverse=True)`: a stable sort on a real key,
    highest first, in which elements with equal keys keep their original
    order. Written as an insertion sort; its result is characterised by
    SortedDesc and KeyClass, and SortDescUnique shows that those two
    properties determine it. */
module Ranking {

  /** Keys never increase from left to right. */
  ghost predicate SortedDesc<T>(s: seq<T>, key: T -> real) {
    forall i, j :: 0 <= i < j < |s| ==> key(s[i]) >= key(s[j])
  }

  /** The elements of `s` whose key is `k`, in their order in `s`. A sort is
      stable when it leaves every such class as it was. */
  function KeyClass<T>(s: seq<T>, key: T -> real, k: real): seq<T> {
    if s == [] then []
    else (if key(s[0]) == k then [s[0]] else []) + KeyClass(s[1..], key, k)
  }

  /** Places `x` before the first element whose key is not greater than its own. */
  function Insert<T>(x: T, s: seq<T>, key: T -> real): seq<T> {
    if s == [] || key(x) >= key(s[0]) then [x] + s
    else [s[0]] + Insert(x, s[1..], key)
  }

  /** Insertion adds exactly `x`. */
  lemma {:induction false} InsertMultiset<T>(x: T, s: seq<T>, key: T -> real)
    ensures multiset(Insert(x, s, key)) == multiset(s) + multiset{x}
  {
    if s != [] && key(x) < key(s[0]) {
      InsertMultiset(x, s[1..], key);
      assert s == [s[0]] + s[1..];
    }
  }

  /** An element placed in front of a ranking whose keys it bounds gives a
      ranking. */
  lemma ConsSorted<T>(y: T, t: seq<T>, key: T -> real)
    requires SortedDesc(t, key)
    requires forall j :: 0 <= j < |t| ==> key(t[j]) <= key(y)
    ensures SortedDesc([y] + t, key)
  {
    var r := [y] + t;
    forall i, j | 0 <= i < j < |r| ensures key(r[i]) >= key(r[j]) {
      assert r[j] == t[j - 1];
      if i > 0 { assert r[i] == t[i - 1]; }
    }
  }

  /** A bound on every key survives insertion of an element within it. */
  lemma {:induction false} InsertBounded<T>(x: T, s: seq<T>, key: T -> real, b: real)
    requires key(x) <= b
    requires forall j :: 0 <= j < |s| ==> key(s[j]) <= b
    ensures forall j :: 0 <= j < |Insert(x, s, key)| ==> key(Insert(x, s, key)[j]) <= b
  {
    if s == [] || key(x) >= key(s[0]) {
      var r := [x] + s;
      assert forall j :: 1 <= j < |r| ==> r[j] == s[j - 1];
    } else {
      var t := Insert(x, s[1..], key);
      InsertBounded(x, s[1..], key, b);
      var r := [s[0]] + t;
      assert forall j :: 1 <= j < |r| ==> r[j] == t[j - 1];
    }
  }

  /** Inserting into a ranking keeps it a ranking. */
  lemma {:induction false} InsertSorted<T>(x: T, s: seq<T>, key: T -> real)
    requires SortedDesc(s, key)
    ensures SortedDesc(Insert(x, s, key), key)
  {
    if s == [] || key(x) >= key(s[0]) {
      ConsSorted(x, s, key);
    } else {
      SortedDescTail(s, key);
      InsertSorted(x, s[1..], key);
      InsertBounded(x, s[1..], key, key(s[0]));
      ConsSorted(s[0], Insert(x, s[1..], key), key);
    }
  }

  /** The key class of a sequence with one more element in front. */
  lemma KeyClassCons<T>(y: T, s: seq<T>, key: T -> real, k: real)
    ensures KeyClass([y] + s, key, k) == (if key(y) == k then [y] else []) + KeyClass(s, key, k)
  {
    assert ([y] + s)[0] == y;
    assert ([y] + s)[1..] == s;
  }

  /** The inserted element goes to the front of its key class; every other
      class is untouched. */
  lemma {:induction false} InsertClass<T>(x: T, s: seq<T>, key: T -> real, k: real)
    ensures KeyClass(Insert(x, s, key), key, k) == (if key(x) == k then [x] else []) + KeyClass(s, key, k)
  {
    if s == [] || key(x) >= key(s[0]) {
      KeyClassCons(x, s, key, k);
    } else {
      var t := Insert(x, s[1..], key);
      InsertClass(x, s[1..], key, k);
      KeyClassCons(s[0], t, key, k);
      KeyClassCons(s[0], s[1..], key, k);
      assert [s[0]] + s[1..] == s;
      if key(s[0]) == k {
        assert key(x) != k;
      }
    }
  }

  /** The ranking: sorted by key, highest first, stable. */
  function SortDesc<T(==)>(s: seq<T>, key: T -> real): (r: seq<T>)
    ensures |r| == |s|
    ensures multiset(r) == multiset(s)
    ensures SortedDesc(r, key)
    ensures forall k :: KeyClass(r, key, k) == KeyClass(s, key, k)
  {
    if s == [] then []
    else
      assert s == [s[0]] + s[1..];
      assert multiset(s) == multiset(s[1..]) + multiset{s[0]};
      var t := SortDesc(s[1..], key);
      InsertMultiset(s[0], t, key);
      InsertSorted(s[0], t, key);
      assert forall k :: KeyClass(Insert(s[0], t, key), key, k) == KeyClass(s, key, k) by {
        forall k ensures KeyClass(Insert(s[0], t, key), key, k) == KeyClass(s, key, k) {
          InsertClass(s[0], t, key, k);
        }
      }
      Insert(s[0], t, key)
  }

  /** The head of a sequence is the head of its own key class. */
  lemma KeyClassHead<T>(s: seq<T>, key: T -> real)
    requires s != []
    ensures KeyClass(s, key, key(s[0])) == [s[0]] + KeyClass(s[1..], key, key(s[0]))
  {
  }

  /** Two sequences sorted highest first whose key classes all agree are equal:
      "sorted and stable" has exactly one answer, the one SortDesc gives. */
  lemma {:induction false} SortedStableUnique<T>(r: seq<T>, q: seq<T>, key: T -> real)
    requires SortedDesc(r, key) && SortedDesc(q, key)
    requires forall k :: KeyClass(r, key, k) == KeyClass(q, key, k)
    ensures r == q
    decreases |r| + |q|
  {
    if r == [] && q == [] {
    } else if r == [] {
      // q's head class is non-empty in q and empty in r
      KeyClassHead(q, key);
      assert false;
    } else if q == [] {
      KeyClassHead(r, key);
      assert false;
    } else {
      // The top keys agree: r[0]'s class is non-empty in q, so q holds an
      // element of key key(r[0]), hence key(q[0]) >= key(r[0]); and the other way.
      TopKeysAgree(r, q, key);
      var k := key(r[0]);
      assert key(q[0]) == k;
      assert KeyClass(r, key, k) == [r[0]] + KeyClass(r[1..], key, k);
      assert KeyClass(q, key, k) == [q[0]] + KeyClass(q[1..], key, k);
      assert r[0] == KeyClass(r, key, k)[0] == KeyClass(q, key, k)[0] == q[0];
      forall k' ensures KeyClass(r[1..], key, k') == KeyClass(q[1..], key, k') {
        var head := if key(r[0]) == k' then [r[0]] else [];
        assert KeyClass(r, key, k') == head + KeyClass(r[1..], key, k');
        assert KeyClass(q, key, k') == head + KeyClass(q[1..], key, k');
        assert KeyClass(r, key, k') == KeyClass(q, key, k');
        assert KeyClass(r[1..], key, k') == KeyClass(r, key, k')[|head|..];
      }
      SortedDescTail(r, key);
      SortedDescTail(q, key);
      SortedStableUnique(r[1..], q[1..], key);
    }
  }

  lemma SortedDescTail<T>(s: seq<T>, key: T -> real)
    requires SortedDesc(s, key) && s != []
    ensures SortedDesc(s[1..], key)
  {
  }

  /** A non-empty key class of a sorted sequence names a key no greater than
      the head's. */
  lemma {:induction false} ClassKeyBelowHead<T>(s: seq<T>, key: T -> real, k: real)
    requires SortedDesc(s, key) && s != []
    requires KeyClass(s, key, k) != []
    ensures k <= key(s[0])
  {
    var c := KeyClass(s, key, k);
    KeyClassMember(s, key, k);
    var i :| 0 <= i < |s| && key(s[i]) == k;
  }

  lemma {:induction false} KeyClassMember<T>(s: seq<T>, key: T -> real, k: real)
    requires KeyClass(s, key, k) != []
    ensures exists i :: 0 <= i < |s| && key(s[i]) == k
  {
    if key(s[0]) == k {
      assert key(s[0]) == k;
    } else {
      KeyClassMember(s[1..], key, k);
      var i :| 0 <= i < |s[1..]| && key(s[1..][i]) == k;
      assert key(s[i + 1]) == k;
    }
  }

  lemma TopKeysAgree<T>(r: seq<T>, q: seq<T>, key: T -> real)
    requires SortedDesc(r, key) && SortedDesc(q, key) && r != [] && q != []
    requires forall k :: KeyClass(r, key, k) == KeyClass(q, key, k)
    ensures key(r[0]) == key(q[0])
  {
    assert KeyClass(r, key, key(r[0])) != [];
    ClassKeyBelowHead(q, key, key(r[0]));
    assert KeyClass(q, key, key(q[0])) != [];
    ClassKeyBelowHead(r, key, key(q[0]));
  }

  /** Any ranking that is sorted highest first and stable is the one SortDesc
      computes. */
  lemma SortDescUnique<T>(s: seq<T>, r: seq<T>, key: T -> real)
    requires SortedDesc(r, key)
    requires forall k :: KeyClass(r, key, k) == KeyClass(s, key, k)
    ensures r == SortDesc(s, key)
  {
    SortedStableUnique(r, SortDesc(s, key), key);
  }
}
