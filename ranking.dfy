/** `Array.prototype.sort` with a comparator, which the application uses to
    rank candidates (similar terms, most used terms, patient identifiers).
    The comparator of every call site orders by a pair of integers,
    lexicographically; the sort is stable, as ECMAScript 2019 requires. */
module Ranking {
  import opened Common

  type Key = (int, int)

  predicate KeyLe(a: Key, b: Key) {
    a.0 < b.0 || (a.0 == b.0 && a.1 <= b.1)
  }

  predicate SortedBy<T>(s: seq<T>, key: T -> Key) {
    forall i, j :: 0 <= i < j < |s| ==> KeyLe(key(s[i]), key(s[j]))
  }

  /** Sorting keeps the elements. */
  lemma SortMembers<T>(s: seq<T>, key: T -> Key)
    ensures forall x :: x in Sort(s, key) <==> x in s
  {
    var r := Sort(s, key);
    forall x ensures x in r <==> x in s {
      assert x in r <==> x in multiset(r);
      assert x in s <==> x in multiset(s);
    }
  }

  /** Put `x` in front of the first element whose key is not below its own. */
  function Insert<T>(x: T, s: seq<T>, key: T -> Key): (r: seq<T>)
    ensures multiset(r) == multiset(s) + multiset{x}
    ensures |r| == |s| + 1
    decreases |s|
  {
    if s == [] || KeyLe(key(x), key(s[0])) then [x] + s
    else
      assert s == [s[0]] + s[1..];
      [s[0]] + Insert(x, s[1..], key)
  }

  /** The stable sort, by insertion from the back. */
  function Sort<T>(s: seq<T>, key: T -> Key): (r: seq<T>)
    ensures |r| == |s|
    ensures multiset(r) == multiset(s)
    decreases |s|
  {
    if s == [] then []
    else
      assert s == [s[0]] + s[1..];
      Insert(s[0], Sort(s[1..], key), key)
  }

  lemma {:induction false} InsertSorted<T>(x: T, s: seq<T>, key: T -> Key)
    requires SortedBy(s, key)
    ensures SortedBy(Insert(x, s, key), key)
    decreases |s|
  {
    if s != [] && !KeyLe(key(x), key(s[0])) {
      InsertSorted(x, s[1..], key);
      var r := Insert(x, s[1..], key);
      assert forall y | y in multiset(r) :: y == x || y in multiset(s[1..]);
      forall j | 0 <= j < |r|
        ensures KeyLe(key(s[0]), key(r[j]))
      {
        assert r[j] in multiset(r);
        if r[j] != x {
          assert r[j] in s[1..];
        }
      }
    }
  }

  /** The result is ordered by the key. */
  lemma {:induction false} SortSorted<T>(s: seq<T>, key: T -> Key)
    ensures SortedBy(Sort(s, key), key)
    decreases |s|
  {
    if s != [] {
      SortSorted(s[1..], key);
      InsertSorted(s[0], Sort(s[1..], key), key);
    }
  }

  function HasKey<T>(key: T -> Key, k: Key): T -> bool {
    y => key(y) == k
  }

  lemma {:induction false} InsertStable<T>(x: T, s: seq<T>, key: T -> Key, k: Key)
    requires SortedBy(s, key)
    ensures Filter(Insert(x, s, key), HasKey(key, k)) ==
            (if key(x) == k then [x] else []) + Filter(s, HasKey(key, k))
    decreases |s|
  {
    var p := HasKey(key, k);
    if s == [] || KeyLe(key(x), key(s[0])) {
      assert ([x] + s)[1..] == s;
      if key(x) != k {
        assert Filter([x] + s, p) == Filter(s, p);
      }
    } else {
      InsertStable(x, s[1..], key, k);
      var r := Insert(x, s[1..], key);
      assert ([s[0]] + r)[1..] == r;
      if key(x) == k {
        // s[0] sorts strictly before x, so its key differs
        assert key(s[0]) != k;
      }
    }
  }

  /** Stability: the elements that share a key keep their relative order. */
  lemma {:induction false} SortStable<T>(s: seq<T>, key: T -> Key, k: Key)
    ensures Filter(Sort(s, key), HasKey(key, k)) == Filter(s, HasKey(key, k))
    decreases |s|
  {
    if s != [] {
      SortStable(s[1..], key, k);
      SortSorted(s[1..], key);
      InsertStable(s[0], Sort(s[1..], key), key, k);
    }
  }

  /** The first element after sorting has the lowest key, and it is the
      first element of the input with that key. */
  lemma SortFirst<T>(s: seq<T>, key: T -> Key)
    requires s != []
    ensures forall i :: 0 <= i < |s| ==> KeyLe(key(Sort(s, key)[0]), key(s[i]))
    ensures exists i :: 0 <= i < |s| && s[i] == Sort(s, key)[0] &&
              key(s[i]) == key(Sort(s, key)[0]) &&
              forall j :: 0 <= j < i ==> key(s[j]) != key(s[i])
  {
    var r := Sort(s, key);
    SortSorted(s, key);
    forall i | 0 <= i < |s|
      ensures KeyLe(key(r[0]), key(s[i]))
    {
      assert s[i] in multiset(r);
      var j :| 0 <= j < |r| && r[j] == s[i];
      if j > 0 {
        assert KeyLe(key(r[0]), key(r[j]));
      }
    }
    var k := key(r[0]);
    var p := HasKey(key, k);
    SortStable(s, key, k);
    FirstOfFilter(r, p);
    var i := FirstOfFilterIndex(s, p);
  }

  lemma {:induction false} FirstOfFilter<T>(s: seq<T>, p: T -> bool)
    requires s != [] && p(s[0])
    ensures Filter(s, p) != [] && Filter(s, p)[0] == s[0]
  {
  }

  /** The first element that passes a filter is the head of the filtered
      sequence, and nothing before it passes. */
  lemma {:induction false} FirstOfFilterIndex<T>(s: seq<T>, p: T -> bool) returns (i: nat)
    requires Filter(s, p) != []
    ensures i < |s| && s[i] == Filter(s, p)[0] && p(s[i])
    ensures forall j :: 0 <= j < i ==> !p(s[j])
    decreases |s|
  {
    if p(s[0]) {
      i := 0;
    } else {
      var i' := FirstOfFilterIndex(s[1..], p);
      i := i' + 1;
    }
  }
}
