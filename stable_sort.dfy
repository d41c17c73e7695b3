/**
 * `Array.prototype.sort` with a numeric comparator `(a, b) => key(a) - key(b)`.
 * The language requires this sort to be stable, so its result is determined
 * by the keys alone: it is in non-decreasing key order and elements with
 * equal keys keep their input order. The model computes that result by
 * insertion; `StableSortIsUnique` shows that any other stable sort agrees.
 */
module StableSort {
  import opened Sequences

  /** Places `x` in front of the first element whose key is not below its own. */
  function Insert<T>(x: T, s: seq<T>, key: T -> real): (r: seq<T>)
    ensures |r| == |s| + 1
    ensures multiset(r) == multiset(s) + multiset{x}
  {
    if s == [] || key(x) <= key(s[0]) then [x] + s
    else
      assert s == [s[0]] + s[1..];
      [s[0]] + Insert(x, s[1..], key)
  }

  /** Sorts `s` by `key`, inserting each element in front of the sorted rest. */
  function SortByKey<T>(s: seq<T>, key: T -> real): (r: seq<T>)
    ensures |r| == |s|
    ensures multiset(r) == multiset(s)
  {
    if s == [] then []
    else
      assert s == [s[0]] + s[1..];
      Insert(s[0], SortByKey(s[1..], key), key)
  }

  lemma {:induction false} InsertSorted<T>(x: T, s: seq<T>, key: T -> real)
    requires SortedBy(s, key)
    ensures SortedBy(Insert(x, s, key), key)
    ensures forall y :: y in Insert(x, s, key) ==> y == x || y in s
  {
    if s != [] && key(x) > key(s[0]) {
      InsertSorted(x, s[1..], key);
      var rest := Insert(x, s[1..], key);
      forall y | y in rest ensures key(s[0]) <= key(y) {
        if y != x {
          var i :| 0 <= i < |s[1..]| && s[1..][i] == y;
          assert s[i + 1] == y;
        }
      }
    }
  }

  /** An inserted element comes before every element already there with its key. */
  lemma {:induction false} InsertKeyClass<T>(x: T, s: seq<T>, key: T -> real, k: real)
    ensures KeyClass(Insert(x, s, key), key, k)
         == (if key(x) == k then [x] else []) + KeyClass(s, key, k)
  {
    var xs := if key(x) == k then [x] else [];
    if s == [] || key(x) <= key(s[0]) {
      var r := [x] + s;
      assert r[0] == x && r[1..] == s;
      assert KeyClass(r, key, k) == xs + KeyClass(s, key, k);
    } else {
      var rest := Insert(x, s[1..], key);
      InsertKeyClass(x, s[1..], key, k);
      var r := [s[0]] + rest;
      assert r[0] == s[0] && r[1..] == rest;
      var heads := if key(s[0]) == k then [s[0]] else [];
      assert KeyClass(r, key, k) == heads + (xs + KeyClass(s[1..], key, k));
      assert KeyClass(s, key, k) == heads + KeyClass(s[1..], key, k);
      if key(x) == k {
        assert heads == [];
      } else {
        assert xs == [];
      }
    }
  }

  /** The sort orders by key and keeps input order among equal keys. */
  lemma {:induction false} SortByKeyCorrect<T>(s: seq<T>, key: T -> real)
    ensures SortedBy(SortByKey(s, key), key)
    ensures SameKeyClasses(SortByKey(s, key), s, key)
  {
    if s != [] {
      SortByKeyCorrect(s[1..], key);
      InsertSorted(s[0], SortByKey(s[1..], key), key);
      forall k ensures KeyClass(SortByKey(s, key), key, k) == KeyClass(s, key, k) {
        InsertKeyClass(s[0], SortByKey(s[1..], key), key, k);
      }
    }
  }

  lemma HeadKeyClass<T>(s: seq<T>, key: T -> real)
    requires s != []
    ensures KeyClass(s, key, key(s[0])) != []
  {
  }

  /**
   * Two sequences that are both sorted by `key` and have the same elements for
   * every key are equal: a stable sort has exactly one possible result.
   */
  lemma {:induction false} StableSortIsUnique<T>(a: seq<T>, b: seq<T>, key: T -> real)
    requires SortedBy(a, key) && SortedBy(b, key)
    requires SameKeyClasses(a, b, key)
    ensures a == b
    decreases |a|
  {
    if a == [] || b == [] {
      if a != [] {
        HeadKeyClass(a, key);
      } else if b != [] {
        HeadKeyClass(b, key);
      }
    } else {
      var m, n := key(a[0]), key(b[0]);
      assert KeyClass(b, key, n)[0] == b[0];
      KeyClassMember(a, key, n, KeyClass(a, key, n)[0]);
      assert KeyClass(a, key, m)[0] == a[0];
      KeyClassMember(b, key, m, KeyClass(b, key, m)[0]);
      assert m == n;
      assert a[0] == KeyClass(a, key, m)[0] == b[0];
      forall k ensures KeyClass(a[1..], key, k) == KeyClass(b[1..], key, k) {
        var head := if key(a[0]) == k then [a[0]] else [];
        assert KeyClass(a, key, k) == head + KeyClass(a[1..], key, k);
        assert KeyClass(b, key, k) == head + KeyClass(b[1..], key, k);
        assert KeyClass(a, key, k) == KeyClass(b, key, k);
        assert KeyClass(a[1..], key, k) == KeyClass(a, key, k)[|head|..];
        assert KeyClass(b[1..], key, k) == KeyClass(b, key, k)[|head|..];
      }
      StableSortIsUnique(a[1..], b[1..], key);
      assert a == [a[0]] + a[1..];
      assert b == [b[0]] + b[1..];
    }
  }

  /** Sorting an already sorted sequence changes nothing. */
  lemma SortSortedIsIdentity<T>(s: seq<T>, key: T -> real)
    requires SortedBy(s, key)
    ensures SortByKey(s, key) == s
  {
    SortByKeyCorrect(s, key);
    StableSortIsUnique(SortByKey(s, key), s, key);
  }

  /** When every key is the same, the sort keeps the input order. */
  lemma SortEqualKeysIsIdentity<T>(s: seq<T>, key: T -> real, k: real)
    requires forall i :: 0 <= i < |s| ==> key(s[i]) == k
    ensures SortByKey(s, key) == s
  {
    SortSortedIsIdentity(s, key);
  }
}
