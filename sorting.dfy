/** A stable sort by an integer key, the behaviour `Array.prototype.sort`
    guarantees (since ECMAScript 2019) for a comparator of the form
    `(a, b) => key(a) - key(b)`: ascending by key, elements with equal keys in
    their original order. It is given as an insertion sort; `StableSortIsUnique`
    shows that any sort with those two properties yields the same sequence, so
    the choice of algorithm is not observable. */
module Sorting {

  /** Non-decreasing by `key`. */
  ghost predicate SortedBy<T>(s: seq<T>, key: T -> int) {
    forall i, j :: 0 <= i < j < |s| ==> key(s[i]) <= key(s[j])
  }

  /** The elements of `s` whose key is `k`, in the order they occur in `s`. */
  function WithKey<T>(s: seq<T>, key: T -> int, k: int): (r: seq<T>)
    ensures |r| <= |s|
    ensures forall x :: x in r ==> x in s && key(x) == k
  {
    if s == [] then [] else (if key(s[0]) == k then [s[0]] else []) + WithKey(s[1..], key, k)
  }

  /** Inserts `x` in front of the first element whose key is not smaller. */
  function Insert<T>(x: T, s: seq<T>, key: T -> int): (r: seq<T>)
    ensures |r| == |s| + 1
    ensures multiset(r) == multiset(s) + multiset{x}
  {
    if s == [] || key(x) <= key(s[0]) then
      [x] + s
    else
      assert s == [s[0]] + s[1..];
      [s[0]] + Insert(x, s[1..], key)
  }

  /** Inserting into a sorted sequence keeps it sorted. */
  lemma {:induction false} InsertSorted<T>(x: T, s: seq<T>, key: T -> int)
    requires SortedBy(s, key)
    ensures SortedBy(Insert(x, s, key), key)
  {
    if s != [] && key(s[0]) < key(x) {
      var rest := Insert(x, s[1..], key);
      InsertSorted(x, s[1..], key);
      forall j | 0 <= j < |rest| ensures key(s[0]) <= key(rest[j]) {
        assert rest[j] in multiset(s[1..]) + multiset{x};
        if rest[j] != x {
          var i :| 0 <= i < |s[1..]| && s[1..][i] == rest[j];
          assert s[1..][i] == s[i + 1];
        }
      }
      var r := [s[0]] + rest;
      forall i, j | 0 <= i < j < |r| ensures key(r[i]) <= key(r[j]) {
        if i == 0 {
          assert r[j] == rest[j - 1];
        } else {
          assert r[i] == rest[i - 1] && r[j] == rest[j - 1];
        }
      }
    }
  }

  /** Sorts `s` ascending by `key`, keeping equal keys in input order. */
  function Sort<T>(s: seq<T>, key: T -> int): (r: seq<T>)
    ensures |r| == |s|
    ensures multiset(r) == multiset(s)
    ensures SortedBy(r, key)
  {
    if s == [] then
      []
    else
      assert s == [s[0]] + s[1..];
      InsertSorted(s[0], Sort(s[1..], key), key);
      Insert(s[0], Sort(s[1..], key), key)
  }

  /** `WithKey` of a sequence with a known first element. */
  lemma WithKeyCons<T>(x: T, s: seq<T>, key: T -> int, k: int)
    ensures WithKey([x] + s, key, k) == (if key(x) == k then [x] else []) + WithKey(s, key, k)
  {
  }

  /** Inserting `x` adds it in front of the elements of equal key and leaves
      the relative order of every key class otherwise untouched. */
  lemma {:induction false} InsertKeepsKeyOrder<T>(x: T, s: seq<T>, key: T -> int, k: int)
    ensures WithKey(Insert(x, s, key), key, k) == (if key(x) == k then [x] else []) + WithKey(s, key, k)
  {
    if s == [] || key(x) <= key(s[0]) {
      WithKeyCons(x, s, key, k);
    } else {
      var rest := Insert(x, s[1..], key);
      assert Insert(x, s, key) == [s[0]] + rest;
      assert [s[0]] + s[1..] == s;
      InsertKeepsKeyOrder(x, s[1..], key, k);
      WithKeyCons(s[0], rest, key, k);
      WithKeyCons(s[0], s[1..], key, k);
      if key(x) == k {
        // key(s[0]) < key(x), so s[0] is not in the class of x
        assert WithKey(Insert(x, s, key), key, k) == [x] + WithKey(s[1..], key, k);
      } else if key(s[0]) == k {
        assert WithKey(Insert(x, s, key), key, k) == [s[0]] + WithKey(s[1..], key, k);
      } else {
        assert WithKey(Insert(x, s, key), key, k) == WithKey(s[1..], key, k);
      }
    }
  }

  /** Stability: for every key, the elements of that key appear in the output
      in exactly the order they had in the input. */
  lemma {:induction false} SortIsStable<T>(s: seq<T>, key: T -> int, k: int)
    ensures WithKey(Sort(s, key), key, k) == WithKey(s, key, k)
  {
    if s != [] {
      SortIsStable(s[1..], key, k);
      InsertKeepsKeyOrder(s[0], Sort(s[1..], key), key, k);
      WithKeyCons(s[0], s[1..], key, k);
      assert [s[0]] + s[1..] == s;
    }
  }

  /** In a non-empty sorted sequence the first element has the least key. */
  lemma SortedHead<T>(s: seq<T>, key: T -> int, y: T)
    requires SortedBy(s, key) && y in s
    ensures key(s[0]) <= key(y)
  {
  }

  /** Sortedness and stability determine the result completely: two sorted
      sequences that agree on the ordered subsequence of every key are equal. */
  lemma {:induction false} StableSortIsUnique<T>(a: seq<T>, b: seq<T>, key: T -> int)
    requires SortedBy(a, key) && SortedBy(b, key)
    requires forall k :: WithKey(a, key, k) == WithKey(b, key, k)
    ensures a == b
  {
    if a == [] || b == [] {
      if a != [] {
        assert [a[0]] + a[1..] == a;
        WithKeyCons(a[0], a[1..], key, key(a[0]));
      } else if b != [] {
        assert [b[0]] + b[1..] == b;
        WithKeyCons(b[0], b[1..], key, key(b[0]));
      }
    } else {
      var ka, kb := key(a[0]), key(b[0]);
      assert a == [a[0]] + a[1..];
      assert b == [b[0]] + b[1..];
      WithKeyCons(a[0], a[1..], key, ka);
      WithKeyCons(b[0], b[1..], key, kb);
      // the first element of each has a key that also occurs in the other
      assert b[0] in WithKey(a, key, kb);
      assert a[0] in WithKey(b, key, ka);
      SortedHead(a, key, b[0]);
      SortedHead(b, key, a[0]);
      assert ka == kb;
      assert a[0] == WithKey(b, key, ka)[0];
      assert a[0] == b[0];
      forall k
        ensures WithKey(a[1..], key, k) == WithKey(b[1..], key, k)
      {
        WithKeyCons(a[0], a[1..], key, k);
        WithKeyCons(b[0], b[1..], key, k);
        var p := if key(a[0]) == k then [a[0]] else [];
        assert p + WithKey(a[1..], key, k) == p + WithKey(b[1..], key, k);
        assert (p + WithKey(a[1..], key, k))[|p|..] == WithKey(a[1..], key, k);
        assert (p + WithKey(b[1..], key, k))[|p|..] == WithKey(b[1..], key, k);
      }
      assert SortedBy(a[1..], key);
      assert SortedBy(b[1..], key);
      StableSortIsUnique(a[1..], b[1..], key);
    }
  }

  /** `Sort` is the one stable sort: every sorted sequence that keeps each
      key class of `s` in input order is `Sort(s, key)`. */
  lemma SortIsTheStableSort<T>(s: seq<T>, r: seq<T>, key: T -> int)
    requires SortedBy(r, key)
    requires forall k :: WithKey(r, key, k) == WithKey(s, key, k)
    ensures r == Sort(s, key)
  {
    forall k
      ensures WithKey(r, key, k) == WithKey(Sort(s, key), key, k)
    {
      SortIsStable(s, key, k);
    }
    StableSortIsUnique(r, Sort(s, key), key);
  }
}
