/** Array.prototype.sort with a comparator of the form
    `(a, b) => key(a) - key(b)`. The ECMAScript standard requires the sort to
    be stable (since the 2019 edition), and a stable sort by a key is unique
    as a function of its input, so it is modelled here by insertion sort. */
module StableSort {

  /** x placed in front of the first element of s whose key is not smaller. */
  function Insert<T>(x: T, s: seq<T>, key: T -> int): (r: seq<T>)
    ensures |r| == |s| + 1
  {
    if s == [] || key(x) <= key(s[0]) then [x] + s
    else [s[0]] + Insert(x, s[1..], key)
  }

  function SortBy<T>(s: seq<T>, key: T -> int): (r: seq<T>)
    ensures |r| == |s|
  {
    if s == [] then [] else Insert(s[0], SortBy(s[1..], key), key)
  }

  /** Insertion adds x and keeps every element of s. */
  lemma {:induction false} InsertPermutes<T>(x: T, s: seq<T>, key: T -> int)
    ensures multiset(Insert(x, s, key)) == multiset{x} + multiset(s)
  {
    if s != [] && key(x) > key(s[0]) {
      InsertPermutes(x, s[1..], key);
      assert s == [s[0]] + s[1..];
    }
  }

  /** The sorted sequence is a permutation of the input. */
  lemma {:induction false} SortByPermutes<T>(s: seq<T>, key: T -> int)
    ensures multiset(SortBy(s, key)) == multiset(s)
  {
    if s != [] {
      SortByPermutes(s[1..], key);
      InsertPermutes(s[0], SortBy(s[1..], key), key);
      assert s == [s[0]] + s[1..];
    }
  }

  /** Every element of the sorted sequence comes from the input. */
  lemma SortByFrom<T>(s: seq<T>, key: T -> int, i: nat)
    requires i < |SortBy(s, key)|
    ensures SortBy(s, key)[i] in s
  {
    var r := SortBy(s, key);
    SortByPermutes(s, key);
    assert r[i] in multiset(r);
  }

  /** One step of the insertion: x stops in front of s[0] or moves past it. */
  lemma InsertStep<T>(x: T, s: seq<T>, key: T -> int)
    ensures s == [] || key(x) <= key(s[0]) ==> Insert(x, s, key) == [x] + s
    ensures s != [] && key(x) > key(s[0]) ==> Insert(x, s, key) == [s[0]] + Insert(x, s[1..], key)
  {
  }

  /** One step of the sort: the first element is inserted into the sorted rest. */
  lemma SortByStep<T>(x: T, s: seq<T>, key: T -> int)
    ensures SortBy([x] + s, key) == Insert(x, SortBy(s, key), key)
  {
    assert ([x] + s)[0] == x && ([x] + s)[1..] == s;
  }

  predicate SortedBy<T>(s: seq<T>, key: T -> int) {
    forall i, j :: 0 <= i < j < |s| ==> key(s[i]) <= key(s[j])
  }

  /** The subsequence of s whose key is k, in the order of s. */
  function WithKey<T>(s: seq<T>, key: T -> int, k: int): seq<T> {
    if s == [] then []
    else (if key(s[0]) == k then [s[0]] else []) + WithKey(s[1..], key, k)
  }

  /** A sequence applied element-wise to g. */
  function Map<T, U>(s: seq<T>, g: T -> U): (r: seq<U>)
    ensures |r| == |s|
    ensures forall i :: 0 <= i < |s| ==> r[i] == g(s[i])
  {
    if s == [] then [] else [g(s[0])] + Map(s[1..], g)
  }

  lemma MapAppend<T, U>(a: seq<T>, b: seq<T>, g: T -> U)
    ensures Map(a + b, g) == Map(a, g) + Map(b, g)
  {
  }

  /** A lower bound of x and of every key of s bounds every key after insertion. */
  lemma {:induction false} InsertLowerBound<T>(x: T, s: seq<T>, key: T -> int, b: int)
    requires b <= key(x)
    requires forall i :: 0 <= i < |s| ==> b <= key(s[i])
    ensures forall i :: 0 <= i < |Insert(x, s, key)| ==> b <= key(Insert(x, s, key)[i])
  {
    if s != [] && key(x) > key(s[0]) {
      InsertLowerBound(x, s[1..], key, b);
      assert Insert(x, s, key) == [s[0]] + Insert(x, s[1..], key);
    }
  }

  lemma {:induction false} InsertSorted<T>(x: T, s: seq<T>, key: T -> int)
    requires SortedBy(s, key)
    ensures SortedBy(Insert(x, s, key), key)
  {
    if s != [] && key(x) > key(s[0]) {
      var t := s[1..];
      assert SortedBy(t, key);
      InsertSorted(x, t, key);
      var r := Insert(x, t, key);
      InsertLowerBound(x, t, key, key(s[0]));
      var q := [s[0]] + r;
      assert Insert(x, s, key) == q;
      forall i, j | 0 <= i < j < |q| ensures key(q[i]) <= key(q[j]) {
        assert q[j] == r[j - 1];
        if i > 0 {
          assert q[i] == r[i - 1];
        }
      }
    }
  }

  /** The sorted sequence is ordered by key. */
  lemma {:induction false} SortBySorted<T>(s: seq<T>, key: T -> int)
    ensures SortedBy(SortBy(s, key), key)
  {
    if s != [] {
      SortBySorted(s[1..], key);
      InsertSorted(s[0], SortBy(s[1..], key), key);
    }
  }

  lemma {:induction false} WithKeyAppend<T>(a: seq<T>, b: seq<T>, key: T -> int, k: int)
    ensures WithKey(a + b, key, k) == WithKey(a, key, k) + WithKey(b, key, k)
  {
    if a != [] {
      assert (a + b)[1..] == a[1..] + b;
      WithKeyAppend(a[1..], b, key, k);
    } else {
      assert a + b == b;
    }
  }

  /** Inserting x adds it in front of, and only in front of, the elements
      of s that have its key. */
  lemma {:induction false} InsertWithKey<T>(x: T, s: seq<T>, key: T -> int, k: int)
    ensures WithKey(Insert(x, s, key), key, k) ==
            (if key(x) == k then [x] else []) + WithKey(s, key, k)
  {
    var r := Insert(x, s, key);
    if s == [] || key(x) <= key(s[0]) {
      assert r[0] == x && r[1..] == s;
    } else {
      var t := s[1..];
      assert r[0] == s[0] && r[1..] == Insert(x, t, key);
      InsertWithKey(x, t, key, k);
      // x and s[0] have different keys, so at most one of them is kept
      assert key(x) != k || key(s[0]) != k;
      assert WithKey(r, key, k) == (if key(s[0]) == k then [s[0]] else []) + WithKey(Insert(x, t, key), key, k);
      assert WithKey(s, key, k) == (if key(s[0]) == k then [s[0]] else []) + WithKey(t, key, k);
    }
  }

  /** Stability: for every key value, the elements with that key appear in
      the sorted sequence in the order they had in the input. */
  lemma {:induction false} SortByStable<T>(s: seq<T>, key: T -> int, k: int)
    ensures WithKey(SortBy(s, key), key, k) == WithKey(s, key, k)
  {
    if s != [] {
      SortByStable(s[1..], key, k);
      InsertWithKey(s[0], SortBy(s[1..], key), key, k);
    }
  }

  lemma {:induction false} WithKeyOfConstant<T>(s: seq<T>, key: T -> int, k: int)
    requires forall i :: 0 <= i < |s| ==> key(s[i]) == k
    ensures WithKey(s, key, k) == s
  {
    if s != [] {
      WithKeyOfConstant(s[1..], key, k);
    }
  }

  /** A comparator that always answers 0 leaves the order unchanged. */
  lemma SortByConstantKey<T>(s: seq<T>, key: T -> int, k: int)
    requires forall i :: 0 <= i < |s| ==> key(s[i]) == k
    ensures SortBy(s, key) == s
  {
    var r := SortBy(s, key);
    SortByPermutes(s, key);
    forall i | 0 <= i < |r| ensures key(r[i]) == k {
      assert r[i] in multiset(s);
    }
    SortByStable(s, key, k);
    WithKeyOfConstant(s, key, k);
    WithKeyOfConstant(r, key, k);
  }

  /** Sorting commutes with a projection g when the key of an element is the
      key of its image: sorting rows and then projecting them gives the same
      sequence as projecting first and sorting the images. */
  lemma {:induction false} InsertMap<T, U>(x: T, s: seq<T>, g: T -> U, kt: T -> int, ku: U -> int)
    requires forall y :: kt(y) == ku(g(y))
    ensures Map(Insert(x, s, kt), g) == Insert(g(x), Map(s, g), ku)
  {
    if s != [] && kt(x) > kt(s[0]) {
      InsertMap(x, s[1..], g, kt, ku);
      assert Map(s, g)[1..] == Map(s[1..], g);
      assert Map([s[0]] + Insert(x, s[1..], kt), g) == [g(s[0])] + Map(Insert(x, s[1..], kt), g);
    }
  }

  lemma {:induction false} SortByMap<T, U>(s: seq<T>, g: T -> U, kt: T -> int, ku: U -> int)
    requires forall y :: kt(y) == ku(g(y))
    ensures Map(SortBy(s, kt), g) == SortBy(Map(s, g), ku)
  {
    if s != [] {
      SortByMap(s[1..], g, kt, ku);
      InsertMap(s[0], SortBy(s[1..], kt), g, kt, ku);
      assert Map(s, g)[0] == g(s[0]) && Map(s, g)[1..] == Map(s[1..], g);
    }
  }
}
