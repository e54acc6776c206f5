/** The ordering that `Array.prototype.sort` produces when its comparator is
    `(a, b) => key(b) - key(a)`: non-increasing by `key`, and, since the
    ECMAScript 2019 edition requires the sort to be stable, elements with equal
    keys keep their original relative order. The source uses it three times
    (plagiarism matches, teacher match scores, keyword counts); the model
    defines it once, as an insertion sort, and proves that it is a stable
    permutation sorted by key. */
module Sorting {

  /** Non-increasing by `key`. */
  ghost predicate SortedDesc<T>(s: seq<T>, key: T -> real) {
    forall i, j :: 0 <= i < j < |s| ==> key(s[i]) >= key(s[j])
  }

  /** The subsequence of the elements of `s` whose key is `v`, in their order in `s`.
      A sort is stable exactly when it leaves this subsequence unchanged for every `v`. */
  function WithKey<T>(s: seq<T>, key: T -> real, v: real): (r: seq<T>)
    ensures |r| <= |s|
  {
    if s == [] then []
    else (if key(s[0]) == v then [s[0]] else []) + WithKey(s[1..], key, v)
  }

  /** Puts `x` in front of the first element whose key is not larger than its own. */
  function Insert<T>(x: T, t: seq<T>, key: T -> real): (r: seq<T>)
    ensures |r| == |t| + 1
  {
    if t == [] || key(x) >= key(t[0]) then [x] + t
    else [t[0]] + Insert(x, t[1..], key)
  }

  /** Inserting adds `x` and nothing else. */
  lemma {:induction false} InsertPerm<T>(x: T, t: seq<T>, key: T -> real)
    ensures multiset(Insert(x, t, key)) == multiset(t) + multiset{x}
    decreases |t|
  {
    if t != [] && key(x) < key(t[0]) {
      InsertPerm(x, t[1..], key);
      assert t == [t[0]] + t[1..];
    }
  }

  /** The stable descending sort (insertion sort, each element inserted in
      front of the equal-keyed elements that follow it in the input). */
  function SortDesc<T>(s: seq<T>, key: T -> real): (r: seq<T>)
    ensures |r| == |s|
  {
    if s == [] then [] else Insert(s[0], SortDesc(s[1..], key), key)
  }

  /** `SortDesc` permutes its input, orders it by non-increasing key, and is stable. */
  lemma {:induction false} SortDescCorrect<T>(s: seq<T>, key: T -> real)
    ensures multiset(SortDesc(s, key)) == multiset(s)
    ensures SortedDesc(SortDesc(s, key), key)
    ensures forall v :: WithKey(SortDesc(s, key), key, v) == WithKey(s, key, v)
  {
    if s != [] {
      var rest := SortDesc(s[1..], key);
      SortDescCorrect(s[1..], key);
      InsertSorted(s[0], rest, key);
      InsertPerm(s[0], rest, key);
      assert s == [s[0]] + s[1..];
      forall v ensures WithKey(SortDesc(s, key), key, v) == WithKey(s, key, v) {
        InsertWithKey(s[0], rest, key, v);
      }
    }
  }

  lemma {:induction false} InsertSorted<T>(x: T, t: seq<T>, key: T -> real)
    requires SortedDesc(t, key)
    ensures SortedDesc(Insert(x, t, key), key)
    decreases |t|
  {
    if t == [] || key(x) >= key(t[0]) {
    } else {
      var tail := Insert(x, t[1..], key);
      InsertSorted(x, t[1..], key);
      InsertPerm(x, t[1..], key);
      forall j | 0 <= j < |tail| ensures key(t[0]) >= key(tail[j]) {
        assert tail[j] in multiset(tail);
        assert tail[j] == x || tail[j] in multiset(t[1..]);
        if tail[j] != x {
          var m :| 0 <= m < |t[1..]| && t[1..][m] == tail[j];
          assert t[1 + m] == tail[j];
        }
      }
    }
  }

  /** `WithKey` of a sequence with a given first element. */
  lemma WithKeyCons<T>(x: T, t: seq<T>, key: T -> real, v: real)
    ensures WithKey([x] + t, key, v) == (if key(x) == v then [x] else []) + WithKey(t, key, v)
  {
    assert ([x] + t)[1..] == t;
  }

  /** Inserting `x` puts it in front of every element of `t` that has its key. */
  lemma {:induction false} InsertWithKey<T>(x: T, t: seq<T>, key: T -> real, v: real)
    ensures WithKey(Insert(x, t, key), key, v)
         == (if key(x) == v then [x] else []) + WithKey(t, key, v)
    decreases |t|
  {
    if t == [] || key(x) >= key(t[0]) {
      WithKeyCons(x, t, key, v);
    } else {
      var rest := Insert(x, t[1..], key);
      InsertWithKey(x, t[1..], key, v);
      WithKeyCons(t[0], rest, key, v);
      WithKeyCons(t[0], t[1..], key, v);
      assert t == [t[0]] + t[1..];
      // `x` and `t[0]` have different keys, so at most one of them is kept
      if key(t[0]) == v {
        assert key(x) != v;
      }
    }
  }

  /** `s.slice(0, n)` for `n >= 0`. */
  function Take<T>(s: seq<T>, n: nat): (r: seq<T>)
    ensures |r| == if n < |s| then n else |s|
    ensures forall k :: 0 <= k < |r| ==> r[k] == s[k]
  {
    if n < |s| then s[..n] else s
  }
}
