/** Python's `list.sort(key=...)`: a stable sort by a numeric key. Both the
    candle normaliser (ascending timestamps) and the round evaluation
    (descending scores, written here as ascending negated scores) rely on
    it. Stability means that elements with equal keys keep their input
    order. */
module StableSort {

  predicate SortedBy<T>(s: seq<T>, key: T -> real) {
    forall i, j :: 0 <= i < j < |s| ==> key(s[i]) <= key(s[j])
  }

  /** The elements of `s` whose key is exactly `k`, in input order. */
  function WithKey<T>(s: seq<T>, key: T -> real, k: real): (r: seq<T>)
    ensures |r| <= |s|
    ensures forall i :: 0 <= i < |r| ==> key(r[i]) == k
  {
    if |s| == 0 then []
    else (if key(s[0]) == k then [s[0]] else []) + WithKey(s[1..], key, k)
  }

  /** Inserts `x` into a sorted list in front of the first element whose
      key is at least `x`'s, so `x` precedes every element with its key. */
  function Insert<T>(x: T, s: seq<T>, key: T -> real): (r: seq<T>)
    ensures multiset(r) == multiset(s) + multiset{x}
    ensures |r| == |s| + 1
  {
    if |s| == 0 || key(x) <= key(s[0]) then [x] + s
    else
      assert s == [s[0]] + s[1..];
      [s[0]] + Insert(x, s[1..], key)
  }

  function Sort<T>(s: seq<T>, key: T -> real): (r: seq<T>)
    ensures multiset(r) == multiset(s)
    ensures |r| == |s|
  {
    if |s| == 0 then []
    else
      assert s == [s[0]] + s[1..];
      Insert(s[0], Sort(s[1..], key), key)
  }

  lemma {:induction false} InsertSorted<T>(x: T, s: seq<T>, key: T -> real)
    requires SortedBy(s, key)
    ensures SortedBy(Insert(x, s, key), key)
    decreases |s|
  {
    if |s| > 0 && key(x) > key(s[0]) {
      InsertSorted(x, s[1..], key);
      var r := Insert(x, s[1..], key);
      assert forall i :: 0 <= i < |r| ==> key(s[0]) <= key(r[i]) by {
        forall i | 0 <= i < |r|
          ensures key(s[0]) <= key(r[i])
        {
          assert r[i] in multiset(r);
          assert r[i] == x || r[i] in multiset(s[1..]);
          if r[i] != x {
            var j :| 0 <= j < |s[1..]| && s[1..][j] == r[i];
            assert s[j + 1] == r[i];
          }
        }
      }
    }
  }

  lemma {:induction false} SortSorted<T>(s: seq<T>, key: T -> real)
    ensures SortedBy(Sort(s, key), key)
    decreases |s|
  {
    if |s| > 0 {
      SortSorted(s[1..], key);
      InsertSorted(s[0], Sort(s[1..], key), key);
    }
  }

  lemma {:induction false} WithKeyConcat<T>(a: seq<T>, b: seq<T>, key: T -> real, k: real)
    ensures WithKey(a + b, key, k) == WithKey(a, key, k) + WithKey(b, key, k)
    decreases |a|
  {
    if |a| > 0 {
      assert (a + b)[1..] == a[1..] + b;
      WithKeyConcat(a[1..], b, key, k);
    } else {
      assert a + b == b;
    }
  }

  /** Inserting `x` puts it in front of everything with the same key. */
  lemma {:induction false} InsertWithKey<T>(x: T, s: seq<T>, key: T -> real, k: real)
    ensures WithKey(Insert(x, s, key), key, k)
         == (if key(x) == k then [x] else []) + WithKey(s, key, k)
    decreases |s|
  {
    if |s| == 0 || key(x) <= key(s[0]) {
      assert ([x] + s)[1..] == s;
    } else {
      var r := Insert(x, s[1..], key);
      assert ([s[0]] + r)[1..] == r;
      InsertWithKey(x, s[1..], key, k);
      if key(s[0]) == k {
        assert key(x) != k;
      }
    }
  }

  /** Stability: for every key value, the elements carrying it appear in the
      output in the same order as in the input. */
  lemma {:induction false} SortStable<T>(s: seq<T>, key: T -> real, k: real)
    ensures WithKey(Sort(s, key), key, k) == WithKey(s, key, k)
    decreases |s|
  {
    if |s| > 0 {
      SortStable(s[1..], key, k);
      InsertWithKey(s[0], Sort(s[1..], key), key, k);
    }
  }

  /** Sorting an already sorted list returns it unchanged. */
  lemma {:induction false} SortOfSorted<T>(s: seq<T>, key: T -> real)
    requires SortedBy(s, key)
    ensures Sort(s, key) == s
    decreases |s|
  {
    if |s| > 0 {
      assert SortedBy(s[1..], key);
      SortOfSorted(s[1..], key);
    }
  }
}
