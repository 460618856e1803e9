/** `Array.prototype.sort(cmp)`, which the standard requires to be stable.
    The model is an insertion sort driven by the caller's own comparator:
    an element that came earlier is placed before every element it does
    not compare greater than. When the comparator is `key(a) - key(b)`
    the result is sorted by `key`, keeps the input order among equal keys,
    and is the only sequence with both properties, so it is exactly what a
    conforming engine returns. */
module StableSort {

  function Insert<T>(x: T, s: seq<T>, cmp: (T, T) -> int): (r: seq<T>)
    ensures |r| == |s| + 1
    ensures multiset(r) == multiset(s) + multiset{x}
  {
    if |s| == 0 then [x]
    else if cmp(x, s[0]) <= 0 then [x] + s
    else
      assert s == [s[0]] + s[1..];
      [s[0]] + Insert(x, s[1..], cmp)
  }

  /** The sorted copy `[...s].sort(cmp)`; it is always a permutation of `s`. */
  function Sort<T>(s: seq<T>, cmp: (T, T) -> int): (r: seq<T>)
    ensures |r| == |s|
    ensures multiset(r) == multiset(s)
  {
    if |s| == 0 then []
    else
      assert s == [s[0]] + s[1..];
      Insert(s[0], Sort(s[1..], cmp), cmp)
  }

  /** On the elements of `s`, the comparator is the difference of keys. */
  ghost predicate ComparesByKey<T>(s: seq<T>, cmp: (T, T) -> int, key: T -> int) {
    forall a, b :: a in s && b in s ==> cmp(a, b) == key(a) - key(b)
  }

  ghost predicate SortedBy<T>(s: seq<T>, key: T -> int) {
    forall i, j :: 0 <= i < j < |s| ==> key(s[i]) <= key(s[j])
  }

  /** The elements of `s` whose key is `t`, in their order in `s`. */
  function WithKey<T>(s: seq<T>, key: T -> int, t: int): seq<T> {
    if |s| == 0 then []
    else (if key(s[0]) == t then [s[0]] else []) + WithKey(s[1..], key, t)
  }

  lemma WithKeyCons<T>(x: T, s: seq<T>, key: T -> int, t: int)
    ensures WithKey([x] + s, key, t) == (if key(x) == t then [x] else []) + WithKey(s, key, t)
  {
    assert ([x] + s)[0] == x;
    assert ([x] + s)[1..] == s;
  }

  lemma {:induction false} WithKeyAppend<T>(a: seq<T>, b: seq<T>, key: T -> int, t: int)
    ensures WithKey(a + b, key, t) == WithKey(a, key, t) + WithKey(b, key, t)
  {
    if |a| == 0 {
      assert a + b == b;
    } else {
      assert a + b == [a[0]] + (a[1..] + b);
      WithKeyCons(a[0], a[1..] + b, key, t);
      WithKeyAppend(a[1..], b, key, t);
      var head := if key(a[0]) == t then [a[0]] else [];
      assert head + (WithKey(a[1..], key, t) + WithKey(b, key, t))
          == (head + WithKey(a[1..], key, t)) + WithKey(b, key, t);
    }
  }

  lemma {:induction false} InMultiset<T>(x: T, s: seq<T>, r: seq<T>)
    requires multiset(r) == multiset(s)
    ensures x in r <==> x in s
  {
    assert x in r <==> x in multiset(r);
    assert x in s <==> x in multiset(s);
  }

  lemma {:induction false} ComparesByKeyTail<T>(s: seq<T>, cmp: (T, T) -> int, key: T -> int)
    requires |s| > 0 && ComparesByKey(s, cmp, key)
    ensures ComparesByKey(s[1..], cmp, key)
  {
    forall a, b | a in s[1..] && b in s[1..] ensures cmp(a, b) == key(a) - key(b) {
      assert a in s && b in s;
    }
  }

  lemma {:induction false} InsertElements<T>(x: T, s: seq<T>, cmp: (T, T) -> int, y: T)
    ensures y in Insert(x, s, cmp) <==> y == x || y in s
  {
    InMultiset(y, s + [x], Insert(x, s, cmp));
  }

  lemma {:induction false} InsertSorted<T>(x: T, s: seq<T>, cmp: (T, T) -> int, key: T -> int)
    requires SortedBy(s, key)
    requires ComparesByKey([x] + s, cmp, key)
    ensures SortedBy(Insert(x, s, cmp), key)
  {
    if |s| > 0 {
      assert s[0] in [x] + s;
      if cmp(x, s[0]) <= 0 {
        var r := [x] + s;
        forall i, j | 0 <= i < j < |r| ensures key(r[i]) <= key(r[j]) {
          assert r[j] == s[j - 1];
          if i > 0 { assert r[i] == s[i - 1]; }
        }
      } else {
        var tail := s[1..];
        assert ComparesByKey([x] + tail, cmp, key) by {
          forall a, b | a in [x] + tail && b in [x] + tail ensures cmp(a, b) == key(a) - key(b) {
            assert a in [x] + s && b in [x] + s;
          }
        }
        SortedTail(s, key);
        InsertSorted(x, tail, cmp, key);
        var ins := Insert(x, tail, cmp);
        forall y | y in ins ensures key(s[0]) <= key(y) {
          InsertElements(x, tail, cmp, y);
          if y != x {
            var k :| 0 <= k < |tail| && tail[k] == y;
            assert tail[k] == s[k + 1];
          }
        }
        var r := [s[0]] + ins;
        forall i, j | 0 <= i < j < |r| ensures key(r[i]) <= key(r[j]) {
          assert r[j] == ins[j - 1];
          if i > 0 { assert r[i] == ins[i - 1]; }
        }
      }
    }
  }

  lemma ComparesByKeySkip<T>(x: T, s: seq<T>, cmp: (T, T) -> int, key: T -> int)
    requires |s| > 0 && ComparesByKey([x] + s, cmp, key)
    ensures ComparesByKey([x] + s[1..], cmp, key)
    ensures cmp(x, s[0]) == key(x) - key(s[0])
  {
    assert x in [x] + s && s[0] in [x] + s;
    forall a, b | a in [x] + s[1..] && b in [x] + s[1..] ensures cmp(a, b) == key(a) - key(b) {
      assert a in [x] + s && b in [x] + s;
    }
  }

  lemma {:induction false} InsertWithKey<T>(x: T, s: seq<T>, cmp: (T, T) -> int, key: T -> int, t: int)
    requires ComparesByKey([x] + s, cmp, key)
    ensures WithKey(Insert(x, s, cmp), key, t)
            == (if key(x) == t then [x] else []) + WithKey(s, key, t)
  {
    if |s| == 0 || cmp(x, s[0]) <= 0 {
      WithKeyCons(x, s, key, t);
    } else {
      ComparesByKeySkip(x, s, cmp, key);
      InsertWithKey(x, s[1..], cmp, key, t);
      InsertWithKeyStep(x, s, cmp, key, t);
    }
  }

  /** Inserting past a smaller key `s[0]`: at most one of `x` and `s[0]`
      has key `t`, so their order does not show in `WithKey`. */
  lemma InsertWithKeyStep<T>(x: T, s: seq<T>, cmp: (T, T) -> int, key: T -> int, t: int)
    requires |s| > 0 && cmp(x, s[0]) > 0 && key(x) != key(s[0])
    requires WithKey(Insert(x, s[1..], cmp), key, t)
             == (if key(x) == t then [x] else []) + WithKey(s[1..], key, t)
    ensures WithKey(Insert(x, s, cmp), key, t)
            == (if key(x) == t then [x] else []) + WithKey(s, key, t)
  {
    var tail := s[1..];
    assert Insert(x, s, cmp) == [s[0]] + Insert(x, tail, cmp);
    WithKeyCons(s[0], Insert(x, tail, cmp), key, t);
    assert s == [s[0]] + tail;
    WithKeyCons(s[0], tail, key, t);
    var rest := WithKey(tail, key, t);
    var inserted := WithKey(Insert(x, tail, cmp), key, t);
    if key(x) == t {
      assert inserted == [x] + rest;
      assert WithKey(s, key, t) == rest;
      assert WithKey(Insert(x, s, cmp), key, t) == inserted;
    } else {
      assert inserted == [] + rest;
      assert [] + rest == rest;
      var h0: seq<T> := if key(s[0]) == t then [s[0]] else [];
      assert WithKey(s, key, t) == h0 + rest;
      assert WithKey(Insert(x, s, cmp), key, t) == h0 + rest;
      assert [] + (h0 + rest) == h0 + rest;
    }
  }

  /** Under a key comparator the result is sorted by the key. */
  lemma {:induction false} SortSorted<T>(s: seq<T>, cmp: (T, T) -> int, key: T -> int)
    requires ComparesByKey(s, cmp, key)
    ensures SortedBy(Sort(s, cmp), key)
  {
    if |s| > 0 {
      ComparesByKeyTail(s, cmp, key);
      SortSorted(s[1..], cmp, key);
      var r := Sort(s[1..], cmp);
      assert ComparesByKey([s[0]] + r, cmp, key) by {
        forall a, b | a in [s[0]] + r && b in [s[0]] + r ensures cmp(a, b) == key(a) - key(b) {
          InMultiset(a, s[1..], r);
          InMultiset(b, s[1..], r);
          assert a in s && b in s;
        }
      }
      InsertSorted(s[0], r, cmp, key);
    }
  }

  /** Under a key comparator, elements with equal keys keep their input order. */
  lemma {:induction false} SortStable<T>(s: seq<T>, cmp: (T, T) -> int, key: T -> int, t: int)
    requires ComparesByKey(s, cmp, key)
    ensures WithKey(Sort(s, cmp), key, t) == WithKey(s, key, t)
  {
    if |s| > 0 {
      ComparesByKeyTail(s, cmp, key);
      SortStable(s[1..], cmp, key, t);
      var r := Sort(s[1..], cmp);
      assert ComparesByKey([s[0]] + r, cmp, key) by {
        forall a, b | a in [s[0]] + r && b in [s[0]] + r ensures cmp(a, b) == key(a) - key(b) {
          InMultiset(a, s[1..], r);
          InMultiset(b, s[1..], r);
          assert a in s && b in s;
        }
      }
      InsertWithKey(s[0], r, cmp, key, t);
    }
  }

  lemma WithKeyHead<T>(s: seq<T>, key: T -> int)
    requires |s| > 0
    ensures WithKey(s, key, key(s[0])) != []
  {
  }

  lemma {:induction false} WithKeyEmpty<T>(s: seq<T>, key: T -> int)
    requires forall t :: WithKey(s, key, t) == []
    ensures s == []
  {
    if |s| > 0 {
      WithKeyHead(s, key);
    }
  }

  lemma {:induction false} WithKeyOfSortedHead<T>(s: seq<T>, key: T -> int, t: int)
    requires |s| > 0 && SortedBy(s, key) && t < key(s[0])
    ensures WithKey(s, key, t) == []
  {
    if |s| > 1 {
      assert SortedBy(s[1..], key) by {
        forall i, j | 0 <= i < j < |s[1..]| ensures key(s[1..][i]) <= key(s[1..][j]) {
          assert s[1..][i] == s[i + 1] && s[1..][j] == s[j + 1];
        }
      }
      assert key(s[0]) <= key(s[1]);
      WithKeyOfSortedHead(s[1..], key, t);
    }
  }

  /** Two sequences sorted by `key` that agree on the order within every
      key are equal: a stable sort has exactly one possible result. */
  lemma {:induction false} StableSortUnique<T>(a: seq<T>, b: seq<T>, key: T -> int)
    requires SortedBy(a, key) && SortedBy(b, key)
    requires forall t :: WithKey(a, key, t) == WithKey(b, key, t)
    ensures a == b
    decreases |a|
  {
    if |a| == 0 {
      WithKeyEmpty(b, key);
    } else if |b| == 0 {
      WithKeyEmpty(a, key);
    } else {
      var ka, kb := key(a[0]), key(b[0]);
      if ka < kb {
        WithKeyOfSortedHead(b, key, ka);
        WithKeyHead(a, key);
      } else if kb < ka {
        WithKeyOfSortedHead(a, key, kb);
        WithKeyHead(b, key);
      } else {
        assert a[0] == WithKey(a, key, ka)[0] == WithKey(b, key, ka)[0] == b[0];
        SortedTail(a, key);
        SortedTail(b, key);
        forall t ensures WithKey(a[1..], key, t) == WithKey(b[1..], key, t) {
          WithKeyTailsAgree(a, b, key, t);
        }
        StableSortUnique(a[1..], b[1..], key);
        assert a == [a[0]] + a[1..] && b == [b[0]] + b[1..];
      }
    }
  }

  lemma WithKeyTailsAgree<T>(a: seq<T>, b: seq<T>, key: T -> int, t: int)
    requires |a| > 0 && |b| > 0 && a[0] == b[0]
    requires WithKey(a, key, t) == WithKey(b, key, t)
    ensures WithKey(a[1..], key, t) == WithKey(b[1..], key, t)
  {
    var rest, other := WithKey(a[1..], key, t), WithKey(b[1..], key, t);
    var head: seq<T> := if key(a[0]) == t then [a[0]] else [];
    assert WithKey(a, key, t) == head + rest;
    assert WithKey(b, key, t) == head + other;
    assert (head + rest)[|head|..] == rest;
    assert (head + other)[|head|..] == other;
  }

  lemma SortedTail<T>(s: seq<T>, key: T -> int)
    requires |s| > 0 && SortedBy(s, key)
    ensures SortedBy(s[1..], key)
  {
    forall i, j | 0 <= i < j < |s[1..]| ensures key(s[1..][i]) <= key(s[1..][j]) {
      assert s[1..][i] == s[i + 1] && s[1..][j] == s[j + 1];
    }
  }

  /** `Sort` is the stable sort: any sorted rearrangement that keeps the
      order within each key is `Sort`'s result. */
  lemma SortIsTheStableSort<T>(s: seq<T>, r: seq<T>, cmp: (T, T) -> int, key: T -> int)
    requires ComparesByKey(s, cmp, key)
    requires SortedBy(r, key)
    requires forall t :: WithKey(r, key, t) == WithKey(s, key, t)
    ensures r == Sort(s, cmp)
  {
    SortSorted(s, cmp, key);
    forall t ensures WithKey(r, key, t) == WithKey(Sort(s, cmp), key, t) {
      SortStable(s, cmp, key, t);
    }
    StableSortUnique(r, Sort(s, cmp), key);
  }
}
