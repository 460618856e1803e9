/** Counting, first occurrences and duplicates in sequences: the
    vocabulary the tallies and the tag lists are specified in. */
module Seqs {

  /** How many times `x` occurs in `s`. */
  function Occurrences<T(==)>(s: seq<T>, x: T): (n: nat)
    ensures n <= |s|
    ensures n > 0 <==> x in s
  {
    if |s| == 0 then 0
    else Occurrences(s[..|s| - 1], x) + (if s[|s| - 1] == x then 1 else 0)
  }

  /** Extending a prefix by the next element. */
  lemma PrefixStep<T>(s: seq<T>, i: nat)
    requires i < |s|
    ensures s[..i + 1] == s[..i] + [s[i]]
  {
  }

  /** Extending `a + t[..j]` by the next element of `t`. */
  lemma AppendPrefixStep<T>(a: seq<T>, t: seq<T>, j: nat)
    requires j < |t|
    ensures a + t[..j + 1] == (a + t[..j]) + [t[j]]
  {
    PrefixStep(t, j);
  }

  lemma {:induction false} OccurrencesAppend<T>(a: seq<T>, b: seq<T>, x: T)
    ensures Occurrences(a + b, x) == Occurrences(a, x) + Occurrences(b, x)
    decreases |b|
  {
    if |b| == 0 {
      assert a + b == a;
    } else {
      assert (a + b)[..|a + b| - 1] == a + b[..|b| - 1];
      OccurrencesAppend(a, b[..|b| - 1], x);
    }
  }

  lemma OccurrencesMultiset<T>(s: seq<T>, x: T)
    ensures Occurrences(s, x) == multiset(s)[x]
  {
    if |s| > 0 {
      assert s == s[..|s| - 1] + [s[|s| - 1]];
      OccurrencesMultiset(s[..|s| - 1], x);
    }
  }

  ghost predicate NoDup<T>(s: seq<T>) {
    forall i, j :: 0 <= i < j < |s| ==> s[i] != s[j]
  }

  lemma {:induction false} NoDupOccurrences<T>(s: seq<T>, x: T)
    requires NoDup(s)
    ensures Occurrences(s, x) <= 1
  {
    if |s| > 0 {
      var p := s[..|s| - 1];
      assert NoDup(p);
      NoDupOccurrences(p, x);
    }
  }

  lemma {:induction false} DupOccurrences<T>(s: seq<T>, i: nat, j: nat)
    requires i < j < |s| && s[i] == s[j]
    ensures Occurrences(s, s[i]) >= 2
  {
    var a, b := s[..j], s[j..];
    assert s == a + b;
    OccurrencesAppend(a, b, s[i]);
    assert a[i] == s[i];
    assert b[0] == s[i];
  }

  /** A rearrangement of a sequence without duplicates has none either. */
  lemma NoDupAppend<T>(a: seq<T>, b: seq<T>)
    requires NoDup(a + b)
    ensures NoDup(a) && NoDup(b)
  {
    forall i, j | 0 <= i < j < |a| ensures a[i] != a[j] {
      assert (a + b)[i] == a[i] && (a + b)[j] == a[j];
    }
    forall i, j | 0 <= i < j < |b| ensures b[i] != b[j] {
      assert (a + b)[|a| + i] == b[i] && (a + b)[|a| + j] == b[j];
    }
  }

  lemma NoDupSnoc<T>(s: seq<T>, x: T)
    requires NoDup(s) && x !in s
    ensures NoDup(s + [x])
  {
    var r := s + [x];
    forall i, j | 0 <= i < j < |r| ensures r[i] != r[j] {
      if j == |s| {
        assert r[i] == s[i];
      }
    }
  }

  lemma NoDupPermutation<T>(a: seq<T>, b: seq<T>)
    requires NoDup(a) && multiset(a) == multiset(b)
    ensures NoDup(b)
  {
    forall i, j | 0 <= i < j < |b| ensures b[i] != b[j] {
      if b[i] == b[j] {
        DupOccurrences(b, i, j);
        OccurrencesMultiset(b, b[i]);
        OccurrencesMultiset(a, b[i]);
        NoDupOccurrences(a, b[i]);
      }
    }
  }

  /** Every element of a permutation is found somewhere in the original. */
  lemma PermutationIndex<T>(a: seq<T>, b: seq<T>, i: nat) returns (k: nat)
    requires multiset(a) == multiset(b) && i < |b|
    ensures k < |a| && a[k] == b[i]
  {
    assert b[i] in multiset(b);
    assert b[i] in multiset(a);
    k :| 0 <= k < |a| && a[k] == b[i];
  }

  /** The position of the first occurrence of `x` in `s`. */
  function FirstIndex<T(==)>(s: seq<T>, x: T): (i: nat)
    requires x in s
    ensures i < |s| && s[i] == x
    ensures forall k :: 0 <= k < i ==> s[k] != x
  {
    var p := s[..|s| - 1];
    if x in p then FirstIndex(p, x) else |s| - 1
  }

  /** The distinct elements of `s` in the order they first occur: the
      creation order of the keys of an object filled from `s`. */
  function FirstSeen<T(==,!new)>(s: seq<T>): (r: seq<T>)
    ensures NoDup(r)
    ensures forall x :: x in r <==> x in s
  {
    if |s| == 0 then []
    else
      var p := FirstSeen(s[..|s| - 1]);
      var last := s[|s| - 1];
      assert forall x :: x in s <==> x in s[..|s| - 1] || x == last by {
        assert s == s[..|s| - 1] + [last];
      }
      if last in p then p else p + [last]
  }

  /** Elements come out of `FirstSeen` in the order of their first occurrences. */
  lemma {:induction false} FirstSeenOrder<T(!new)>(s: seq<T>, i: nat, j: nat)
    requires i < j < |FirstSeen(s)|
    ensures FirstIndex(s, FirstSeen(s)[i]) < FirstIndex(s, FirstSeen(s)[j])
  {
    var p := s[..|s| - 1];
    var r := FirstSeen(s);
    var q := FirstSeen(p);
    assert forall k :: 0 <= k < |q| ==> r[k] == q[k];
    if j < |q| {
      FirstSeenOrder(p, i, j);
      assert r[i] in p && r[j] in p by { assert q[i] in q && q[j] in q; }
    } else {
      assert r[j] == s[|s| - 1] && r[j] !in p;
      assert r[i] in p by { assert q[i] in q; }
    }
  }

  /** Adding up `f` over `s`. */
  function SumBy<T>(s: seq<T>, f: T -> int): int {
    if |s| == 0 then 0 else f(s[0]) + SumBy(s[1..], f)
  }

  lemma {:induction false} SumByAppend<T>(a: seq<T>, b: seq<T>, f: T -> int)
    ensures SumBy(a + b, f) == SumBy(a, f) + SumBy(b, f)
  {
    if |a| == 0 {
      assert a + b == b;
    } else {
      assert (a + b)[1..] == a[1..] + b;
      SumByAppend(a[1..], b, f);
    }
  }

  /** A sum does not depend on the order of its terms. */
  lemma {:induction false} SumByPermutation<T>(a: seq<T>, b: seq<T>, f: T -> int)
    requires multiset(a) == multiset(b)
    ensures SumBy(a, f) == SumBy(b, f)
  {
    if |a| == 0 {
      assert |b| == |multiset(b)| == 0;
    } else {
      var x := a[0];
      assert x in multiset(b) by { assert x in multiset(a); }
      var i :| 0 <= i < |b| && b[i] == x;
      var rest := b[..i] + b[i + 1..];
      assert b == b[..i] + [x] + b[i + 1..];
      assert a == [x] + a[1..];
      assert multiset(a[1..]) == multiset(rest) by {
        calc {
          multiset(b);
          multiset(b[..i] + [x] + b[i + 1..]);
          multiset(b[..i] + [x]) + multiset(b[i + 1..]);
          multiset(b[..i]) + multiset{x} + multiset(b[i + 1..]);
        }
        assert multiset(a) == multiset{x} + multiset(a[1..]);
        assert multiset(rest) == multiset(b[..i]) + multiset(b[i + 1..]);
        assert multiset(a[1..]) == multiset(a) - multiset{x};
        assert multiset(rest) == multiset(b) - multiset{x};
      }
      SumByPermutation(a[1..], rest, f);
      SumByAppend(b[..i] + [x], b[i + 1..], f);
      SumByAppend(b[..i], [x], f);
      SumByAppend(b[..i], b[i + 1..], f);
    }
  }

  /** `s` keeps the elements of `t` it has, in `t`'s order. */
  predicate IsSubsequence<T(==)>(s: seq<T>, t: seq<T>) {
    if |s| == 0 then true
    else if |t| == 0 then false
    else if s[0] == t[0] then IsSubsequence(s[1..], t[1..])
    else IsSubsequence(s, t[1..])
  }

  lemma {:induction false} SubsequenceCons<T>(s: seq<T>, t: seq<T>, x: T)
    requires IsSubsequence(s, t)
    ensures IsSubsequence(s, [x] + t)
  {
    if |s| > 0 {
      assert ([x] + t)[1..] == t;
      if s[0] == x {
        SubsequenceSkip(s, t);
      }
    }
  }

  /** Dropping the head of `s` keeps it a subsequence. */
  lemma {:induction false} SubsequenceSkip<T>(s: seq<T>, t: seq<T>)
    requires |s| > 0 && IsSubsequence(s, t)
    ensures IsSubsequence(s[1..], t)
  {
    if |t| > 0 {
      if s[0] == t[0] {
        if |s| > 1 {
          SubsequenceSkip(s[1..], t[1..]);
          assert s[1..][1..] == s[2..];
          SubsequenceTailStep(s[1..], t);
        }
      } else {
        SubsequenceSkip(s, t[1..]);
        SubsequenceTailStep(s[1..], t);
      }
    }
  }

  lemma {:induction false} SubsequenceTailStep<T>(s: seq<T>, t: seq<T>)
    requires |t| > 0
    requires IsSubsequence(s, t[1..]) || (|s| > 0 && s[0] == t[0] && IsSubsequence(s[1..], t[1..]))
    ensures IsSubsequence(s, t)
  {
    if |s| > 0 && s[0] == t[0] && !IsSubsequence(s[1..], t[1..]) {
      SubsequenceSkip(s, t[1..]);
    }
  }

  /** `s.filter(keep)`. */
  function Filter<T>(s: seq<T>, keep: T -> bool): (r: seq<T>)
    ensures |r| <= |s|
    ensures forall k :: 0 <= k < |r| ==> keep(r[k])
  {
    if |s| == 0 then []
    else (if keep(s[0]) then [s[0]] else []) + Filter(s[1..], keep)
  }

  /** A kept value occurs as often as before; a dropped one not at all. */
  lemma {:induction false} FilterOccurrences<T>(s: seq<T>, keep: T -> bool, x: T)
    ensures Occurrences(Filter(s, keep), x) == if keep(x) then Occurrences(s, x) else 0
  {
    if |s| > 0 {
      var rest := s[1..];
      FilterOccurrences(rest, keep, x);
      var head: seq<T> := if keep(s[0]) then [s[0]] else [];
      assert Filter(s, keep) == head + Filter(rest, keep);
      OccurrencesAppend(head, Filter(rest, keep), x);
      assert s == [s[0]] + rest;
      OccurrencesAppend([s[0]], rest, x);
      assert Occurrences(head, x) == if keep(x) then Occurrences([s[0]], x) else 0;
    }
  }

  /** The kept values stay in their order. */
  lemma {:induction false} FilterInOrder<T>(s: seq<T>, keep: T -> bool)
    ensures IsSubsequence(Filter(s, keep), s)
  {
    if |s| > 0 {
      FilterInOrder(s[1..], keep);
      if keep(s[0]) {
        assert Filter(s, keep)[1..] == Filter(s[1..], keep);
      } else {
        assert Filter(s, keep) == Filter(s[1..], keep);
        assert s == [s[0]] + s[1..];
        SubsequenceCons(Filter(s[1..], keep), s[1..], s[0]);
      }
    }
  }
}
