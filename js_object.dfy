/** A plain JavaScript object used as a dictionary of counters
    (`const counts = {}; counts[k] = (counts[k] || 0) + 1`) and the order
    in which `Object.entries` lists it. Section 10.1.11.1
    (OrdinaryOwnPropertyKeys) of ECMA-262 lists the keys that are array
    indices first, in ascending numeric order, and then the other string
    keys in the order they were created. */
module JsObject {
  import opened JsText
  import opened Seqs
  import StableSort

  /** Keys "0" to "4294967294" are array indices. */
  const ArrayIndexLimit: nat := 4294967295

  /** An array index is the canonical decimal text of an integer below 2^32 - 1. */
  predicate IsArrayIndex(k: string) {
    k == NatToString(ParseNat(k)) && ParseNat(k) < ArrayIndexLimit
  }

  lemma NatKeyIsArrayIndex(n: nat)
    ensures IsArrayIndex(NatToString(n)) <==> n < ArrayIndexLimit
  {
    ParseNatToString(n);
  }

  lemma ArrayIndexInjective(a: string, b: string)
    requires IsArrayIndex(a) && IsArrayIndex(b) && ParseNat(a) == ParseNat(b)
    ensures a == b
  {
  }

  /** The keys that are array indices, in creation order. */
  function IndexKeys(keys: seq<string>): (r: seq<string>)
    ensures forall k :: k in r <==> k in keys && IsArrayIndex(k)
  {
    if |keys| == 0 then []
    else (if IsArrayIndex(keys[0]) then [keys[0]] else []) + IndexKeys(keys[1..])
  }

  /** The other keys, in creation order. */
  function NamedKeys(keys: seq<string>): (r: seq<string>)
    ensures forall k :: k in r <==> k in keys && !IsArrayIndex(k)
  {
    if |keys| == 0 then []
    else (if IsArrayIndex(keys[0]) then [] else [keys[0]]) + NamedKeys(keys[1..])
  }

  lemma {:induction false} SplitKeysMultiset(keys: seq<string>)
    ensures multiset(IndexKeys(keys)) + multiset(NamedKeys(keys)) == multiset(keys)
  {
    if |keys| > 0 {
      SplitKeysMultiset(keys[1..]);
      assert keys == [keys[0]] + keys[1..];
    }
  }

  lemma {:induction false} NoIndexKeys(keys: seq<string>)
    requires forall k :: k in keys ==> !IsArrayIndex(k)
    ensures IndexKeys(keys) == [] && NamedKeys(keys) == keys
  {
    if |keys| > 0 {
      assert keys[0] in keys;
      assert forall k :: k in keys[1..] ==> k in keys;
      NoIndexKeys(keys[1..]);
      assert keys == [keys[0]] + keys[1..];
    }
  }

  lemma {:induction false} AllIndexKeys(keys: seq<string>)
    requires forall k :: k in keys ==> IsArrayIndex(k)
    ensures IndexKeys(keys) == keys && NamedKeys(keys) == []
  {
    if |keys| > 0 {
      assert keys[0] in keys;
      assert forall k :: k in keys[1..] ==> k in keys;
      AllIndexKeys(keys[1..]);
      assert keys == [keys[0]] + keys[1..];
    }
  }

  /** The comparator that orders array-index keys by their numeric value. */
  function ByIndexValue(a: string, b: string): int {
    ParseNat(a) - ParseNat(b)
  }

  function IndexValue(k: string): int {
    ParseNat(k)
  }

  /** The order `Object.entries` lists an object's own keys, given the
      order the keys were created in. */
  function KeyOrder(keys: seq<string>): (r: seq<string>)
    ensures multiset(r) == multiset(keys)
    ensures |r| == |keys|
  {
    SplitKeysMultiset(keys);
    var r := StableSort.Sort(IndexKeys(keys), ByIndexValue) + NamedKeys(keys);
    assert |r| == |multiset(r)| == |multiset(keys)| == |keys|;
    r
  }

  lemma KeyOrderMembers(keys: seq<string>)
    ensures forall k :: k in KeyOrder(keys) <==> k in keys
  {
    forall k ensures k in KeyOrder(keys) <==> k in keys {
      assert k in KeyOrder(keys) <==> k in multiset(KeyOrder(keys));
      assert k in keys <==> k in multiset(keys);
    }
  }

  lemma {:induction false} KeyOrderNoDup(keys: seq<string>)
    requires NoDup(keys)
    ensures NoDup(KeyOrder(keys))
  {
    NoDupPermutation(keys, KeyOrder(keys));
  }

  /** Distinct array-index keys in non-decreasing numeric order are in
      strictly ascending order. */
  lemma StrictlyAscending(ks: seq<string>)
    requires forall i :: 0 <= i < |ks| ==> IsArrayIndex(ks[i])
    requires StableSort.SortedBy(ks, IndexValue) && NoDup(ks)
    ensures forall i, j :: 0 <= i < j < |ks| ==> ParseNat(ks[i]) < ParseNat(ks[j])
  {
    forall i, j | 0 <= i < j < |ks| ensures ParseNat(ks[i]) < ParseNat(ks[j]) {
      assert IndexValue(ks[i]) <= IndexValue(ks[j]);
    }
  }

  /** The sorted array-index keys are strictly ascending by numeric value. */
  lemma {:induction false} SortedIndexKeys(keys: seq<string>)
    requires NoDup(keys)
    ensures forall i :: 0 <= i < |IndexKeys(keys)| ==>
              IsArrayIndex(StableSort.Sort(IndexKeys(keys), ByIndexValue)[i])
    ensures forall i, j :: 0 <= i < j < |IndexKeys(keys)| ==>
              ParseNat(StableSort.Sort(IndexKeys(keys), ByIndexValue)[i])
              < ParseNat(StableSort.Sort(IndexKeys(keys), ByIndexValue)[j])
  {
    var idx := IndexKeys(keys);
    var sorted := StableSort.Sort(idx, ByIndexValue);
    assert StableSort.ComparesByKey(idx, ByIndexValue, IndexValue);
    StableSort.SortSorted(idx, ByIndexValue, IndexValue);
    KeyOrderNoDup(keys);
    NoDupAppend(sorted, NamedKeys(keys));
    forall i | 0 <= i < |sorted| ensures IsArrayIndex(sorted[i]) {
      assert sorted[i] in multiset(idx);
      assert sorted[i] in idx;
    }
    StrictlyAscending(sorted);
  }

  /** Array-index keys come first, in strictly ascending numeric order;
      the remaining keys follow in creation order. */
  lemma {:induction false} KeyOrderShape(keys: seq<string>)
    requires NoDup(keys)
    ensures var r, n := KeyOrder(keys), |IndexKeys(keys)|;
            && n <= |r|
            && (forall i :: 0 <= i < n ==> IsArrayIndex(r[i]))
            && (forall i, j :: 0 <= i < j < n ==> ParseNat(r[i]) < ParseNat(r[j]))
            && r[n..] == NamedKeys(keys)
  {
    var sorted := StableSort.Sort(IndexKeys(keys), ByIndexValue);
    SortedIndexKeys(keys);
    var r := KeyOrder(keys);
    assert r == sorted + NamedKeys(keys);
    assert |sorted| == |IndexKeys(keys)|;
    forall i | 0 <= i < |sorted| ensures IsArrayIndex(r[i]) {
      assert r[i] == sorted[i];
    }
    assert r[|sorted|..] == NamedKeys(keys);
  }

  /** Without array-index keys the order is creation order. */
  lemma KeyOrderWithoutIndices(keys: seq<string>)
    requires forall k :: k in keys ==> !IsArrayIndex(k)
    ensures KeyOrder(keys) == keys
  {
    NoIndexKeys(keys);
  }

  // ---------------------------------------------------------------
  // The counter object
  // ---------------------------------------------------------------

  /** The same keys, each paired with its value in `counts`. */
  function EntriesOf(order: seq<string>, counts: map<string, nat>): (r: seq<(string, nat)>)
    requires forall k :: k in order ==> k in counts
    ensures |r| == |order|
    ensures forall i :: 0 <= i < |r| ==> r[i] == (order[i], counts[order[i]])
  {
    if |order| == 0 then []
    else [(order[0], counts[order[0]])] + EntriesOf(order[1..], counts)
  }

  /** An object literal `{}` used only through `o[k] = (o[k] || 0) + 1`
      and `Object.entries(o)`; `keys` is the order its properties were created. */
  class Counter {
    var counts: map<string, nat>
    var keys: seq<string>

    ghost predicate Valid()
      reads this
    {
      NoDup(keys) && (forall k :: k in counts <==> k in keys)
    }

    constructor ()
      ensures Valid() && counts == map[] && keys == []
    {
      counts := map[];
      keys := [];
    }

    /** `o[k] = (o[k] || 0) + 1`: a missing key starts at 0 and is created last. */
    method Increment(k: string)
      requires Valid()
      modifies this
      ensures Valid()
      ensures counts == old(counts)[k := (if k in old(counts) then old(counts)[k] else 0) + 1]
      ensures keys == if k in old(keys) then old(keys) else old(keys) + [k]
    {
      if k in counts {
        counts := counts[k := counts[k] + 1];
      } else {
        counts := counts[k := 1];
        keys := keys + [k];
      }
    }

    /** `Object.entries(o)`. */
    function Entries(): (r: seq<(string, nat)>)
      reads this
      requires Valid()
      ensures |r| == |keys|
      ensures forall i :: 0 <= i < |r| ==> r[i].0 in counts && r[i].1 == counts[r[i].0]
    {
      KeyOrderMembers(keys);
      EntriesOf(KeyOrder(keys), counts)
    }
  }

  // ---------------------------------------------------------------
  // The tally a counter produces
  // ---------------------------------------------------------------

  function Names(entries: seq<(string, nat)>): (r: seq<string>)
    ensures |r| == |entries|
    ensures forall i :: 0 <= i < |r| ==> r[i] == entries[i].0
  {
    if |entries| == 0 then [] else [entries[0].0] + Names(entries[1..])
  }

  /** What `Object.entries` gives after every element of `s` has been
      counted into a fresh object: each distinct element once, with the
      number of times it occurs, listed in object key order. */
  function Tally(s: seq<string>): (r: seq<(string, nat)>)
    ensures NoDup(Names(r))
    ensures forall k :: k in Names(r) <==> k in s
    ensures forall i :: 0 <= i < |r| ==> r[i].1 == Occurrences(s, r[i].0) && r[i].1 >= 1
  {
    var order := KeyOrder(FirstSeen(s));
    KeyOrderKeys(s);
    KeyOrderNoDup(FirstSeen(s));
    WithOccurrences(order, s)
  }

  lemma KeyOrderKeys(s: seq<string>)
    ensures forall k :: k in KeyOrder(FirstSeen(s)) <==> k in s
  {
    var order := KeyOrder(FirstSeen(s));
    forall k ensures k in order <==> k in s {
      assert k in order <==> k in multiset(order);
      assert k in FirstSeen(s) <==> k in multiset(FirstSeen(s));
    }
  }

  /** Each key paired with the number of times it occurs in `s`. */
  function WithOccurrences(order: seq<string>, s: seq<string>): (r: seq<(string, nat)>)
    ensures Names(r) == order
    ensures forall i :: 0 <= i < |r| ==> r[i].1 == Occurrences(s, r[i].0)
  {
    if |order| == 0 then []
    else
      var r := [(order[0], Occurrences(s, order[0]))] + WithOccurrences(order[1..], s);
      assert Names(r) == [order[0]] + Names(r[1..]);
      r
  }

  /** Keys that exist and that do not look like array indices come out
      in the order of their first occurrence in `s`. */
  lemma TallyFirstSeenOrder(s: seq<string>)
    requires forall k :: k in s ==> !IsArrayIndex(k)
    ensures Names(Tally(s)) == FirstSeen(s)
  {
    KeyOrderWithoutIndices(FirstSeen(s));
    assert Names(Tally(s)) == KeyOrder(FirstSeen(s));
  }

  /** Array-index keys come first in ascending numeric order, then the
      other keys in the order of their first occurrence in `s`. */
  lemma TallyOrder(s: seq<string>)
    ensures var names, n := Names(Tally(s)), |IndexKeys(FirstSeen(s))|;
            && n <= |names|
            && (forall i :: 0 <= i < n ==> IsArrayIndex(names[i]))
            && (forall i, j :: 0 <= i < j < n ==> ParseNat(names[i]) < ParseNat(names[j]))
            && names[n..] == NamedKeys(FirstSeen(s))
  {
    KeyOrderShape(FirstSeen(s));
    assert Names(Tally(s)) == KeyOrder(FirstSeen(s));
  }

  /** One entry per distinct element. */
  lemma TallyLength(s: seq<string>)
    ensures |Tally(s)| == |FirstSeen(s)|
  {
    assert Names(Tally(s)) == KeyOrder(FirstSeen(s));
    assert |KeyOrder(FirstSeen(s))| == |multiset(KeyOrder(FirstSeen(s)))|;
  }

  /** When every key is an array index, the whole tally is in strictly
      ascending numeric key order. */
  lemma TallyAllIndices(s: seq<string>)
    requires forall k :: k in s ==> IsArrayIndex(k)
    ensures forall i, j :: 0 <= i < j < |Tally(s)| ==> ParseNat(Tally(s)[i].0) < ParseNat(Tally(s)[j].0)
  {
    AllIndexKeys(FirstSeen(s));
    TallyOrder(s);
    var names := Names(Tally(s));
    assert names[|FirstSeen(s)|..] == [];
    forall i, j | 0 <= i < j < |Tally(s)| ensures ParseNat(Tally(s)[i].0) < ParseNat(Tally(s)[j].0) {
      assert names[i] == Tally(s)[i].0 && names[j] == Tally(s)[j].0;
    }
  }

  function SumCounts(entries: seq<(string, nat)>): nat {
    if |entries| == 0 then 0 else entries[0].1 + SumCounts(entries[1..])
  }

  function SumOccurrences(keys: seq<string>, s: seq<string>): nat {
    if |keys| == 0 then 0 else Occurrences(s, keys[0]) + SumOccurrences(keys[1..], s)
  }

  lemma {:induction false} SumOccurrencesAppend(a: seq<string>, b: seq<string>, s: seq<string>)
    ensures SumOccurrences(a + b, s) == SumOccurrences(a, s) + SumOccurrences(b, s)
  {
    if |a| == 0 {
      assert a + b == b;
    } else {
      assert (a + b)[1..] == a[1..] + b;
      SumOccurrencesAppend(a[1..], b, s);
    }
  }

  lemma {:induction false} SumOccurrencesIsSumBy(keys: seq<string>, s: seq<string>, f: string -> int)
    requires forall k :: f(k) == Occurrences(s, k)
    ensures SumOccurrences(keys, s) == SumBy(keys, f)
  {
    if |keys| > 0 {
      SumOccurrencesIsSumBy(keys[1..], s, f);
    }
  }

  /** Counting one more element `x` adds, over a list of keys, the number
      of times `x` is among those keys. */
  lemma {:induction false} SumOccurrencesStep(keys: seq<string>, p: seq<string>, x: string)
    ensures SumOccurrences(keys, p + [x]) == SumOccurrences(keys, p) + Occurrences(keys, x)
  {
    if |keys| > 0 {
      SumOccurrencesStep(keys[1..], p, x);
      assert (p + [x])[..|p + [x]| - 1] == p;
      assert keys == [keys[0]] + keys[1..];
      OccurrencesAppend([keys[0]], keys[1..], x);
      assert [keys[0]][..0] == [];
    }
  }

  lemma {:induction false} SumOccurrencesFirstSeen(s: seq<string>)
    ensures SumOccurrences(FirstSeen(s), s) == |s|
  {
    if |s| > 0 {
      var p, x := s[..|s| - 1], s[|s| - 1];
      assert s == p + [x];
      var q := FirstSeen(p);
      SumOccurrencesFirstSeen(p);
      SumOccurrencesStep(q, p, x);
      if x in p {
        NoDupOccurrences(q, x);
        assert x in q;
      } else {
        assert x !in q;
        SumOccurrencesAppend(q, [x], s);
        assert Occurrences(s, x) == 1 by {
          assert Occurrences(p, x) == 0;
        }
      }
    }
  }

  lemma {:induction false} SumCountsOfKeys(entries: seq<(string, nat)>, s: seq<string>)
    requires forall i :: 0 <= i < |entries| ==> entries[i].1 == Occurrences(s, entries[i].0)
    ensures SumCounts(entries) == SumOccurrences(Names(entries), s)
  {
    if |entries| > 0 {
      SumCountsOfKeys(entries[1..], s);
      assert Names(entries)[1..] == Names(entries[1..]);
    }
  }

  /** The counts of a tally add up to the number of elements counted. */
  lemma TallySum(s: seq<string>)
    ensures SumCounts(Tally(s)) == |s|
  {
    var f := (k: string) => Occurrences(s, k) as int;
    var r := Tally(s);
    SumCountsOfKeys(r, s);
    assert Names(r) == KeyOrder(FirstSeen(s));
    SumOccurrencesIsSumBy(Names(r), s, f);
    SumOccurrencesIsSumBy(FirstSeen(s), s, f);
    SumByPermutation(Names(r), FirstSeen(s), f);
    SumOccurrencesFirstSeen(s);
  }

  /** The state of a counter after counting the elements of `s` in order:
      keys created in first-occurrence order, each holding its number of occurrences. */
  ghost predicate Counted(keys: seq<string>, counts: map<string, nat>, s: seq<string>) {
    && keys == FirstSeen(s)
    && (forall k :: k in counts <==> k in keys)
    && (forall k :: k in counts ==> counts[k] == Occurrences(s, k))
  }

  /** Counting one more element `x` (as `Counter.Increment` does) keeps the
      counter in the state for `s + [x]`. */
  lemma CountedStep(keys: seq<string>, counts: map<string, nat>, s: seq<string>, x: string)
    requires Counted(keys, counts, s)
    ensures Counted(if x in keys then keys else keys + [x],
                    counts[x := (if x in counts then counts[x] else 0) + 1], s + [x])
  {
    CountStep(s, x);
  }

  /** Counting `s` one element at a time into a fresh `Counter` leaves
      `Entries()` equal to `Tally(s)`: what the counting loops of the
      components rely on. */
  lemma CounterTally(keys: seq<string>, counts: map<string, nat>, s: seq<string>)
    requires Counted(keys, counts, s)
    ensures forall k :: k in KeyOrder(keys) ==> k in counts
    ensures EntriesOf(KeyOrder(keys), counts) == Tally(s)
  {
    var order := KeyOrder(keys);
    forall k | k in order ensures k in counts {
      assert k in multiset(order);
    }
    EntriesAreOccurrences(order, counts, s);
  }

  lemma {:induction false} EntriesAreOccurrences(order: seq<string>, counts: map<string, nat>, s: seq<string>)
    requires forall k :: k in order ==> k in counts && counts[k] == Occurrences(s, k)
    ensures EntriesOf(order, counts) == WithOccurrences(order, s)
  {
    if |order| > 0 {
      assert forall k :: k in order[1..] ==> k in order;
      EntriesAreOccurrences(order[1..], counts, s);
    }
  }

  /** One counting step: the state after counting `p` and then `x` is the
      state for `p + [x]`. */
  lemma CountStep(p: seq<string>, x: string)
    ensures FirstSeen(p + [x]) == if x in FirstSeen(p) then FirstSeen(p) else FirstSeen(p) + [x]
    ensures forall k :: Occurrences(p + [x], k) == Occurrences(p, k) + (if k == x then 1 else 0)
  {
    assert (p + [x])[..|p + [x]| - 1] == p;
  }
}
