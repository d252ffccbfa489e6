/** `toSorted((a, b) => compareAsc(..))` on a key that may be missing: a
    missing key (date-fns' Invalid Date) makes the comparison `NaN`, which
    the sort treats as "equal". The model is a stable insertion sort; for
    keys that all parse it gives the one stable ascending order every stable
    sort gives. */
module Sorting {
  import opened Wrappers

  /** `compareAsc(a, b) < 0`. */
  predicate Less(a: Option<int>, b: Option<int>) {
    a.Some? && b.Some? && a.value < b.value
  }

  /** Puts `x` in front of `t`, then moves it right past every element whose
      key is strictly smaller. */
  function Insert<T>(x: T, t: seq<T>, key: T -> Option<int>): (r: seq<T>)
    ensures |r| == |t| + 1
    ensures multiset(r) == multiset(t) + multiset{x}
  {
    if t == [] || !Less(key(t[0]), key(x)) then [x] + t
    else
      assert t == [t[0]] + t[1..];
      [t[0]] + Insert(x, t[1..], key)
  }

  function SortByKey<T>(s: seq<T>, key: T -> Option<int>): (r: seq<T>)
    ensures |r| == |s|
    ensures multiset(r) == multiset(s)
  {
    if s == [] then []
    else
      assert s == [s[0]] + s[1..];
      Insert(s[0], SortByKey(s[1..], key), key)
  }

  predicate AllKeyed<T>(s: seq<T>, key: T -> Option<int>) {
    forall i :: 0 <= i < |s| ==> key(s[i]).Some?
  }

  /** No element has a strictly smaller key than one before it. */
  predicate SortedByKey<T>(s: seq<T>, key: T -> Option<int>) {
    forall i, j :: 0 <= i < j < |s| ==> !Less(key(s[j]), key(s[i]))
  }

  /** The elements whose key is `k`, in order. */
  function Filter<T>(s: seq<T>, key: T -> Option<int>, k: Option<int>): (r: seq<T>)
    ensures |r| <= |s|
    ensures forall y :: y in r ==> y in s && key(y) == k
  {
    if s == [] then []
    else if key(s[0]) == k then [s[0]] + Filter(s[1..], key, k)
    else Filter(s[1..], key, k)
  }

  lemma {:induction false} InsertKeepsKeys<T>(x: T, t: seq<T>, key: T -> Option<int>)
    requires AllKeyed(t, key) && key(x).Some?
    ensures AllKeyed(Insert(x, t, key), key)
  {
    var r := Insert(x, t, key);
    forall i | 0 <= i < |r| ensures key(r[i]).Some? {
      assert r[i] in multiset(r);
      if r[i] != x {
        assert r[i] in multiset(t);
      }
    }
  }

  /** Inserting a keyed element into a sorted keyed sequence keeps it sorted. */
  lemma {:induction false} InsertSorted<T>(x: T, t: seq<T>, key: T -> Option<int>)
    requires AllKeyed(t, key) && key(x).Some? && SortedByKey(t, key)
    ensures SortedByKey(Insert(x, t, key), key)
  {
    if t == [] || !Less(key(t[0]), key(x)) {
      SortedInFront(x, t, key);
    } else {
      var rest := t[1..];
      assert SortedByKey(rest, key) && AllKeyed(rest, key) by {
        forall i | 0 <= i < |rest| ensures rest[i] == t[i + 1] { }
      }
      InsertSorted(x, rest, key);
      InsertKeepsKeys(x, rest, key);
      SortedBehind(x, t, key);
    }
  }

  /** An element no greater than the first of a sorted sequence goes in front. */
  lemma SortedInFront<T>(x: T, t: seq<T>, key: T -> Option<int>)
    requires AllKeyed(t, key) && key(x).Some? && SortedByKey(t, key)
    requires t == [] || !Less(key(t[0]), key(x))
    ensures SortedByKey([x] + t, key)
  {
    var r := [x] + t;
    forall i, j | 0 <= i < j < |r| ensures !Less(key(r[j]), key(r[i])) {
      if i > 0 {
        assert r[i] == t[i - 1] && r[j] == t[j - 1];
      } else {
        assert r[j] == t[j - 1];
        assert !Less(key(t[j - 1]), key(t[0]));
      }
    }
  }

  /** An element greater than the first of a sorted sequence goes in behind it. */
  lemma SortedBehind<T>(x: T, t: seq<T>, key: T -> Option<int>)
    requires t != [] && AllKeyed(t, key) && key(x).Some? && SortedByKey(t, key)
    requires Less(key(t[0]), key(x))
    requires SortedByKey(Insert(x, t[1..], key), key)
    ensures SortedByKey(Insert(x, t, key), key)
  {
    var tail := Insert(x, t[1..], key);
    var r := Insert(x, t, key);
    assert r == [t[0]] + tail;
    InsertAboveHead(x, t, key);
    forall i, j | 0 <= i < j < |r| ensures !Less(key(r[j]), key(r[i])) {
      if i == 0 {
        assert r[i] == t[0] && r[j] == tail[j - 1];
        assert !Less(key(tail[j - 1]), key(t[0]));
      } else {
        assert r[i] == tail[i - 1] && r[j] == tail[j - 1];
        assert !Less(key(tail[j - 1]), key(tail[i - 1]));
      }
    }
  }

  /** Inserting behind the head of a sorted sequence leaves nothing below the head. */
  lemma InsertAboveHead<T>(x: T, t: seq<T>, key: T -> Option<int>)
    requires t != [] && SortedByKey(t, key)
    requires Less(key(t[0]), key(x))
    ensures forall j :: 0 <= j < |Insert(x, t[1..], key)| ==> !Less(key(Insert(x, t[1..], key)[j]), key(t[0]))
  {
    var rest := t[1..];
    var tail := Insert(x, rest, key);
    forall j | 0 <= j < |tail| ensures !Less(key(tail[j]), key(t[0])) {
      assert tail[j] in multiset(tail);
      if tail[j] != x {
        assert tail[j] in multiset(rest);
        var m :| 0 <= m < |rest| && rest[m] == tail[j];
        assert rest[m] == t[m + 1];
      }
    }
  }

  /** When every key is present the result is in ascending key order. */
  lemma {:induction false} SortSorted<T>(s: seq<T>, key: T -> Option<int>)
    requires AllKeyed(s, key)
    ensures SortedByKey(SortByKey(s, key), key)
    ensures AllKeyed(SortByKey(s, key), key)
  {
    if s != [] {
      var rest := s[1..];
      assert AllKeyed(rest, key) by {
        forall i | 0 <= i < |rest| ensures rest[i] == s[i + 1] { }
      }
      SortSorted(rest, key);
      InsertSorted(s[0], SortByKey(rest, key), key);
      InsertKeepsKeys(s[0], SortByKey(rest, key), key);
    }
  }

  /** `x` never moves past an element with its own key (nor past one with
      no key): among the elements keyed `k` it comes first. */
  lemma {:induction false} InsertFilter<T>(x: T, t: seq<T>, key: T -> Option<int>, k: Option<int>)
    ensures Filter(Insert(x, t, key), key, k) == (if key(x) == k then [x] else []) + Filter(t, key, k)
  {
    if t == [] || !Less(key(t[0]), key(x)) {
      var r := [x] + t;
      assert r[0] == x && r[1..] == t;
    } else {
      InsertFilter(x, t[1..], key, k);
      var r := [t[0]] + Insert(x, t[1..], key);
      assert r[0] == t[0] && r[1..] == Insert(x, t[1..], key);
      assert key(t[0]) != key(x);
      if key(t[0]) == k {
        assert key(x) != k;
      }
    }
  }

  /** The insertion sort is stable: the elements sharing any one key keep
      their order. For present keys under a consistent comparison this is
      the stability ECMAScript requires of `toSorted`; for the missing key,
      and for every key once one is missing, the order is this sort's own
      choice, which ECMAScript leaves implementation-defined. */
  lemma {:induction false} SortStable<T>(s: seq<T>, key: T -> Option<int>, k: Option<int>)
    ensures Filter(SortByKey(s, key), key, k) == Filter(s, key, k)
  {
    if s != [] {
      SortStable(s[1..], key, k);
      InsertFilter(s[0], SortByKey(s[1..], key), key, k);
    }
  }

  function MapSeq<T>(s: seq<T>, f: T -> T): (r: seq<T>)
    ensures |r| == |s|
    ensures forall i :: 0 <= i < |s| ==> r[i] == f(s[i])
  {
    seq(|s|, i requires 0 <= i < |s| => f(s[i]))
  }

  /** Mapping a sequence with one element in front. */
  lemma MapSeqCons<T>(a: T, s: seq<T>, f: T -> T)
    ensures MapSeq([a] + s, f) == [f(a)] + MapSeq(s, f)
  {
    var l := MapSeq([a] + s, f);
    var r := [f(a)] + MapSeq(s, f);
    assert |l| == |r|;
    forall i | 0 <= i < |l| ensures l[i] == r[i] {
      if i > 0 {
        assert ([a] + s)[i] == s[i - 1];
      }
    }
  }

  lemma {:induction false} InsertMap<T>(x: T, t: seq<T>, key: T -> Option<int>, f: T -> T)
    requires forall y :: key(f(y)) == key(y)
    ensures Insert(f(x), MapSeq(t, f), key) == MapSeq(Insert(x, t, key), f)
  {
    var ft := MapSeq(t, f);
    assert key(f(x)) == key(x);
    if t == [] {
      assert |ft| == 0;
      MapSeqCons(x, [], f);
      assert [x] + [] == [x];
    } else {
      assert t == [t[0]] + t[1..];
      MapSeqCons(t[0], t[1..], f);
      assert ft == [f(t[0])] + MapSeq(t[1..], f);
      assert key(f(t[0])) == key(t[0]);
      if !Less(key(t[0]), key(x)) {
        MapSeqCons(x, t, f);
      } else {
        InsertMap(x, t[1..], key, f);
        InsertMapStep(x, t, key, f);
      }
    }
  }

  lemma InsertMapStep<T>(x: T, t: seq<T>, key: T -> Option<int>, f: T -> T)
    requires t != [] && Less(key(t[0]), key(x))
    requires key(f(x)) == key(x) && key(f(t[0])) == key(t[0])
    requires MapSeq(t, f) == [f(t[0])] + MapSeq(t[1..], f)
    requires Insert(f(x), MapSeq(t[1..], f), key) == MapSeq(Insert(x, t[1..], key), f)
    ensures Insert(f(x), MapSeq(t, f), key) == MapSeq(Insert(x, t, key), f)
  {
    var ft := MapSeq(t, f);
    assert ft[0] == f(t[0]) && ft[1..] == MapSeq(t[1..], f);
    assert Insert(f(x), ft, key) == [f(t[0])] + Insert(f(x), MapSeq(t[1..], f), key);
    assert Insert(x, t, key) == [t[0]] + Insert(x, t[1..], key);
    MapSeqCons(t[0], Insert(x, t[1..], key), f);
  }

  /** Changing elements without changing their keys commutes with the sort. */
  lemma {:induction false} SortMap<T>(s: seq<T>, key: T -> Option<int>, f: T -> T)
    requires forall y :: key(f(y)) == key(y)
    ensures SortByKey(MapSeq(s, f), key) == MapSeq(SortByKey(s, key), f)
  {
    if s != [] {
      var fs := MapSeq(s, f);
      assert fs[0] == f(s[0]) && fs[1..] == MapSeq(s[1..], f);
      SortMap(s[1..], key, f);
      InsertMap(s[0], SortByKey(s[1..], key), key, f);
    }
  }

  /** Changing elements without changing their keys commutes with picking
      the elements of one key. */
  lemma {:induction false} FilterMap<T>(s: seq<T>, key: T -> Option<int>, k: Option<int>, f: T -> T)
    requires forall y :: key(f(y)) == key(y)
    ensures Filter(MapSeq(s, f), key, k) == MapSeq(Filter(s, key, k), f)
  {
    if s != [] {
      assert s == [s[0]] + s[1..];
      MapSeqCons(s[0], s[1..], f);
      var fs := MapSeq(s, f);
      assert fs[0] == f(s[0]) && fs[1..] == MapSeq(s[1..], f);
      assert key(f(s[0])) == key(s[0]);
      FilterMap(s[1..], key, k, f);
      if key(s[0]) == k {
        MapSeqCons(s[0], Filter(s[1..], key, k), f);
      }
    }
  }
}
