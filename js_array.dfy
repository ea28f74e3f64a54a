/**
 * The JavaScript array built-ins the quiz code relies on (`findIndex`,
 * `find`, `filter`, `map`, `slice`, `splice`, element swap and the stable
 * `sort`), stated once over Dafny sequences so that every component model
 * shares one definition of each.
 */
module JsArray {

  datatype Option<+T> = None | Some(value: T)

  /** `s.findIndex(p)`: the first index whose element satisfies `p`, or -1. */
  function FindIndex<T>(s: seq<T>, p: T -> bool): (r: int)
    ensures -1 <= r < |s|
    ensures r == -1 <==> forall i :: 0 <= i < |s| ==> !p(s[i])
    ensures 0 <= r ==> p(s[r]) && forall i :: 0 <= i < r ==> !p(s[i])
    decreases |s|
  {
    if |s| == 0 then -1
    else if p(s[0]) then 0
    else
      var k := FindIndex(s[1..], p);
      assert forall i :: 1 <= i < |s| ==> s[i] == s[1..][i - 1];
      if k == -1 then -1 else k + 1
  }

  /** `s.find(p)`: the first element satisfying `p`, or `undefined` (None). */
  function Find<T>(s: seq<T>, p: T -> bool): (r: Option<T>)
    ensures r.None? <==> forall i :: 0 <= i < |s| ==> !p(s[i])
    ensures r.Some? ==> exists i :: 0 <= i < |s| && s[i] == r.value && p(s[i]) && forall k :: 0 <= k < i ==> !p(s[k])
  {
    var k := FindIndex(s, p);
    if k < 0 then None else Some(s[k])
  }

  /** `s.some(p)`. */
  predicate Some_<T>(s: seq<T>, p: T -> bool)
  {
    exists i :: 0 <= i < |s| && p(s[i])
  }

  /** `s.filter(p)`: the elements satisfying `p`, in their original order. */
  function Filter<T>(s: seq<T>, p: T -> bool): (r: seq<T>)
    ensures |r| <= |s|
    ensures forall i :: 0 <= i < |r| ==> r[i] in s && p(r[i])
    ensures forall i :: 0 <= i < |s| && p(s[i]) ==> s[i] in r
    ensures (forall i :: 0 <= i < |s| ==> p(s[i])) ==> r == s
    decreases |s|
  {
    if |s| == 0 then []
    else
      var rest := Filter(s[1..], p);
      assert s == [s[0]] + s[1..];
      if p(s[0]) then [s[0]] + rest else rest
  }

  /** The filter keeps each element that satisfies `p` as often as it occurs, and nothing else. */
  lemma {:induction false} FilterMultiset<T>(s: seq<T>, p: T -> bool)
    ensures forall x :: multiset(Filter(s, p))[x] == if p(x) then multiset(s)[x] else 0
    decreases |s|
  {
    if |s| > 0 {
      FilterMultiset(s[1..], p);
      assert s == [s[0]] + s[1..];
    }
  }

  /**
   * Filtering a concatenation filters each part and keeps the parts in
   * order, so the kept elements stay in their original order.
   */
  lemma {:induction false} FilterAppend<T>(a: seq<T>, b: seq<T>, p: T -> bool)
    ensures Filter(a + b, p) == Filter(a, p) + Filter(b, p)
    decreases |a|
  {
    if |a| == 0 {
      assert a + b == b;
    } else {
      assert (a + b)[0] == a[0];
      assert (a + b)[1..] == a[1..] + b;
      FilterAppend(a[1..], b, p);
    }
  }

  /** When only the element at `k` fails the test, the filter splices out exactly that position. */
  lemma {:induction false} FilterDropsOne<T>(s: seq<T>, k: nat, p: T -> bool)
    requires k < |s| && !p(s[k])
    requires forall i :: 0 <= i < |s| && i != k ==> p(s[i])
    ensures Filter(s, p) == s[..k] + s[k + 1..]
    decreases k
  {
    var rest := s[1..];
    if k == 0 {
      forall i | 0 <= i < |rest| ensures p(rest[i]) {
        assert rest[i] == s[i + 1];
      }
      assert s[..0] + s[1..] == rest;
    } else {
      forall i | 0 <= i < |rest| && i != k - 1 ensures p(rest[i]) {
        assert rest[i] == s[i + 1];
      }
      FilterDropsOne(rest, k - 1, p);
      assert Filter(s, p) == [s[0]] + Filter(rest, p);
      SpliceCons(s, k);
    }
  }

  /** Splicing out a later position commutes with taking the first element off. */
  lemma SpliceCons<T>(s: seq<T>, k: nat)
    requires 0 < k < |s|
    ensures [s[0]] + (s[1..][..k - 1] + s[1..][k..]) == s[..k] + s[k + 1..]
  {
    assert s[..k] == [s[0]] + s[1..][..k - 1];
    assert s[k + 1..] == s[1..][k..];
  }

  /** Some two different positions of `s` satisfy `p`. */
  predicate TwoSatisfy<T>(s: seq<T>, p: T -> bool)
  {
    exists i, j :: 0 <= i < j < |s| && p(s[i]) && p(s[j])
  }

  /** How many elements of `s` satisfy `p`. */
  function CountSatisfying<T>(s: seq<T>, p: T -> bool): nat
    decreases |s|
  {
    if |s| == 0 then 0 else (if p(s[0]) then 1 else 0) + CountSatisfying(s[1..], p)
  }

  /** The filter keeps exactly the elements that satisfy it. */
  lemma {:induction false} FilterLength<T>(s: seq<T>, p: T -> bool)
    ensures |Filter(s, p)| == CountSatisfying(s, p)
    decreases |s|
  {
    if |s| > 0 {
      FilterLength(s[1..], p);
    }
  }

  /** Some element satisfies `p` exactly when the count is positive. */
  lemma {:induction false} CountAtLeastOne<T>(s: seq<T>, p: T -> bool)
    ensures CountSatisfying(s, p) >= 1 <==> exists i :: 0 <= i < |s| && p(s[i])
    decreases |s|
  {
    if |s| > 0 {
      var rest := s[1..];
      CountAtLeastOne(rest, p);
      if exists i :: 0 <= i < |rest| && p(rest[i]) {
        var i :| 0 <= i < |rest| && p(rest[i]);
        assert p(s[i + 1]);
      }
      if !p(s[0]) && exists i :: 0 <= i < |s| && p(s[i]) {
        var i :| 0 <= i < |s| && p(s[i]);
        assert p(rest[i - 1]);
      }
    }
  }

  /** Two different positions satisfy `p` exactly when the count is at least two. */
  lemma {:induction false} CountAtLeastTwo<T>(s: seq<T>, p: T -> bool)
    ensures CountSatisfying(s, p) >= 2 <==> TwoSatisfy(s, p)
    decreases |s|
  {
    if |s| > 0 {
      var rest := s[1..];
      CountAtLeastTwo(rest, p);
      CountAtLeastOne(rest, p);
      if TwoSatisfy(s, p) {
        var i, j :| 0 <= i < j < |s| && p(s[i]) && p(s[j]);
        assert p(rest[j - 1]);
        if i > 0 {
          assert p(rest[i - 1]);
        }
      }
      if TwoSatisfy(rest, p) {
        var i, j :| 0 <= i < j < |rest| && p(rest[i]) && p(rest[j]);
        assert p(s[i + 1]) && p(s[j + 1]);
      }
      if p(s[0]) && exists i :: 0 <= i < |rest| && p(rest[i]) {
        var i :| 0 <= i < |rest| && p(rest[i]);
        assert p(s[i + 1]);
      }
    }
  }

  /** At least two elements survive a filter exactly when two different positions satisfy it. */
  lemma FilterAtLeastTwo<T>(s: seq<T>, p: T -> bool)
    ensures |Filter(s, p)| >= 2 <==> TwoSatisfy(s, p)
  {
    FilterLength(s, p);
    CountAtLeastTwo(s, p);
  }

  /** `s.map(f)`. */
  function Map<T, U>(s: seq<T>, f: T -> U): (r: seq<U>)
    ensures |r| == |s|
    ensures forall i :: 0 <= i < |s| ==> r[i] == f(s[i])
    decreases |s|
  {
    if |s| == 0 then [] else [f(s[0])] + Map(s[1..], f)
  }

  /** `s.slice(0, n)` for a non-negative `n`. */
  function Take<T>(s: seq<T>, n: nat): (r: seq<T>)
    ensures |r| == if n < |s| then n else |s|
    ensures r <= s
  {
    if n < |s| then s[..n] else s
  }

  /**
   * `s.slice(0, end)` for any integer `end`: a negative end counts back
   * from the end of the array, and an end past the length stops there.
   */
  function SliceTo<T>(s: seq<T>, end: int): (r: seq<T>)
    ensures r <= s
    ensures end >= 0 ==> |r| == if end < |s| then end else |s|
    ensures end < 0 ==> |r| == if |s| + end > 0 then |s| + end else 0
  {
    if end >= 0 then Take(s, end)
    else if |s| + end > 0 then s[..|s| + end]
    else []
  }

  /** `s.splice(i, 1)` on a copy: the sequence without its element at `i`. */
  function RemoveAt<T>(s: seq<T>, i: nat): (r: seq<T>)
    requires i < |s|
    ensures |r| == |s| - 1
    ensures forall k :: 0 <= k < i ==> r[k] == s[k]
    ensures forall k :: i <= k < |r| ==> r[k] == s[k + 1]
  {
    s[..i] + s[i + 1..]
  }

  /** `s.splice(i, 0, x)` on a copy: `x` inserted so that it lands at index `i`. */
  function InsertAt<T>(s: seq<T>, i: nat, x: T): (r: seq<T>)
    requires i <= |s|
    ensures |r| == |s| + 1
    ensures r[i] == x
    ensures forall k :: 0 <= k < i ==> r[k] == s[k]
    ensures forall k :: i < k < |r| ==> r[k] == s[k - 1]
  {
    s[..i] + [x] + s[i..]
  }

  /**
   * The drag-and-drop reorder used by both editors: take the element at
   * `from` out and put it back so that it ends up at index `to`.
   */
  function Move<T>(s: seq<T>, from: nat, to: nat): (r: seq<T>)
    requires from < |s| && to < |s|
    ensures |r| == |s|
    ensures r[to] == s[from]
    ensures forall k :: 0 <= k < |s| && k < from && k < to ==> r[k] == s[k]
    ensures forall k :: 0 <= k < |s| && k > from && k > to ==> r[k] == s[k]
    ensures forall k :: from <= k < to ==> r[k] == s[k + 1]
    ensures forall k :: to < k <= from ==> r[k] == s[k - 1]
    ensures from == to ==> r == s
  {
    var t := RemoveAt(s, from);
    var r := InsertAt(t, to, s[from]);
    assert forall k :: 0 <= k < |s| && k < from && k < to ==> r[k] == s[k] by {
      forall k | 0 <= k < |s| && k < from && k < to ensures r[k] == s[k] {
        assert r[k] == t[k];
      }
    }
    assert forall k :: 0 <= k < |s| && k > from && k > to ==> r[k] == s[k] by {
      forall k | 0 <= k < |s| && k > from && k > to ensures r[k] == s[k] {
        assert r[k] == t[k - 1];
      }
    }
    assert forall k :: from <= k < to ==> r[k] == s[k + 1] by {
      forall k | from <= k < to ensures r[k] == s[k + 1] {
        assert r[k] == t[k];
      }
    }
    assert forall k :: to < k <= from ==> r[k] == s[k - 1] by {
      forall k | to < k <= from ensures r[k] == s[k - 1] {
        assert r[k] == t[k - 1];
      }
    }
    r
  }

  /** A move only rearranges. */
  lemma MovePermutes<T>(s: seq<T>, from: nat, to: nat)
    requires from < |s| && to < |s|
    ensures multiset(Move(s, from, to)) == multiset(s)
  {
    var t := RemoveAt(s, from);
    assert s == s[..from] + [s[from]] + s[from + 1..];
    assert t == s[..from] + s[from + 1..];
    assert multiset(t) + multiset{s[from]} == multiset(s);
    assert t == t[..to] + t[to..];
    assert InsertAt(t, to, s[from]) == t[..to] + [s[from]] + t[to..];
  }

  /** Mapping commutes with a move: the mapped elements move the same way. */
  lemma MapMove<T, U>(s: seq<T>, from: nat, to: nat, f: T -> U)
    requires from < |s| && to < |s|
    ensures Map(Move(s, from, to), f) == Move(Map(s, f), from, to)
  {
    var l := Map(Move(s, from, to), f);
    var r := Move(Map(s, f), from, to);
    forall k | 0 <= k < |s|
      ensures l[k] == r[k]
    {
      if k == to {
      } else if k < from && k < to {
      } else if k > from && k > to {
      } else if from <= k < to {
      } else {
        assert to < k <= from;
      }
    }
  }

  /** `[s[i], s[j]] = [s[j], s[i]]` on a copy. */
  function Swap<T>(s: seq<T>, i: nat, j: nat): (r: seq<T>)
    requires i < |s| && j < |s|
    ensures |r| == |s|
    ensures r[i] == s[j] && r[j] == s[i]
    ensures forall k :: 0 <= k < |s| && k != i && k != j ==> r[k] == s[k]
  {
    s[i := s[j]][j := s[i]]
  }

  /** A swap only rearranges. */
  lemma SwapPermutes<T>(s: seq<T>, i: nat, j: nat)
    requires i < |s| && j < |s|
    ensures multiset(Swap(s, i, j)) == multiset(s)
  {
  }

  /** Sequences with the same multiset have the same elements. */
  lemma SameElements<T>(a: seq<T>, b: seq<T>)
    requires multiset(a) == multiset(b)
    ensures forall x :: x in a <==> x in b
  {
    forall x ensures x in a <==> x in b {
      assert x in a <==> x in multiset(a);
      assert x in b <==> x in multiset(b);
    }
  }

  /** Every element's key is at most the key of every later element. */
  ghost predicate SortedBy<T>(s: seq<T>, key: T -> int)
  {
    forall i, j :: 0 <= i < j < |s| ==> key(s[i]) <= key(s[j])
  }

  /**
   * Insert `x` in front of the first element whose key is not smaller, so
   * an element inserted later in the recursion of SortBy (an earlier input
   * element) stays in front of elements with an equal key.
   */
  function Insert<T>(x: T, s: seq<T>, key: T -> int): (r: seq<T>)
    ensures |r| == |s| + 1
    ensures multiset(r) == multiset(s) + multiset{x}
    decreases |s|
  {
    if |s| == 0 then [x]
    else if key(x) <= key(s[0]) then [x] + s
    else
      assert s == [s[0]] + s[1..];
      [s[0]] + Insert(x, s[1..], key)
  }

  /** Inserting an element no smaller than a bound into elements no smaller than it keeps the bound. */
  lemma {:induction false} InsertKeepsBound<T>(x: T, s: seq<T>, key: T -> int, m: int)
    requires key(x) >= m && forall k :: 0 <= k < |s| ==> key(s[k]) >= m
    ensures forall k :: 0 <= k < |Insert(x, s, key)| ==> key(Insert(x, s, key)[k]) >= m
    decreases |s|
  {
    if |s| > 0 && key(x) > key(s[0]) {
      InsertKeepsBound(x, s[1..], key, m);
    }
  }

  /** Inserting into a sorted sequence keeps it sorted. */
  lemma {:induction false} InsertSorted<T>(x: T, s: seq<T>, key: T -> int)
    requires SortedBy(s, key)
    ensures SortedBy(Insert(x, s, key), key)
    decreases |s|
  {
    if |s| > 0 && key(x) > key(s[0]) {
      var rest := Insert(x, s[1..], key);
      InsertSorted(x, s[1..], key);
      InsertKeepsBound(x, s[1..], key, key(s[0]));
      assert Insert(x, s, key) == [s[0]] + rest;
    }
  }

  /** The test "the key is `k`": picks out the elements that tie at one key. */
  function KeyIs<T>(key: T -> int, k: int): T -> bool
  {
    (x: T) => key(x) == k
  }

  /**
   * Inserting `x` puts it in front of every element with its key and does
   * not reorder the elements of any key.
   */
  lemma {:induction false} InsertKeyOrder<T>(x: T, s: seq<T>, key: T -> int, k: int)
    ensures Filter(Insert(x, s, key), KeyIs(key, k)) ==
            (if key(x) == k then [x] else []) + Filter(s, KeyIs(key, k))
    decreases |s|
  {
    var p := KeyIs(key, k);
    if |s| == 0 {
      assert Insert(x, s, key) == [x];
    } else if key(x) <= key(s[0]) {
      var r := [x] + s;
      assert Insert(x, s, key) == r;
      assert r[0] == x && r[1..] == s;
    } else {
      var rest := Insert(x, s[1..], key);
      var r := [s[0]] + rest;
      assert Insert(x, s, key) == r;
      assert r[0] == s[0] && r[1..] == rest;
      InsertKeyOrder(x, s[1..], key, k);
      assert Filter(r, p) == (if p(s[0]) then [s[0]] else []) + Filter(rest, p);
      assert Filter(s, p) == (if p(s[0]) then [s[0]] else []) + Filter(s[1..], p);
    }
  }

  /**
   * `[...s].sort((a, b) => key(a) - key(b))`. ECMAScript requires
   * `Array.prototype.sort` to be stable, so its result is the unique stable
   * sorted permutation; the insertion sort below is stable by construction.
   */
  function SortBy<T>(s: seq<T>, key: T -> int): (r: seq<T>)
    ensures |r| == |s|
    ensures multiset(r) == multiset(s)
    ensures SortedBy(r, key)
    decreases |s|
  {
    if |s| == 0 then []
    else
      assert s == [s[0]] + s[1..];
      var sortedRest := SortBy(s[1..], key);
      InsertSorted(s[0], sortedRest, key);
      Insert(s[0], sortedRest, key)
  }

  /**
   * The sort is stable: the elements that tie at any one key come out in
   * the order they went in.
   */
  lemma {:induction false} SortByStable<T>(s: seq<T>, key: T -> int, k: int)
    ensures Filter(SortBy(s, key), KeyIs(key, k)) == Filter(s, KeyIs(key, k))
    decreases |s|
  {
    if |s| > 0 {
      var p := KeyIs(key, k);
      SortByStable(s[1..], key, k);
      InsertKeyOrder(s[0], SortBy(s[1..], key), key, k);
      assert SortBy(s, key) == Insert(s[0], SortBy(s[1..], key), key);
      assert Filter(s, p) == (if p(s[0]) then [s[0]] else []) + Filter(s[1..], p);
    }
  }
}
