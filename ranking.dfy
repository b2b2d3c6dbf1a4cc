/** Generic sequence operations behind the search engine: filtering a
    record set, ordering by a key (highest first), and taking a prefix.
    The ordering is a stable insertion sort, which is how Python's
    list.sort(reverse=True) orders equal keys. */
module Ranking {
  import opened Wrappers

  /** The elements of `xs` satisfying `p`, in their original order. */
  function Select<T(!new)>(xs: seq<T>, p: T -> bool): (r: seq<T>)
    ensures |r| <= |xs|
    ensures forall k :: 0 <= k < |r| ==> r[k] in xs && p(r[k])
    ensures forall k :: 0 <= k < |xs| && p(xs[k]) ==> xs[k] in r
  {
    if xs == [] then []
    else (if p(xs[0]) then [xs[0]] else []) + Select(xs[1..], p)
  }

  /** Filtering keeps every occurrence of a satisfying element and nothing
      else: each element occurs in the result exactly as often as in the
      input when it satisfies `p`, and not at all otherwise. */
  lemma {:induction false} SelectCounts<T(!new)>(xs: seq<T>, p: T -> bool)
    ensures forall x :: multiset(Select(xs, p))[x] == if p(x) then multiset(xs)[x] else 0
  {
    if xs != [] {
      assert xs == [xs[0]] + xs[1..];
      SelectCounts(xs[1..], p);
    }
  }

  /** Filtering distributes over concatenation, so it keeps the original
      order. */
  lemma {:induction false} SelectAppend<T(!new)>(a: seq<T>, b: seq<T>, p: T -> bool)
    ensures Select(a + b, p) == Select(a, p) + Select(b, p)
  {
    if a == [] {
      assert a + b == b;
    } else {
      assert (a + b)[0] == a[0];
      assert (a + b)[1..] == a[1..] + b;
      SelectAppend(a[1..], b, p);
      var head, x, y := if p(a[0]) then [a[0]] else [], Select(a[1..], p), Select(b, p);
      assert head + (x + y) == (head + x) + y;
    }
  }

  predicate SortedDesc<T>(xs: seq<T>, key: T -> int)
  {
    forall i, j :: 0 <= i < j < |xs| ==> key(xs[i]) >= key(xs[j])
  }

  /** Puts `x` in front of the first element whose key does not exceed its own. */
  function Insert<T>(x: T, ys: seq<T>, key: T -> int): (r: seq<T>)
    requires SortedDesc(ys, key)
    ensures |r| == |ys| + 1
    ensures r[0] == x || (ys != [] && r[0] == ys[0])
    ensures SortedDesc(r, key)
    ensures multiset(r) == multiset(ys) + multiset{x}
  {
    if ys == [] || key(ys[0]) <= key(x) then
      ConsSorted(x, ys, key);
      [x] + ys
    else
      SortedTail(ys, key);
      var rest := Insert(x, ys[1..], key);
      InsertBehindHead(x, ys, rest, key);
      [ys[0]] + rest
  }

  /** The recursive case of Insert: `x` belongs behind the head of `ys`,
      and `rest` is `x` inserted into the tail. */
  lemma InsertBehindHead<T>(x: T, ys: seq<T>, rest: seq<T>, key: T -> int)
    requires ys != [] && SortedDesc(ys, key) && key(x) < key(ys[0])
    requires SortedDesc(rest, key) && |rest| == |ys|
    requires rest[0] == x || (|ys| > 1 && rest[0] == ys[1])
    requires multiset(rest) == multiset(ys[1..]) + multiset{x}
    ensures SortedDesc([ys[0]] + rest, key)
    ensures multiset([ys[0]] + rest) == multiset(ys) + multiset{x}
  {
    ConsSorted(ys[0], rest, key);
    assert ys == [ys[0]] + ys[1..];
  }

  /** The tail of a descending sequence is descending and keys no higher
      than its head. */
  lemma SortedTail<T>(ys: seq<T>, key: T -> int)
    requires ys != [] && SortedDesc(ys, key)
    ensures SortedDesc(ys[1..], key)
    ensures forall k :: 1 <= k < |ys| ==> key(ys[k]) <= key(ys[0])
  {
  }

  /** Putting an element in front of a descending sequence whose head keys
      no higher keeps it descending. */
  lemma ConsSorted<T>(y: T, rest: seq<T>, key: T -> int)
    requires SortedDesc(rest, key)
    requires rest == [] || key(rest[0]) <= key(y)
    ensures SortedDesc([y] + rest, key)
  {
    var s := [y] + rest;
    forall i, j | 0 <= i < j < |s| ensures key(s[i]) >= key(s[j]) {
      if i == 0 {
        assert s[j] == rest[j - 1];
        assert key(rest[j - 1]) <= key(rest[0]);
      } else {
        assert s[i] == rest[i - 1] && s[j] == rest[j - 1];
      }
    }
  }

  /** Stable descending sort by `key`. */
  function SortDesc<T>(xs: seq<T>, key: T -> int): (r: seq<T>)
    ensures |r| == |xs|
    ensures SortedDesc(r, key)
    ensures multiset(r) == multiset(xs)
  {
    if xs == [] then []
    else
      assert xs == [xs[0]] + xs[1..];
      Insert(xs[0], SortDesc(xs[1..], key), key)
  }

  /** The elements of `xs` whose key is `v`, in their original order. */
  function WithKey<T>(xs: seq<T>, key: T -> int, v: int): (r: seq<T>)
  {
    if xs == [] then []
    else (if key(xs[0]) == v then [xs[0]] else []) + WithKey(xs[1..], key, v)
  }

  lemma {:induction false} WithKeyAppend<T>(a: seq<T>, b: seq<T>, key: T -> int, v: int)
    ensures WithKey(a + b, key, v) == WithKey(a, key, v) + WithKey(b, key, v)
  {
    if a == [] {
      assert a + b == b;
    } else {
      var head := if key(a[0]) == v then [a[0]] else [];
      assert (a + b)[0] == a[0];
      assert (a + b)[1..] == a[1..] + b;
      assert WithKey(a + b, key, v) == head + WithKey(a[1..] + b, key, v);
      WithKeyAppend(a[1..], b, key, v);
      assert WithKey(a, key, v) == head + WithKey(a[1..], key, v);
      assert head + (WithKey(a[1..], key, v) + WithKey(b, key, v))
          == (head + WithKey(a[1..], key, v)) + WithKey(b, key, v);
    }
  }

  lemma {:induction false} WithKeyMembers<T>(xs: seq<T>, key: T -> int, v: int)
    ensures forall k :: 0 <= k < |xs| && key(xs[k]) == v ==> xs[k] in WithKey(xs, key, v)
    ensures forall k :: 0 <= k < |WithKey(xs, key, v)| ==>
              WithKey(xs, key, v)[k] in xs && key(WithKey(xs, key, v)[k]) == v
  {
    if xs != [] {
      WithKeyMembers(xs[1..], key, v);
      assert xs == [xs[0]] + xs[1..];
    }
  }

  lemma {:induction false} WithKeyAll<T>(xs: seq<T>, key: T -> int, v: int)
    requires forall k :: 0 <= k < |xs| ==> key(xs[k]) == v
    ensures WithKey(xs, key, v) == xs
  {
    if xs != [] {
      WithKeyAll(xs[1..], key, v);
    }
  }

  lemma {:induction false} WithKeyNone<T>(xs: seq<T>, key: T -> int, v: int)
    requires forall k :: 0 <= k < |xs| ==> key(xs[k]) != v
    ensures WithKey(xs, key, v) == []
  {
    if xs != [] {
      WithKeyNone(xs[1..], key, v);
    }
  }

  lemma WithKeyCons<T>(y: T, rest: seq<T>, key: T -> int, v: int)
    ensures WithKey([y] + rest, key, v) == (if key(y) == v then [y] else []) + WithKey(rest, key, v)
  {
    assert ([y] + rest)[1..] == rest;
  }

  /** Inserting never reorders elements of equal key, and `x` goes before
      the elements of its own key. */
  lemma {:induction false} InsertStable<T>(x: T, ys: seq<T>, key: T -> int, v: int)
    requires SortedDesc(ys, key)
    ensures WithKey(Insert(x, ys, key), key, v) == WithKey([x] + ys, key, v)
  {
    if ys == [] || key(ys[0]) <= key(x) {
    } else {
      var rest := Insert(x, ys[1..], key);
      InsertStable(x, ys[1..], key, v);
      var hx := if key(x) == v then [x] else [];
      var hy := if key(ys[0]) == v then [ys[0]] else [];
      var tail := WithKey(ys[1..], key, v);
      assert Insert(x, ys, key) == [ys[0]] + rest;
      WithKeyCons(ys[0], rest, key, v);
      WithKeyCons(x, ys[1..], key, v);
      WithKeyCons(x, ys, key, v);
      assert WithKey(ys, key, v) == hy + tail;
      // x and ys[0] have different keys, so at most one of them is kept
      assert hy + (hx + tail) == hx + (hy + tail);
    }
  }

  /** SortDesc is stable: for every key, the elements carrying it keep
      their input order. */
  lemma {:induction false} SortDescStable<T>(xs: seq<T>, key: T -> int, v: int)
    ensures WithKey(SortDesc(xs, key), key, v) == WithKey(xs, key, v)
  {
    if xs != [] {
      var s := SortDesc(xs[1..], key);
      SortDescStable(xs[1..], key, v);
      InsertStable(xs[0], s, key, v);
      assert ([xs[0]] + s)[1..] == s;
    }
  }

  predicate AllKeyed<T>(xs: seq<T>, key: T -> int, v: int)
  {
    forall k :: 0 <= k < |xs| ==> key(xs[k]) == v
  }

  /** Appending a block of lower keys keeps a sequence sorted. */
  lemma AppendSorted<T>(a: seq<T>, b: seq<T>, key: T -> int, va: int, vb: int)
    requires SortedDesc(a, key) && AllKeyed(b, key, vb)
    requires forall k :: 0 <= k < |a| ==> key(a[k]) >= va
    requires va >= vb
    ensures SortedDesc(a + b, key)
  {
  }

  /** A sorted sequence is determined by its per-key subsequences: two
      sorted sequences that agree on every key are equal. */
  lemma {:induction false} SortedUnique<T>(a: seq<T>, b: seq<T>, key: T -> int)
    requires SortedDesc(a, key) && SortedDesc(b, key)
    requires forall v :: WithKey(a, key, v) == WithKey(b, key, v)
    ensures a == b
    decreases |a|
  {
    if a == [] {
    } else {
      assert WithKey(a, key, key(a[0])) != [];
      HeadKeyBound(a, b, key);
      HeadKeyBound(b, a, key);
      SameHead(a, b, key);
      forall v ensures WithKey(a[1..], key, v) == WithKey(b[1..], key, v) {
        TailsWithKey(a, b, key, v);
      }
      SortedUnique(a[1..], b[1..], key);
      assert a == [a[0]] + a[1..];
      assert b == [b[0]] + b[1..];
    }
  }

  lemma SameHead<T>(a: seq<T>, b: seq<T>, key: T -> int)
    requires a != [] && b != [] && key(a[0]) == key(b[0])
    requires WithKey(a, key, key(a[0])) == WithKey(b, key, key(a[0]))
    ensures a[0] == b[0]
  {
    assert WithKey(a, key, key(a[0]))[0] == a[0];
    assert WithKey(b, key, key(a[0]))[0] == b[0];
  }

  /** Dropping a common head keeps the per-key subsequences equal. */
  lemma TailsWithKey<T>(a: seq<T>, b: seq<T>, key: T -> int, v: int)
    requires a != [] && b != [] && a[0] == b[0]
    requires WithKey(a, key, v) == WithKey(b, key, v)
    ensures WithKey(a[1..], key, v) == WithKey(b[1..], key, v)
  {
    var head := if key(a[0]) == v then [a[0]] else [];
    assert WithKey(a, key, v) == head + WithKey(a[1..], key, v);
    assert WithKey(b, key, v) == head + WithKey(b[1..], key, v);
    assert WithKey(a[1..], key, v) == (head + WithKey(a[1..], key, v))[|head|..];
    assert WithKey(b[1..], key, v) == (head + WithKey(b[1..], key, v))[|head|..];
  }

  /** If `a` is sorted and has, for the key of `b`'s head, the same elements
      as `b`, then `a`'s head key is at least `b`'s head key. */
  lemma HeadKeyBound<T>(a: seq<T>, b: seq<T>, key: T -> int)
    requires SortedDesc(a, key) && a != [] && b != []
    requires WithKey(a, key, key(b[0])) == WithKey(b, key, key(b[0]))
    ensures key(a[0]) >= key(b[0])
  {
    var w := WithKey(b, key, key(b[0]));
    assert w[0] == b[0];
    WithKeyMembers(a, key, key(b[0]));
    assert w[0] in a;
  }

  /** A permutation has no element its original lacks. */
  lemma PermutationMembers<T>(xs: seq<T>, ys: seq<T>)
    requires multiset(ys) == multiset(xs)
    ensures forall k :: 0 <= k < |ys| ==> ys[k] in xs
  {
    forall k | 0 <= k < |ys| ensures ys[k] in xs {
      assert ys[k] in multiset(ys);
    }
  }

  /** The first `cap` elements of `s`, all of them when there are fewer. */
  function Take<T>(s: seq<T>, cap: nat): (r: seq<T>)
    ensures |r| == Min(cap, |s|) && r == s[..|r|]
  {
    if |s| <= cap then s else s[..cap]
  }

  /** The `cap` highest-keyed elements of `xs` that satisfy `p`: the ORM's
      filter, `order_by('-key')` and `[:cap]`. */
  function TopByKey<T(!new)>(xs: seq<T>, p: T -> bool, key: T -> int, cap: nat): (r: seq<T>)
    ensures |r| == Min(cap, |Select(xs, p)|)
    ensures forall k :: 0 <= k < |r| ==> r[k] in xs && p(r[k])
    ensures SortedDesc(r, key)
    ensures forall j :: 0 <= j < |xs| && p(xs[j]) && xs[j] !in r ==>
              |r| == cap && forall k :: 0 <= k < |r| ==> key(r[k]) >= key(xs[j])
  {
    var selected := Select(xs, p);
    var sorted := SortDesc(selected, key);
    TakeMembers(xs, p, sorted, cap);
    TakeComplete(xs, p, key, sorted, cap);
    Take(sorted, cap)
  }

  /** The top elements are drawn from the selected ones without repetition
      beyond their multiplicity in the input. */
  lemma TopByKeyCounts<T(!new)>(xs: seq<T>, p: T -> bool, key: T -> int, cap: nat)
    ensures multiset(TopByKey(xs, p, key, cap)) <= multiset(Select(xs, p))
    ensures multiset(TopByKey(xs, p, key, cap)) <= multiset(xs)
  {
    var sorted := SortDesc(Select(xs, p), key);
    TakeSubMultiset(sorted, cap);
    SelectCounts(xs, p);
  }

  lemma TakeSubMultiset<T>(s: seq<T>, cap: nat)
    ensures multiset(Take(s, cap)) <= multiset(s)
  {
    var r := Take(s, cap);
    assert s == r + s[|r|..];
  }

  lemma TakeMembers<T(!new)>(xs: seq<T>, p: T -> bool, sorted: seq<T>, cap: nat)
    requires multiset(sorted) == multiset(Select(xs, p))
    ensures forall k :: 0 <= k < |Take(sorted, cap)| ==> Take(sorted, cap)[k] in xs && p(Take(sorted, cap)[k])
  {
    var r := Take(sorted, cap);
    forall k | 0 <= k < |r| ensures r[k] in xs && p(r[k]) {
      assert r[k] in multiset(sorted);
      assert r[k] in Select(xs, p);
    }
  }

  lemma TakeComplete<T(!new)>(xs: seq<T>, p: T -> bool, key: T -> int, sorted: seq<T>, cap: nat)
    requires multiset(sorted) == multiset(Select(xs, p))
    requires SortedDesc(sorted, key)
    ensures forall j :: 0 <= j < |xs| && p(xs[j]) && xs[j] !in Take(sorted, cap) ==>
              |Take(sorted, cap)| == cap && forall k :: 0 <= k < |Take(sorted, cap)| ==> key(Take(sorted, cap)[k]) >= key(xs[j])
  {
    forall i | 0 <= i < |xs| && p(xs[i]) && xs[i] !in Take(sorted, cap)
      ensures |Take(sorted, cap)| == cap
      ensures forall k :: 0 <= k < |Take(sorted, cap)| ==> key(Take(sorted, cap)[k]) >= key(xs[i])
    {
      assert xs[i] in Select(xs, p);
      assert xs[i] in multiset(sorted);
      TakeCompleteAt(sorted, key, cap, xs[i]);
    }
  }

  /** An element of a sorted sequence left out of its first `cap` elements
      keys no higher than any of them, and then `cap` were taken. */
  lemma TakeCompleteAt<T>(sorted: seq<T>, key: T -> int, cap: nat, x: T)
    requires SortedDesc(sorted, key)
    requires x in sorted && x !in Take(sorted, cap)
    ensures |Take(sorted, cap)| == cap
    ensures forall k :: 0 <= k < |Take(sorted, cap)| ==> key(Take(sorted, cap)[k]) >= key(x)
  {
    var r := Take(sorted, cap);
    var j :| 0 <= j < |sorted| && sorted[j] == x;
  }
}
