/** Order-preserving filtering and `list.sort(key=..., reverse=True)`. */
module Seqs {
  import opened Wrappers

  /** `[x for x in s if keep(x)]`. */
  function Filter<T>(s: seq<T>, keep: T -> bool): (r: seq<T>)
    ensures |r| <= |s|
    ensures forall i :: 0 <= i < |r| ==> keep(r[i])
  {
    if |s| == 0 then [] else (if keep(s[0]) then [s[0]] else []) + Filter(s[1..], keep)
  }

  /** The index of the first element from `i` on that satisfies `p`, or `|s|`
      when there is none: the loop that returns on its first match. */
  function FirstFrom<T>(s: seq<T>, p: T -> bool, i: nat): (r: nat)
    requires i <= |s|
    ensures i <= r <= |s|
    ensures r < |s| ==> p(s[r])
    ensures forall k :: i <= k < r ==> !p(s[k])
    decreases |s| - i
  {
    if i == |s| then i
    else if p(s[i]) then i
    else FirstFrom(s, p, i + 1)
  }

  /** The map that sends `key(j)` to `vals[j].value` for every present entry
      at `c` or later: a dict filled in by a loop over distinct keys. */
  function IndexMap<K, V>(vals: seq<Option<V>>, key: nat -> K, c: nat): (m: map<K, V>)
    requires c <= |vals|
    requires forall a, b :: c <= a < b < |vals| ==> key(a) != key(b)
    ensures forall j :: c <= j < |vals| ==> (key(j) in m <==> vals[j].Some?)
    ensures forall j :: c <= j < |vals| && vals[j].Some? ==> m[key(j)] == vals[j].value
    ensures forall k :: k in m ==> exists j :: c <= j < |vals| && vals[j].Some? && k == key(j)
    decreases |vals| - c
  {
    if c == |vals| then map[]
    else
      var rest := IndexMap(vals, key, c + 1);
      if vals[c].Some? then rest[key(c) := vals[c].value] else rest
  }

  /** `[f(x) for x in s if f(x) is not None]`, with `has` the test
      `f(x) is not None`: the values `f` yields for the elements that pass
      the test, in input order. */
  function Somes<A, B>(s: seq<A>, f: A -> Option<B>, has: A -> bool): (r: seq<B>)
    requires forall x :: x in s ==> has(x) == f(x).Some?
    ensures |r| == |Filter(s, has)|
    ensures forall i :: 0 <= i < |r| ==> f(Filter(s, has)[i]) == Some(r[i])
  {
    if |s| == 0 then []
    else
      var rest := Somes(s[1..], f, has);
      if f(s[0]).Some? then [f(s[0]).value] + rest else rest
  }

  /** Exactly the kept elements of the input survive. */
  lemma {:induction false} FilterMembership<T>(s: seq<T>, keep: T -> bool, x: T)
    ensures x in Filter(s, keep) <==> x in s && keep(x)
  {
    if |s| > 0 {
      FilterMembership(s[1..], keep, x);
      assert s == [s[0]] + s[1..];
    }
  }

  lemma FilterKeeps<T>(s: seq<T>, keep: T -> bool)
    ensures forall x :: x in Filter(s, keep) <==> x in s && keep(x)
  {
    forall x
      ensures x in Filter(s, keep) <==> x in s && keep(x)
    {
      FilterMembership(s, keep, x);
    }
  }

  /** Two tests that agree on every element filter alike. */
  lemma {:induction false} FilterSame<T>(s: seq<T>, p: T -> bool, q: T -> bool)
    requires forall x :: x in s ==> p(x) == q(x)
    ensures Filter(s, p) == Filter(s, q)
  {
    if |s| > 0 {
      FilterSame(s[1..], p, q);
    }
  }

  /** Nothing survives a test no element passes. */
  lemma FilterNone<T>(s: seq<T>, keep: T -> bool)
    requires forall x :: x in s ==> !keep(x)
    ensures Filter(s, keep) == []
  {
    var r := Filter(s, keep);
    if |r| > 0 {
      FilterMembership(s, keep, r[0]);
    }
  }

  /** Every element is related to every later one. */
  predicate Pairwise<T>(s: seq<T>, rel: (T, T) -> bool) {
    forall i, j :: 0 <= i < j < |s| ==> rel(s[i], s[j])
  }

  lemma PairwisePrepend<T>(x: T, s: seq<T>, rel: (T, T) -> bool)
    requires Pairwise(s, rel) && forall y :: y in s ==> rel(x, y)
    ensures Pairwise([x] + s, rel)
  {
    var t := [x] + s;
    forall i, j | 0 <= i < j < |t|
      ensures rel(t[i], t[j])
    {
      assert t[j] == s[j - 1];
      if i > 0 {
        assert t[i] == s[i - 1];
      }
    }
  }

  lemma PairwiseAppend<T>(a: seq<T>, b: seq<T>, rel: (T, T) -> bool)
    requires Pairwise(a, rel) && Pairwise(b, rel)
    requires forall x, y :: x in a && y in b ==> rel(x, y)
    ensures Pairwise(a + b, rel)
  {
    var t := a + b;
    forall i, j | 0 <= i < j < |t|
      ensures rel(t[i], t[j])
    {
      if j < |a| {
        assert t[i] == a[i] && t[j] == a[j];
      } else if i >= |a| {
        assert t[i] == b[i - |a|] && t[j] == b[j - |a|];
      } else {
        assert t[i] in a && t[j] in b;
      }
    }
  }

  /** Filtering keeps a pairwise relation: survivors stay in their order. */
  lemma {:induction false} FilterPairwise<T>(s: seq<T>, keep: T -> bool, rel: (T, T) -> bool)
    requires Pairwise(s, rel)
    ensures Pairwise(Filter(s, keep), rel)
  {
    if |s| > 0 {
      FilterPairwise(s[1..], keep, rel);
      var rest := Filter(s[1..], keep);
      forall y | y in rest
        ensures rel(s[0], y)
      {
        FilterMembership(s[1..], keep, y);
        var k :| 0 <= k < |s[1..]| && s[1..][k] == y;
        assert s[k + 1] == y;
      }
      if keep(s[0]) {
        PairwisePrepend(s[0], rest, rel);
      }
    }
  }

  /** Filtering commutes with concatenation: survivors keep their order. */
  lemma {:induction false} FilterAppend<T>(a: seq<T>, b: seq<T>, keep: T -> bool)
    ensures Filter(a + b, keep) == Filter(a, keep) + Filter(b, keep)
  {
    if |a| == 0 {
      assert a + b == b;
    } else {
      assert (a + b)[0] == a[0];
      assert (a + b)[1..] == a[1..] + b;
      FilterAppend(a[1..], b, keep);
    }
  }

  /** Filtering twice with the same test is filtering once. */
  lemma {:induction false} FilterIdempotent<T>(s: seq<T>, keep: T -> bool)
    ensures Filter(Filter(s, keep), keep) == Filter(s, keep)
  {
    if |s| > 0 {
      var head := if keep(s[0]) then [s[0]] else [];
      FilterAppend(head, Filter(s[1..], keep), keep);
      FilterIdempotent(s[1..], keep);
      assert Filter(head, keep) == head by {
        if keep(s[0]) {
          assert head[1..] == [];
        }
      }
    }
  }

  // ----- stable descending sort -----


  predicate SortedDesc<T>(s: seq<T>, key: T -> int) {
    forall i, j :: 0 <= i < j < |s| ==> key(s[i]) >= key(s[j])
  }

  /** Puts `x` in front of the first element whose key is not larger, so that
      among equal keys the element inserted later comes first. */
  function Insert<T>(x: T, s: seq<T>, key: T -> int): (r: seq<T>)
    requires SortedDesc(s, key)
    ensures SortedDesc(r, key)
    ensures multiset(r) == multiset(s) + multiset{x}
    ensures forall y :: y in r ==> y == x || y in s
  {
    if |s| == 0 then [x]
    else if key(s[0]) <= key(x) then
      HeadIsLargest(s, key);
      PrependLarger(x, s, key);
      [x] + s
    else
      var rest := Insert(x, s[1..], key);
      InsertBehindHead(x, s, rest, key);
      [s[0]] + rest
  }

  /** A concatenation splits back into its two parts. */
  lemma ConcatParts<T>(a: seq<T>, b: seq<T>)
    ensures (a + b)[..|a|] == a && (a + b)[|a|..] == b
  {
  }

  /** Putting the head back in front of the tail with `x` inserted. */
  lemma InsertBehindHead<T>(x: T, s: seq<T>, rest: seq<T>, key: T -> int)
    requires |s| > 0 && SortedDesc(s, key) && key(s[0]) > key(x)
    requires SortedDesc(rest, key) && multiset(rest) == multiset(s[1..]) + multiset{x}
    requires forall y :: y in rest ==> y == x || y in s[1..]
    ensures SortedDesc([s[0]] + rest, key)
    ensures multiset([s[0]] + rest) == multiset(s) + multiset{x}
    ensures forall y :: y in [s[0]] + rest ==> y == x || y in s
  {
    HeadIsLargest(s, key);
    forall y | y in rest
      ensures key(y) <= key(s[0])
    {
      if y != x {
        assert y in s;
      }
    }
    PrependLarger(s[0], rest, key);
    assert s == [s[0]] + s[1..];
  }

  lemma HeadIsLargest<T>(s: seq<T>, key: T -> int)
    requires |s| > 0 && SortedDesc(s, key)
    ensures forall y :: y in s ==> key(y) <= key(s[0])
  {
  }

  lemma PrependLarger<T>(x: T, s: seq<T>, key: T -> int)
    requires SortedDesc(s, key)
    requires forall y :: y in s ==> key(y) <= key(x)
    ensures SortedDesc([x] + s, key)
  {
    var r := [x] + s;
    forall i, j | 0 <= i < j < |r|
      ensures key(r[i]) >= key(r[j])
    {
      assert r[j] == s[j - 1];
      if i > 0 {
        assert r[i] == s[i - 1];
      }
    }
  }

  /** Sorting by descending key. Elements of equal key keep their input order
      because each earlier element is inserted in front of them. */
  function SortDesc<T>(s: seq<T>, key: T -> int): (r: seq<T>)
    ensures SortedDesc(r, key)
    ensures multiset(r) == multiset(s)
    ensures |r| == |s|
  {
    if |s| == 0 then []
    else
      assert s == [s[0]] + s[1..];
      Insert(s[0], SortDesc(s[1..], key), key)
  }

  /** The loop `for k in keys: m[k] = f(k)` from an empty dict. */
  method MapEach<K, V>(keys: seq<K>, f: K -> V) returns (m: map<K, V>)
    ensures m.Keys == set k | k in keys
    ensures forall k :: k in m ==> m[k] == f(k)
  {
    m := map[];
    var i := 0;
    while i < |keys|
      invariant 0 <= i <= |keys|
      invariant m.Keys == set k | k in keys[..i]
      invariant forall k :: k in m ==> m[k] == f(k)
    {
      m := m[keys[i] := f(keys[i])];
      assert keys[..i + 1] == keys[..i] + [keys[i]];
      i := i + 1;
    }
    assert keys[..i] == keys;
  }

  /** The test "has key `k`". */
  function WithKey<T>(key: T -> int, k: int): T -> bool {
    y => key(y) == k
  }

  /** Filtering a sequence with a given head. */
  lemma FilterCons<T>(a: T, t: seq<T>, keep: T -> bool)
    ensures Filter([a] + t, keep) == (if keep(a) then [a] else []) + Filter(t, keep)
  {
    assert ([a] + t)[1..] == t;
  }

  /** Inserting `x` puts it ahead of every element with the same key and
      leaves the order among the others alone. */
  lemma {:induction false} InsertTies<T>(x: T, s: seq<T>, key: T -> int, k: int)
    requires SortedDesc(s, key)
    ensures Filter(Insert(x, s, key), WithKey(key, k))
            == (if key(x) == k then [x] else []) + Filter(s, WithKey(key, k))
  {
    if |s| == 0 {
      assert Insert(x, s, key) == [x] + s;
      FilterCons(x, s, WithKey(key, k));
    } else if key(s[0]) <= key(x) {
      assert Insert(x, s, key) == [x] + s;
      FilterCons(x, s, WithKey(key, k));
    } else {
      var tail := s[1..];
      assert SortedDesc(tail, key);
      var rest := Insert(x, tail, key);
      assert Insert(x, s, key) == [s[0]] + rest;
      InsertTies(x, tail, key, k);
      TieBehind(s[0], x, rest, tail, key, k);
      assert [s[0]] + tail == s;
    }
  }

  /** An element with a larger key than `x` stays in front of `x` among
      the elements with key `k`, since it cannot have that key when `x` has. */
  lemma TieBehind<T>(a: T, x: T, rest: seq<T>, tail: seq<T>, key: T -> int, k: int)
    requires key(a) > key(x)
    requires Filter(rest, WithKey(key, k)) == (if key(x) == k then [x] else []) + Filter(tail, WithKey(key, k))
    ensures Filter([a] + rest, WithKey(key, k))
            == (if key(x) == k then [x] else []) + Filter([a] + tail, WithKey(key, k))
  {
    var eq := WithKey(key, k);
    FilterCons(a, rest, eq);
    FilterCons(a, tail, eq);
    if key(x) == k {
      assert !eq(a);
    } else {
      assert Filter(rest, eq) == Filter(tail, eq);
    }
  }

  /** The sort is stable: for every key, the elements with that key come out
      in the order they went in. */
  lemma {:induction false} SortDescStable<T>(s: seq<T>, key: T -> int)
    ensures forall k :: Filter(SortDesc(s, key), WithKey(key, k)) == Filter(s, WithKey(key, k))
  {
    if |s| > 0 {
      SortDescStable(s[1..], key);
      forall k
        ensures Filter(SortDesc(s, key), WithKey(key, k)) == Filter(s, WithKey(key, k))
      {
        InsertTies(s[0], SortDesc(s[1..], key), key, k);
      }
    }
  }
}
